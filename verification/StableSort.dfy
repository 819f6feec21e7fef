/**
 Stable sorting by a three-way comparison.

 The program calls the standard library's stable sort, which promises a
 rearrangement whenever it returns, and a stable sort when the comparison is an
 order. `Sorts` says no more than that of a sorting function, so results about
 one hold for whatever algorithm the library uses. The insertion sort below shows
 that there is such a function, and `StableSortIsUnique` that on an order all of
 them agree.
 */
module StableSort {

  datatype Ordering = Less | Equal | Greater

  function Reverse(o: Ordering): Ordering {
    match o case Less => Greater case Equal => Equal case Greater => Less
  }

  /** `cmp` is a total preorder on the elements of `s`. */
  ghost predicate Consistent<T(!new)>(cmp: (T, T) -> Ordering, s: seq<T>) {
    && (forall x, y | x in s && y in s :: cmp(x, y) == Reverse(cmp(y, x)))
    && (forall x, y, z | x in s && y in s && z in s ::
          cmp(x, y) != Greater && cmp(y, z) != Greater ==> cmp(x, z) != Greater)
  }

  ghost predicate Ascending<T(!new)>(cmp: (T, T) -> Ordering, s: seq<T>) {
    forall i, j | 0 <= i < j < |s| :: cmp(s[i], s[j]) != Greater
  }

  /** The elements of `s` that compare equal to `x`, in order. */
  function Ties<T>(cmp: (T, T) -> Ordering, x: T, s: seq<T>): seq<T> {
    if s == [] then []
    else (if cmp(x, s[0]) == Equal then [s[0]] else []) + Ties(cmp, x, s[1..])
  }

  /** `out` is `s` rearranged, ascending, with ties in their original order. */
  ghost predicate IsStableSort<T(!new)>(cmp: (T, T) -> Ordering, s: seq<T>, out: seq<T>) {
    && multiset(out) == multiset(s)
    && Ascending(cmp, out)
    && forall x | x in s :: Ties(cmp, x, out) == Ties(cmp, x, s)
  }

  /** What a sorting function promises: the same elements, and on an order a stable sort. */
  ghost predicate Sorts<T(!new)>(f: ((T, T) -> Ordering, seq<T>) -> seq<T>) {
    forall cmp, s :: multiset(f(cmp, s)) == multiset(s) && (Consistent(cmp, s) ==> IsStableSort(cmp, s, f(cmp, s)))
  }

  function Insert<T>(cmp: (T, T) -> Ordering, x: T, s: seq<T>): seq<T> {
    if s == [] || cmp(x, s[0]) != Greater then [x] + s else [s[0]] + Insert(cmp, x, s[1..])
  }

  function Sort<T>(cmp: (T, T) -> Ordering, s: seq<T>): seq<T> {
    if s == [] then [] else Insert(cmp, s[0], Sort(cmp, s[1..]))
  }

  lemma {:induction false} InsertContents<T>(cmp: (T, T) -> Ordering, x: T, s: seq<T>)
    ensures multiset(Insert(cmp, x, s)) == multiset{x} + multiset(s)
    ensures |Insert(cmp, x, s)| == |s| + 1
  {
    if s != [] && cmp(x, s[0]) == Greater {
      InsertContents(cmp, x, s[1..]);
      assert s == [s[0]] + s[1..];
    }
  }

  lemma {:induction false} SortContents<T>(cmp: (T, T) -> Ordering, s: seq<T>)
    ensures multiset(Sort(cmp, s)) == multiset(s)
    ensures |Sort(cmp, s)| == |s|
    ensures forall x :: x in Sort(cmp, s) <==> x in s
  {
    hide Insert;
    if s != [] {
      SortContents(cmp, s[1..]);
      InsertContents(cmp, s[0], Sort(cmp, s[1..]));
      TailContents(s);
    }
    SameMembers(Sort(cmp, s), s);
  }

  lemma SameMembers<T>(a: seq<T>, b: seq<T>)
    requires multiset(a) == multiset(b)
    ensures forall x :: x in a <==> x in b
  {
    forall x ensures x in a <==> x in b {
      assert x in a <==> x in multiset(a);
      assert x in b <==> x in multiset(b);
    }
  }

  lemma {:induction false} InsertAscending<T(!new)>(cmp: (T, T) -> Ordering, x: T, s: seq<T>)
    requires Ascending(cmp, s) && Consistent(cmp, [x] + s)
    ensures Ascending(cmp, Insert(cmp, x, s))
  {
    assert forall y :: y in s ==> y in [x] + s;
    assert x in [x] + s;
    if s != [] {
      assert s[0] in s;
      if cmp(x, s[0]) == Greater {
        var rest := s[1..];
        InsertAscending(cmp, x, rest);
        InsertContents(cmp, x, rest);
        var r := Insert(cmp, x, rest);
        forall j | 0 <= j < |r| ensures cmp(s[0], r[j]) != Greater {
          assert r[j] in multiset(r);
          assert r[j] == x || r[j] in rest;
        }
      } else {
        forall j | 0 <= j < |s| ensures cmp(x, s[j]) != Greater {
          assert s[j] in s;
        }
      }
    }
  }

  lemma {:induction false} TiesInsertAny<T(!new)>(cmp: (T, T) -> Ordering, x: T, s: seq<T>, y: T, dom: seq<T>)
    requires Consistent(cmp, dom) && x in dom && y in dom && forall z :: z in s ==> z in dom
    ensures Ties(cmp, y, Insert(cmp, x, s)) == (if cmp(y, x) == Equal then [x] else []) + Ties(cmp, y, s)
    decreases |s|
  {
    if s == [] || cmp(x, s[0]) != Greater {
      assert ([x] + s)[1..] == s;
    } else {
      assert s[0] in s;
      TiesInsertAny(cmp, x, s[1..], y, dom);
      assert Insert(cmp, x, s)[1..] == Insert(cmp, x, s[1..]);
    }
  }

  lemma {:induction false} SortTies<T(!new)>(cmp: (T, T) -> Ordering, s: seq<T>, y: T, dom: seq<T>)
    requires Consistent(cmp, dom) && y in dom && forall z :: z in s ==> z in dom
    ensures Ties(cmp, y, Sort(cmp, s)) == Ties(cmp, y, s)
    decreases |s|
  {
    if s != [] {
      assert s[0] in s;
      SortTies(cmp, s[1..], y, dom);
      SortContents(cmp, s[1..]);
      TiesInsertAny(cmp, s[0], Sort(cmp, s[1..]), y, dom);
    }
  }

  lemma {:induction false} SortAscending<T(!new)>(cmp: (T, T) -> Ordering, s: seq<T>)
    requires Consistent(cmp, s)
    ensures Ascending(cmp, Sort(cmp, s))
  {
    if s != [] {
      assert s == [s[0]] + s[1..];
      SortAscending(cmp, s[1..]);
      SortContents(cmp, s[1..]);
      InsertAscending(cmp, s[0], Sort(cmp, s[1..]));
    }
  }

  /** On every input where the comparison is a total preorder, `Sort` is a stable sort. */
  lemma SortIsStable<T(!new)>(cmp: (T, T) -> Ordering, s: seq<T>)
    requires Consistent(cmp, s)
    ensures IsStableSort(cmp, s, Sort(cmp, s))
  {
    SortContents(cmp, s);
    SortAscending(cmp, s);
    forall x | x in s ensures Ties(cmp, x, Sort(cmp, s)) == Ties(cmp, x, s) {
      SortTies(cmp, s, x, s);
    }
  }

  // -------------------------------------------------------------- uniqueness

  lemma {:induction false} TiesHead<T>(cmp: (T, T) -> Ordering, x: T, s: seq<T>)
    requires s != [] && cmp(x, s[0]) == Equal
    ensures Ties(cmp, x, s) != [] && Ties(cmp, x, s)[0] == s[0]
    ensures Ties(cmp, x, s)[1..] == Ties(cmp, x, s[1..])
  {
  }

  lemma SameHead<T(!new)>(cmp: (T, T) -> Ordering, a: seq<T>, b: seq<T>)
    requires a != [] && multiset(a) == multiset(b)
    requires Consistent(cmp, a) && Ascending(cmp, a) && Ascending(cmp, b)
    requires forall x | x in a :: Ties(cmp, x, a) == Ties(cmp, x, b)
    ensures b != [] && a[0] == b[0]
  {
    assert |multiset(a)| == |multiset(b)|;
    SameMembers(a, b);
    assert b[0] in a && a[0] in b && a[0] in a && b[0] in b;
    var i :| 0 <= i < |a| && a[i] == b[0];
    var j :| 0 <= j < |b| && b[j] == a[0];
    assert cmp(a[0], a[0]) == Equal;
    assert cmp(a[0], b[0]) != Greater && cmp(b[0], a[0]) != Greater;
    TiesHead(cmp, a[0], a);
    TiesHead(cmp, a[0], b);
  }

  lemma SameTail<T>(cmp: (T, T) -> Ordering, x: T, a: seq<T>, b: seq<T>)
    requires a != [] && b != [] && a[0] == b[0] && Ties(cmp, x, a) == Ties(cmp, x, b)
    ensures Ties(cmp, x, a[1..]) == Ties(cmp, x, b[1..])
  {
    var h := if cmp(x, a[0]) == Equal then [a[0]] else [];
    assert Ties(cmp, x, a)[|h|..] == Ties(cmp, x, a[1..]);
    assert Ties(cmp, x, b)[|h|..] == Ties(cmp, x, b[1..]);
  }

  lemma TailContents<T>(s: seq<T>)
    requires s != []
    ensures multiset(s[1..]) == multiset(s) - multiset{s[0]}
  {
    assert s == [s[0]] + s[1..];
  }

  lemma TailIsOrdered<T(!new)>(cmp: (T, T) -> Ordering, s: seq<T>)
    requires s != [] && Ascending(cmp, s)
    ensures Ascending(cmp, s[1..])
  {
  }

  lemma TailIsConsistent<T(!new)>(cmp: (T, T) -> Ordering, s: seq<T>)
    requires s != [] && Consistent(cmp, s)
    ensures Consistent(cmp, s[1..])
  {
    assert forall x :: x in s[1..] ==> x in s;
  }

  /** Order, contents and tie order leave no freedom: a stable sort has one result. */
  lemma {:induction false} StableSortIsUnique<T(!new)>(cmp: (T, T) -> Ordering, a: seq<T>, b: seq<T>)
    requires multiset(a) == multiset(b)
    requires Consistent(cmp, a) && Ascending(cmp, a) && Ascending(cmp, b)
    requires forall x | x in a :: Ties(cmp, x, a) == Ties(cmp, x, b)
    ensures a == b
    decreases |a|
  {
    hide Consistent, Ascending, Ties;
    if a == [] {
      assert |multiset(a)| == |multiset(b)|;
    } else {
      SameHead(cmp, a, b);
      TailContents(a);
      TailContents(b);
      TailIsOrdered(cmp, a);
      TailIsOrdered(cmp, b);
      TailIsConsistent(cmp, a);
      forall x | x in a[1..] ensures Ties(cmp, x, a[1..]) == Ties(cmp, x, b[1..]) {
        assert x in a;
        SameTail(cmp, x, a, b);
      }
      StableSortIsUnique(cmp, a[1..], b[1..]);
      assert a == [a[0]] + a[1..] && b == [b[0]] + b[1..];
    }
  }

  // ---------------------------------------------------------------- counting

  function Count<T>(p: T -> bool, s: seq<T>): nat {
    if s == [] then 0 else (if p(s[0]) then 1 else 0) + Count(p, s[1..])
  }

  lemma {:induction false} CountConcat<T>(p: T -> bool, a: seq<T>, b: seq<T>)
    ensures Count(p, a + b) == Count(p, a) + Count(p, b)
  {
    if a == [] {
      assert a + b == b;
    } else {
      assert (a + b)[1..] == a[1..] + b;
      CountConcat(p, a[1..], b);
    }
  }

  lemma RemoveAt<T>(s: seq<T>, j: nat)
    requires j < |s|
    ensures multiset(s[..j] + s[j + 1..]) == multiset(s) - multiset{s[j]}
  {
    assert s == s[..j] + [s[j]] + s[j + 1..];
  }

  lemma CountRemove<T>(p: T -> bool, s: seq<T>, j: nat)
    requires j < |s|
    ensures Count(p, s) == Count(p, s[..j] + s[j + 1..]) + (if p(s[j]) then 1 else 0)
  {
    var tail := [s[j]] + s[j + 1..];
    assert s == s[..j] + tail && tail[1..] == s[j + 1..];
    CountConcat(p, s[..j], tail);
    CountConcat(p, s[..j], s[j + 1..]);
  }

  /** A count does not depend on the order of what is counted. */
  lemma {:induction false} CountPermuted<T>(p: T -> bool, a: seq<T>, b: seq<T>)
    requires multiset(a) == multiset(b)
    ensures Count(p, a) == Count(p, b)
    decreases |a|
  {
    assert |multiset(a)| == |multiset(b)|;
    if a != [] {
      SameMembers(a, b);
      assert a[0] in b;
      var j :| 0 <= j < |b| && b[j] == a[0];
      var rest := b[..j] + b[j + 1..];
      assert a[..0] + a[1..] == a[1..];
      RemoveAt(a, 0);
      RemoveAt(b, j);
      CountPermuted(p, a[1..], rest);
      CountRemove(p, a, 0);
      CountRemove(p, b, j);
    }
  }

  /** So on an order every stable sort is the one sorting functions make. */
  lemma StableSortIsSorted<T(!new)>(f: ((T, T) -> Ordering, seq<T>) -> seq<T>, cmp: (T, T) -> Ordering, s: seq<T>, out: seq<T>)
    requires Sorts(f) && Consistent(cmp, s) && IsStableSort(cmp, s, out)
    ensures out == f(cmp, s)
  {
    var r := f(cmp, s);
    assert forall x :: x in r <==> x in multiset(r);
    assert forall x :: x in s <==> x in multiset(s);
    hide Ties;
    StableSortIsUnique(cmp, r, out);
  }

  lemma SortSorts<T(!new)>()
    ensures Sorts<T>(Sort)
  {
    forall cmp: (T, T) -> Ordering, s: seq<T>
      ensures multiset(Sort(cmp, s)) == multiset(s) && (Consistent(cmp, s) ==> IsStableSort(cmp, s, Sort(cmp, s)))
    {
      SortContents(cmp, s);
      if Consistent(cmp, s) {
        SortIsStable(cmp, s);
      }
    }
  }
}
