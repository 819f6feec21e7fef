/** What the knobs do to elements: keep, order, deduplicate, cap, project, shorten. */
module Shape {
  import opened Wrappers
  import opened Json
  import opened Texts
  import opened Filter
  import opened StableSort

  // ---------------------------------------------------------------- filter

  function Kept(items: seq<Value>, filters: seq<FilterExpr>, ctx: Context): (r: seq<Value>)
    ensures |r| <= |items|
    ensures forall x :: x in r <==> x in items && MatchesAll(filters, x, ctx)
  {
    if items == [] then []
    else
      assert items == [items[0]] + items[1..];
      (if MatchesAll(filters, items[0], ctx) then [items[0]] else []) + Kept(items[1..], filters, ctx)
  }

  /** `picked` are the elements of `items` at the ascending positions `at`. */
  predicate Picks<T(==)>(items: seq<T>, at: seq<nat>, picked: seq<T>) {
    && |at| == |picked|
    && (forall i | 0 <= i < |at| :: at[i] < |items| && picked[i] == items[at[i]])
    && (forall i, j | 0 <= i < j < |at| :: at[i] < at[j])
  }

  /** Positions in a tail as positions in the whole. */
  function Shifted(at: seq<nat>): (r: seq<nat>)
    ensures |r| == |at| && forall i | 0 <= i < |at| :: r[i] == at[i] + 1
  {
    seq(|at|, i requires 0 <= i < |at| => at[i] + 1)
  }

  lemma ShiftedHas(at: seq<nat>, i: nat)
    ensures 0 !in Shifted(at)
    ensures i in at <==> i + 1 in Shifted(at)
  {
    if i in at {
      var j :| 0 <= j < |at| && at[j] == i;
      assert Shifted(at)[j] == i + 1;
    }
  }

  lemma PicksShifted<T>(items: seq<T>, at: seq<nat>, picked: seq<T>)
    requires items != [] && Picks(items[1..], at, picked)
    ensures Picks(items, Shifted(at), picked)
  {
    var later := Shifted(at);
    forall i | 0 <= i < |at| ensures later[i] < |items| && picked[i] == items[later[i]] {
      assert items[1..][at[i]] == items[at[i] + 1];
    }
  }

  lemma PicksHead<T>(items: seq<T>, at: seq<nat>, picked: seq<T>)
    requires items != [] && Picks(items, at, picked) && 0 !in at
    ensures Picks(items, [0] + at, [items[0]] + picked)
  {
    var all, wanted := [0] + at, [items[0]] + picked;
    forall i | 0 <= i < |all| ensures all[i] < |items| && wanted[i] == items[all[i]] {
      assert i > 0 ==> all[i] == at[i - 1] && wanted[i] == picked[i - 1];
    }
    forall i, j | 0 <= i < j < |all| ensures all[i] < all[j] {
      assert all[j] == at[j - 1] && at[j - 1] in at;
    }
  }

  lemma PicksCons<T>(items: seq<T>, at: seq<nat>, picked: seq<T>, head: bool)
    requires items != [] && Picks(items[1..], at, picked)
    ensures Picks(items, (if head then [0] else []) + Shifted(at), (if head then [items[0]] else []) + picked)
  {
    hide Picks;
    PicksShifted(items, at, picked);
    if head {
      ShiftedHas(at, 0);
      PicksHead(items, Shifted(at), picked);
    } else {
      assert [] + Shifted(at) == Shifted(at) && [] + picked == picked;
    }
  }

  lemma KeptCons(items: seq<Value>, filters: seq<FilterExpr>, ctx: Context)
    requires items != []
    ensures Kept(items, filters, ctx) ==
            (if MatchesAll(filters, items[0], ctx) then [items[0]] else []) + Kept(items[1..], filters, ctx)
  {
    hide MatchesAll;
  }

  lemma MatchingCons(items: seq<Value>, filters: seq<FilterExpr>, ctx: Context, later: seq<nat>, i: nat)
    requires i < |items| && (i > 0 ==> (i - 1 in later <==> MatchesAll(filters, items[i], ctx)))
    ensures var at := (if MatchesAll(filters, items[0], ctx) then [0] else []) + Shifted(later);
            i in at <==> MatchesAll(filters, items[i], ctx)
  {
    hide MatchesAll, Shifted;
    ShiftedHas(later, if i > 0 then i - 1 else 0);
  }

  /** What is kept stands at exactly the matching positions, in their order, duplicates included. */
  lemma {:induction false} KeptInOrder(items: seq<Value>, filters: seq<FilterExpr>, ctx: Context) returns (at: seq<nat>)
    ensures Picks(items, at, Kept(items, filters, ctx))
    ensures forall i | 0 <= i < |items| :: i in at <==> MatchesAll(filters, items[i], ctx)
  {
    if items == [] {
      at := [];
    } else {
      hide *;
      var head := MatchesAll(filters, items[0], ctx);
      var later := KeptInOrder(items[1..], filters, ctx);
      at := (if head then [0] else []) + Shifted(later);
      KeptCons(items, filters, ctx);
      PicksCons(items, later, Kept(items[1..], filters, ctx), head);
      forall i | 0 <= i < |items| ensures i in at <==> MatchesAll(filters, items[i], ctx) {
        assert i > 0 ==> items[1..][i - 1] == items[i];
        MatchingCons(items, filters, ctx, later, i);
      }
    }
  }

  // ------------------------------------------------------------------ sort

  function AsReal(v: Value): Option<real> {
    match v
    case Int(n) => Some(n as real)
    case Dec(_, approx) => Some(approx)
    case _ => None
  }

  predicate IsNumber(v: Value) {
    v.Int? || v.Dec?
  }

  function CompareReals(l: real, r: real): Ordering {
    if l < r then Less else if l == r then Equal else Greater
  }

  function CompareTexts(l: string, r: string): Ordering {
    if l == r then Equal else if TextLess(l, r) then Less else Greater
  }

  /** Order by text, containers after every scalar. */
  function CompareAsText(l: Value, r: Value): Ordering {
    match (ScalarText(l), ScalarText(r))
    case (Some(a), Some(b)) => CompareTexts(a, b)
    case (Some(_), None) => Less
    case (None, Some(_)) => Greater
    case (None, None) => Equal
  }

  /** Two numbers compare numerically, anything else as text. */
  function Compare(l: Value, r: Value): Ordering {
    if AsReal(l).Some? && AsReal(r).Some? then CompareReals(AsReal(l).value, AsReal(r).value)
    else CompareAsText(l, r)
  }

  function CompareKeys(l: Option<Value>, r: Option<Value>): Ordering {
    match (l, r)
    case (None, None) => Equal
    case (None, Some(_)) => Greater
    case (Some(_), None) => Less
    case (Some(a), Some(b)) => Compare(a, b)
  }

  function CompareAt(path: seq<string>, groups: seq<seq<string>>): (Value, Value) -> Ordering {
    (a, b) => CompareKeys(Lookup(a, path, groups), Lookup(b, path, groups))
  }

  function Sorted(items: seq<Value>, key: string, ctx: Context): seq<Value> {
    ctx.sorter(CompareAt(Split(key), ctx.groups), items)
  }

  /** Whatever the keys, sorting rearranges. */
  lemma SortedContents(items: seq<Value>, key: string, ctx: Context)
    ensures multiset(Sorted(items, key, ctx)) == multiset(items) && |Sorted(items, key, ctx)| == |items|
  {
    assert |multiset(Sorted(items, key, ctx))| == |multiset(items)|;
  }

  lemma CompareTextsIsOrder(a: string, b: string, c: string)
    ensures CompareTexts(a, b) == Reverse(CompareTexts(b, a))
    ensures CompareTexts(a, b) != Greater && CompareTexts(b, c) != Greater ==> CompareTexts(a, c) != Greater
  {
    TextLessTotal(a, b);
    TextLessTotal(b, c);
    TextLessTotal(a, c);
    if TextLess(a, b) && TextLess(b, c) {
      TextLessTransitive(a, b, c);
    }
  }

  lemma CompareAsTextIsOrder(a: Value, b: Value, c: Value)
    ensures CompareAsText(a, b) == Reverse(CompareAsText(b, a))
    ensures CompareAsText(a, b) != Greater && CompareAsText(b, c) != Greater ==> CompareAsText(a, c) != Greater
  {
    var s, t, u := ScalarText(a), ScalarText(b), ScalarText(c);
    hide CompareTexts, ScalarText;
    if s.Some? && t.Some? {
      CompareTextsIsOrder(s.value, t.value, if u.Some? then u.value else "");
    }
  }

  /** The text of `v` lies between the texts of `a` and `b`, ends included. */
  predicate Between(a: Value, v: Value, b: Value) {
    || (CompareAsText(a, v) != Greater && CompareAsText(v, b) != Greater)
    || (CompareAsText(b, v) != Greater && CompareAsText(v, a) != Greater)
  }

  /** Two numbers ordered one way by value and another by text. */
  predicate Clash(a: Value, b: Value) {
    IsNumber(a) && IsNumber(b) && Compare(a, b) != CompareAsText(a, b)
  }

  /** Nothing but numbers lies between two numbers that clash. */
  predicate Orderly(values: seq<Value>) {
    forall a, b, v | a in values && b in values && v in values && Clash(a, b) && !IsNumber(v) :: !Between(a, v, b)
  }

  lemma CompareReverses(a: Value, b: Value)
    ensures Compare(a, b) == Reverse(Compare(b, a))
  {
    CompareAsTextIsOrder(a, b, a);
  }

  lemma TextIsOrder(a: Value, b: Value, c: Value)
    ensures CompareAsText(a, b) == Reverse(CompareAsText(b, a))
    ensures CompareAsText(b, c) == Reverse(CompareAsText(c, b))
    ensures CompareAsText(a, c) == Reverse(CompareAsText(c, a))
    ensures CompareAsText(a, b) != Greater && CompareAsText(b, c) != Greater ==> CompareAsText(a, c) != Greater
  {
    hide CompareAsText;
    CompareAsTextIsOrder(a, b, c);
    CompareAsTextIsOrder(b, c, a);
    CompareAsTextIsOrder(a, c, b);
  }

  /** A triple that breaks the order is two clashing numbers around a value that is none. */
  lemma BrokenTriple(x: Value, y: Value, z: Value)
    requires Compare(x, y) != Greater && Compare(y, z) != Greater && Compare(x, z) == Greater
    ensures || (Clash(x, y) && !IsNumber(z) && Between(x, z, y))
            || (Clash(y, z) && !IsNumber(x) && Between(y, x, z))
            || (Clash(x, z) && !IsNumber(y) && Between(x, y, z))
  {
    hide CompareAsText;
    TextIsOrder(x, y, z);
    TextIsOrder(y, z, x);
    TextIsOrder(z, x, y);
  }

  /** Two clashing numbers around such a value break the order in one direction or the other. */
  lemma ClashBreaks(a: Value, v: Value, b: Value)
    requires Clash(a, b) && !IsNumber(v) && CompareAsText(a, v) != Greater && CompareAsText(v, b) != Greater
    ensures || (Compare(a, v) != Greater && Compare(v, b) != Greater && Compare(a, b) == Greater)
            || (Compare(b, a) != Greater && Compare(a, v) != Greater && Compare(b, v) == Greater)
            || (Compare(v, b) != Greater && Compare(b, a) != Greater && Compare(v, a) == Greater)
            || (Compare(b, v) != Greater && Compare(v, a) != Greater && Compare(b, a) == Greater)
  {
    hide CompareAsText;
    TextIsOrder(a, v, b);
    TextIsOrder(b, v, a);
    TextIsOrder(b, a, v);
    TextIsOrder(v, b, a);
    CompareReverses(a, b);
  }

  /** The exact condition: `compare` is a total preorder on the values if and only if nothing but
      numbers lies, as text, between two numbers whose texts and values disagree. */
  lemma ConsistentIff(values: seq<Value>)
    ensures Consistent(Compare, values) <==> Orderly(values)
  {
    if Orderly(values) {
      forall x, y | x in values && y in values ensures Compare(x, y) == Reverse(Compare(y, x)) {
        CompareReverses(x, y);
      }
      forall x, y, z | x in values && y in values && z in values && Compare(x, y) != Greater && Compare(y, z) != Greater
        ensures Compare(x, z) != Greater
      {
        if Compare(x, z) == Greater {
          BrokenTriple(x, y, z);
        }
      }
    } else {
      var a, b, v :| a in values && b in values && v in values && Clash(a, b) && !IsNumber(v) && Between(a, v, b);
      hide CompareAsText;
      if CompareAsText(a, v) != Greater && CompareAsText(v, b) != Greater {
        ClashBreaks(a, v, b);
      } else {
        TextIsOrder(a, b, a);
        CompareReverses(a, b);
        ClashBreaks(b, v, a);
      }
    }
  }

  /** The values the elements are sorted on. */
  function KeyedValues(items: seq<Value>, path: seq<string>, groups: seq<seq<string>>): (r: seq<Value>)
    ensures forall v :: v in r <==> exists x :: x in items && Lookup(x, path, groups) == Some(v)
  {
    if items == [] then []
    else
      assert items == [items[0]] + items[1..];
      (match Lookup(items[0], path, groups) case Some(v) => [v] case None => [])
      + KeyedValues(items[1..], path, groups)
  }

  /** Elements are consistently ordered exactly when the values they carry are. */
  lemma KeyedOrderIff(items: seq<Value>, path: seq<string>, groups: seq<seq<string>>)
    ensures Consistent(CompareAt(path, groups), items) <==> Orderly(KeyedValues(items, path, groups))
  {
    var values := KeyedValues(items, path, groups);
    ConsistentIff(values);
    hide Orderly, Compare, KeyedValues, Lookup;
    var cmp := CompareAt(path, groups);
    if Consistent(Compare, values) {
      forall x, y, z | x in items && y in items && z in items
        ensures cmp(x, y) == Reverse(cmp(y, x))
        ensures cmp(x, y) != Greater && cmp(y, z) != Greater ==> cmp(x, z) != Greater
      {
        assert forall e | e in [x, y, z] :: Lookup(e, path, groups).Some? ==> Lookup(e, path, groups).value in values;
      }
    } else if Consistent(cmp, items) {
      forall a, b, c | a in values && b in values && c in values
        ensures Compare(a, b) == Reverse(Compare(b, a))
        ensures Compare(a, b) != Greater && Compare(b, c) != Greater ==> Compare(a, c) != Greater
      {
        var x :| x in items && Lookup(x, path, groups) == Some(a);
        var y :| y in items && Lookup(y, path, groups) == Some(b);
        var z :| z in items && Lookup(z, path, groups) == Some(c);
        assert cmp(x, y) == Compare(a, b) && cmp(y, z) == Compare(b, c) && cmp(x, z) == Compare(a, c);
      }
    }
  }

  ghost predicate KeylessLast(items: seq<Value>, path: seq<string>, groups: seq<seq<string>>) {
    forall i, j | 0 <= i < j < |items| ::
      Lookup(items[i], path, groups).None? ==> Lookup(items[j], path, groups).None?
  }

  /** On orderly keys sorting is a stable sort, and the only one, with keyless elements last, whatever the payload. */
  lemma SortPromise(items: seq<Value>, key: string, ctx: Context)
    requires Orderly(KeyedValues(items, Split(key), ctx.groups))
    ensures IsStableSort(CompareAt(Split(key), ctx.groups), items, Sorted(items, key, ctx))
    ensures KeylessLast(Sorted(items, key, ctx), Split(key), ctx.groups)
    ensures forall out | IsStableSort(CompareAt(Split(key), ctx.groups), items, out) :: out == Sorted(items, key, ctx)
  {
    var cmp, groups := CompareAt(Split(key), ctx.groups), ctx.groups;
    KeyedOrderIff(items, Split(key), groups);
    var out := Sorted(items, key, ctx);
    hide Orderly, Compare;
    forall i, j | 0 <= i < j < |out| && Lookup(out[i], Split(key), groups).None?
      ensures Lookup(out[j], Split(key), groups).None?
    {
      assert cmp(out[i], out[j]) != Greater;
    }
    forall r | IsStableSort(cmp, items, r) ensures r == out {
      StableSortIsSorted(ctx.sorter, cmp, items, r);
    }
  }

  predicate IsContainer(v: Value) {
    v.Arr? || v.Obj?
  }

  /** The order of sort keys: numbers by value, other scalars by text, containers after scalars, missing keys last. */
  ghost predicate NotAfter(a: Option<Value>, b: Option<Value>) {
    match (a, b)
    case (None, _) => b.None?
    case (_, None) => true
    case (Some(x), Some(y)) =>
      if IsContainer(x) then IsContainer(y)
      else if IsNumber(x) && IsNumber(y) then AsReal(x).value <= AsReal(y).value
      else forall tx, ty | Reads(a, tx) && Reads(b, ty) :: !TextLess(ty, tx)
  }

  lemma ComparedIsNotAfter(a: Option<Value>, b: Option<Value>)
    ensures CompareKeys(a, b) != Greater <==> NotAfter(a, b)
  {
    ReadsAsText(a);
    ReadsAsText(b);
    hide Reads, TextLess;
    if a.Some? && b.Some? && ScalarText(a.value).Some? && ScalarText(b.value).Some? {
      TextLessTotal(ScalarText(a.value).value, ScalarText(b.value).value);
      assert Reads(a, ScalarText(a.value).value) && Reads(b, ScalarText(b.value).value);
    }
  }

  /** On orderly keys the output reads in that order. */
  lemma SortedReads(items: seq<Value>, key: string, ctx: Context, i: nat, j: nat)
    requires Orderly(KeyedValues(items, Split(key), ctx.groups)) && i < j < |Sorted(items, key, ctx)|
    ensures var out := Sorted(items, key, ctx);
            NotAfter(Lookup(out[i], Split(key), ctx.groups), Lookup(out[j], Split(key), ctx.groups))
  {
    hide Orderly, Compare, NotAfter, KeyedValues, Lookup;
    var out := Sorted(items, key, ctx);
    SortPromise(items, key, ctx);
    assert CompareAt(Split(key), ctx.groups)(out[i], out[j]) != Greater;
    ComparedIsNotAfter(Lookup(out[i], Split(key), ctx.groups), Lookup(out[j], Split(key), ctx.groups));
  }

  /** The mixed case: 10, "5", 9 goes round in a circle. */
  lemma TenFiveNine()
    ensures Compare(Int(10), Str("5")) == Less
    ensures Compare(Str("5"), Int(9)) == Less
    ensures Compare(Int(10), Int(9)) == Greater
  {
    assert Digits(10) == Digits(1) + ['0'];
    assert TextLess("10", "5") && TextLess("5", "9");
  }

  /** A mixture that is fine: no text between "10" and "9" is in it. */
  lemma TenZzNine()
    ensures Consistent(Compare, [Int(10), Str("zz"), Int(9)])
  {
    var values := [Int(10), Str("zz"), Int(9)];
    assert Digits(10) == Digits(1) + ['0'];
    assert TextLess("10", "zz") && TextLess("9", "zz") && !TextLess("zz", "10") && !TextLess("zz", "9");
    assert Orderly(values) by {
      forall a, b, v | a in values && b in values && v in values && Clash(a, b) && !IsNumber(v) ensures !Between(a, v, b) {
        assert v == Str("zz");
      }
    }
    ConsistentIff(values);
  }

  // ---------------------------------------------------------------- dedupe

  /** Keeps the first element of each key, and every element without one. */
  function DedupedFrom<T>(items: seq<T>, key: T -> Option<string>, seen: set<string>): seq<T>
    decreases |items|
  {
    if items == [] then []
    else
      match key(items[0])
      case None => [items[0]] + DedupedFrom(items[1..], key, seen)
      case Some(text) =>
        if text in seen then DedupedFrom(items[1..], key, seen)
        else [items[0]] + DedupedFrom(items[1..], key, seen + {text})
  }

  function TextAt(path: seq<string>, groups: seq<seq<string>>): Value -> Option<string> {
    x => ScalarAt(x, path, groups)
  }

  function Deduped(items: seq<Value>, key: string, groups: seq<seq<string>>): seq<Value> {
    DedupedFrom(items, TextAt(Split(key), groups), {})
  }

  method Dedupe(items: seq<Value>, key: string, groups: seq<seq<string>>) returns (out: seq<Value>)
    ensures out == Deduped(items, key, groups)
  {
    var textOf := TextAt(Split(key), groups);
    var seen: set<string> := {};
    out := [];
    for i := 0 to |items|
      invariant out + DedupedFrom(items[i..], textOf, seen) == Deduped(items, key, groups)
    {
      assert items[i..][1..] == items[i + 1..];
      assert forall rest :: out + ([items[i]] + rest) == out + [items[i]] + rest;
      match textOf(items[i]) {
        case None =>
          out := out + [items[i]];
        case Some(text) =>
          if text !in seen {
            seen := seen + {text};
            out := out + [items[i]];
          }
      }
    }
  }

  /** Nothing before `i` has its text, nor has `seen`; or it has none. */
  predicate IsFirst<T>(items: seq<T>, key: T -> Option<string>, seen: set<string>, i: nat)
    requires i < |items|
  {
    key(items[i]).None? || (key(items[i]).value !in seen && forall j | 0 <= j < i :: key(items[j]) != key(items[i]))
  }

  lemma FirstCons<T>(items: seq<T>, key: T -> Option<string>, seen: set<string>, i: nat)
    requires 0 < i < |items|
    ensures var first := key(items[0]);
            var more := if first.Some? then seen + {first.value} else seen;
            IsFirst(items, key, seen, i) <==> IsFirst(items[1..], key, more, i - 1)
  {
    var rest := items[1..];
    assert rest[i - 1] == items[i];
    assert (forall j | 0 <= j < i :: key(items[j]) != key(items[i])) <==>
           (key(items[0]) != key(items[i]) && forall j | 0 <= j < i - 1 :: key(rest[j]) != key(rest[i - 1])) by {
      assert forall j | 0 < j < i :: items[j] == rest[j - 1];
    }
  }

  lemma DedupedCons<T>(items: seq<T>, key: T -> Option<string>, seen: set<string>)
    requires items != []
    ensures var first := key(items[0]);
            var more := if first.Some? then seen + {first.value} else seen;
            DedupedFrom(items, key, seen) ==
            (if IsFirst(items, key, seen, 0) then [items[0]] else []) + DedupedFrom(items[1..], key, more)
  {
    var first := key(items[0]);
    if first.Some? && first.value in seen {
      assert seen + {first.value} == seen;
    }
  }

  /** The survivors stand at ascending positions: exactly those whose text is missing or new. */
  lemma {:induction false} DedupedInOrder<T>(items: seq<T>, key: T -> Option<string>, seen: set<string>) returns (at: seq<nat>)
    ensures Picks(items, at, DedupedFrom(items, key, seen))
    ensures forall i | 0 <= i < |items| :: i in at <==> IsFirst(items, key, seen, i)
    decreases |items|
  {
    if items == [] {
      at := [];
    } else {
      hide IsFirst, Picks, DedupedFrom, Shifted;
      var first := key(items[0]);
      var more := if first.Some? then seen + {first.value} else seen;
      var head := IsFirst(items, key, seen, 0);
      var later := DedupedInOrder(items[1..], key, more);
      at := (if head then [0] else []) + Shifted(later);
      DedupedCons(items, key, seen);
      PicksCons(items, later, DedupedFrom(items[1..], key, more), head);
      forall i | 0 <= i < |items| ensures i in at <==> IsFirst(items, key, seen, i) {
        ShiftedHas(later, if i > 0 then i - 1 else 0);
        if i > 0 {
          FirstCons(items, key, seen, i);
        }
      }
    }
  }

  /** Something with the text of `q` survives that stood no later. */
  lemma {:induction false} FirstOfText<T>(items: seq<T>, key: T -> Option<string>, q: nat) returns (p: nat)
    requires q < |items|
    ensures p <= q && key(items[p]) == key(items[q]) && IsFirst(items, key, {}, p)
  {
    if j :| 0 <= j < q && key(items[j]) == key(items[q]) {
      p := FirstOfText(items, key, j);
    } else {
      p := q;
    }
  }

  // ------------------------------------------------------- order of synonyms

  /** The names of every group that holds `leaf`, one group after the other. */
  function NamesBeside(leaf: string, groups: seq<seq<string>>): seq<string> {
    if groups == [] then []
    else (if leaf in groups[0] then groups[0] else []) + NamesBeside(leaf, groups[1..])
  }

  function Itself(): string -> Option<string> {
    s => Some(s)
  }

  lemma {:induction false} SpellingsAreDeduped(out: seq<string>, leaf: string, group: seq<string>, seen: set<string>)
    requires forall s :: s in seen <==> s in out || s == leaf
    ensures AddSpellings(out, leaf, group) == out + DedupedFrom(group, Itself(), seen)
    ensures forall s :: s in AddSpellings(out, leaf, group) || s == leaf <==> s in seen || s in group
    decreases |group|
  {
    if group != [] {
      var s := group[0];
      assert group == [s] + group[1..];
      if s != leaf && s !in out {
        SpellingsAreDeduped(out + [s], leaf, group[1..], seen + {s});
      } else {
        SpellingsAreDeduped(out, leaf, group[1..], seen);
      }
    }
  }

  lemma {:induction false} DedupedConcat<T>(a: seq<T>, b: seq<T>, key: T -> Option<string>, seen: set<string>, more: set<string>)
    requires forall s :: s in more <==> s in seen || exists x :: x in a && key(x) == Some(s)
    ensures DedupedFrom(a + b, key, seen) == DedupedFrom(a, key, seen) + DedupedFrom(b, key, more)
    decreases |a|
  {
    if a == [] {
      assert a + b == b && more == seen;
    } else {
      assert (a + b)[1..] == a[1..] + b && a == [a[0]] + a[1..];
      match key(a[0]) {
        case None => DedupedConcat(a[1..], b, key, seen, more);
        case Some(text) => DedupedConcat(a[1..], b, key, if text in seen then seen else seen + {text}, more);
      }
    }
  }

  lemma {:induction false} GroupsAreDeduped(out: seq<string>, leaf: string, groups: seq<seq<string>>, seen: set<string>)
    requires forall s :: s in seen <==> s in out || s == leaf
    ensures AddGroups(out, leaf, groups) == out + DedupedFrom(NamesBeside(leaf, groups), Itself(), seen)
    decreases |groups|
  {
    hide AddSpellings;
    if groups != [] {
      if leaf in groups[0] {
        SpellingsAreDeduped(out, leaf, groups[0], seen);
        var more := seen + set s | s in groups[0];
        var rest := NamesBeside(leaf, groups[1..]);
        DedupedConcat(groups[0], rest, Itself(), seen, more);
        GroupsAreDeduped(AddSpellings(out, leaf, groups[0]), leaf, groups[1..], more);
        assert out + DedupedFrom(groups[0], Itself(), seen) + DedupedFrom(rest, Itself(), more) ==
               out + (DedupedFrom(groups[0], Itself(), seen) + DedupedFrom(rest, Itself(), more));
      } else {
        assert [] + NamesBeside(leaf, groups[1..]) == NamesBeside(leaf, groups[1..]);
        GroupsAreDeduped(out, leaf, groups[1..], seen);
      }
    }
  }

  /** The synonyms come in table order: the names beside `leaf`, each at its first place. */
  lemma SynonymsInOrder(leaf: string, groups: seq<seq<string>>) returns (at: seq<nat>)
    ensures var names := NamesBeside(leaf, groups);
            && Picks(names, at, Synonyms(leaf, groups))
            && forall i | 0 <= i < |names| :: i in at <==> names[i] != leaf && forall j | 0 <= j < i :: names[j] != names[i]
  {
    hide DedupedFrom, Picks;
    var names := NamesBeside(leaf, groups);
    GroupsAreDeduped([], leaf, groups, {leaf});
    assert [] + DedupedFrom(names, Itself(), {leaf}) == Synonyms(leaf, groups);
    assert [] + DedupedFrom(names, Itself(), {leaf}) == DedupedFrom(names, Itself(), {leaf});
    at := DedupedInOrder(names, Itself(), {leaf});
    forall i | 0 <= i < |names| ensures i in at <==> names[i] != leaf && forall j | 0 <= j < i :: names[j] != names[i] {
      assert i in at <==> IsFirst(names, Itself(), {leaf}, i);
    }
  }

  function SpellingsOf(table: seq<Group>): (r: seq<seq<string>>)
    ensures |r| == |table| && forall i | 0 <= i < |table| :: r[i] == table[i].spellings
  {
    seq(|table|, i requires 0 <= i < |table| => table[i].spellings)
  }

  /** The groups in force stand in table order. */
  lemma {:induction false} GroupsInOrder(table: seq<Group>, command: Option<string>) returns (at: seq<nat>)
    ensures Picks(SpellingsOf(table), at, GroupsFor(table, command))
    ensures forall i | 0 <= i < |table| ::
              i in at <==> table[i].commands == [] || (command.Some? && command.value in table[i].commands)
  {
    if table == [] {
      at := [];
    } else {
      hide Picks, Shifted;
      var head := table[0].commands == [] || (command.Some? && command.value in table[0].commands);
      var later := GroupsInOrder(table[1..], command);
      at := (if head then [0] else []) + Shifted(later);
      assert SpellingsOf(table)[1..] == SpellingsOf(table[1..]);
      PicksCons(SpellingsOf(table), later, GroupsFor(table[1..], command), head);
      assert GroupsFor(table, command) == (if head then [SpellingsOf(table)[0]] else []) + GroupsFor(table[1..], command);
      forall i | 0 <= i < |table|
        ensures i in at <==> table[i].commands == [] || (command.Some? && command.value in table[i].commands)
      {
        ShiftedHas(later, if i > 0 then i - 1 else 0);
        assert i > 0 ==> table[1..][i - 1] == table[i];
      }
    }
  }

  function TextsOf<T>(items: seq<T>, key: T -> Option<string>): set<string> {
    if items == [] then {}
    else TextsOf(items[1..], key) + (match key(items[0]) case Some(text) => {text} case None => {})
  }

  function Keyless<T>(key: T -> Option<string>): T -> bool {
    x => key(x).None?
  }

  lemma UnseenTexts<E>(rest: set<E>, seen: set<E>, text: E)
    ensures text in seen ==> |rest + {text} - seen| == |rest - seen|
    ensures text !in seen ==> |rest + {text} - seen| == 1 + |rest - (seen + {text})|
  {
    if text in seen {
      assert rest + {text} - seen == rest - seen;
    } else {
      assert rest + {text} - seen == (rest - (seen + {text})) + {text};
    }
  }

  /** Deduplication keeps one element per distinct text and every element without one. */
  lemma {:induction false} DedupeCount<T>(items: seq<T>, key: T -> Option<string>, seen: set<string>)
    ensures |DedupedFrom(items, key, seen)| == |TextsOf(items, key) - seen| + Count(Keyless(key), items)
    decreases |items|
  {
    if items == [] {
      assert TextsOf(items, key) - seen == {};
    } else {
      var first, rest := key(items[0]), TextsOf(items[1..], key);
      if first.None? {
        assert TextsOf(items, key) == rest;
        DedupeCount(items[1..], key, seen);
      } else {
        UnseenTexts(rest, seen, first.value);
        DedupeCount(items[1..], key, if first.value in seen then seen else seen + {first.value});
      }
    }
  }

  lemma {:induction false} TextsOfMember<T>(items: seq<T>, key: T -> Option<string>, text: string)
    ensures text in TextsOf(items, key) <==> exists x :: x in items && key(x) == Some(text)
  {
    if items != [] {
      TextsOfMember(items[1..], key, text);
      assert items == [items[0]] + items[1..];
    }
  }

  /** How many elements survive deduplication does not depend on their order. */
  lemma DedupeCountPermuted<T>(a: seq<T>, b: seq<T>, key: T -> Option<string>)
    requires multiset(a) == multiset(b)
    ensures |DedupedFrom(a, key, {})| == |DedupedFrom(b, key, {})|
  {
    DedupeCount(a, key, {});
    DedupeCount(b, key, {});
    CountPermuted(Keyless(key), a, b);
    SameMembers(a, b);
    forall text ensures text in TextsOf(a, key) <==> text in TextsOf(b, key) {
      TextsOfMember(a, key, text);
      TextsOfMember(b, key, text);
    }
    assert TextsOf(a, key) - {} == TextsOf(b, key) - {};
  }

  // ----------------------------------------------------------------- limit

  function Limited(items: seq<Value>, max: nat): (r: seq<Value>)
    ensures r <= items
    ensures |r| == if 0 < max < |items| then max else |items|
  {
    if max > 0 && |items| > max then items[..max] else items
  }

  // --------------------------------------------------------------- project

  function AddProjected(out: seq<Member>, item: Value, keys: seq<string>, groups: seq<seq<string>>): seq<Member>
    decreases |keys|
  {
    if keys == [] then out
    else
      var found := Lookup(item, Split(keys[0]), groups);
      AddProjected(if found.Some? then Put(out, keys[0], found.value) else out, item, keys[1..], groups)
  }

  /** Rewrites an object to carry only `keys`; anything else passes through. */
  function ProjectOne(item: Value, keys: seq<string>, groups: seq<seq<string>>): Value {
    if keys == [] || !item.Obj? then item else Obj(AddProjected([], item, keys, groups))
  }

  function Projected(items: seq<Value>, keys: seq<string>, groups: seq<seq<string>>): (r: seq<Value>)
    ensures |r| == |items|
    ensures forall i | 0 <= i < |items| :: r[i] == ProjectOne(items[i], keys, groups)
  {
    if items == [] then [] else [ProjectOne(items[0], keys, groups)] + Projected(items[1..], keys, groups)
  }

  lemma {:induction false} AddProjectedGet(out: seq<Member>, item: Value, keys: seq<string>, groups: seq<seq<string>>, k: string)
    ensures Get(AddProjected(out, item, keys, groups), k) ==
            if k in keys && Lookup(item, Split(k), groups).Some? then Lookup(item, Split(k), groups)
            else Get(out, k)
    decreases |keys|
  {
    if keys != [] {
      var found := Lookup(item, Split(keys[0]), groups);
      var next := if found.Some? then Put(out, keys[0], found.value) else out;
      if found.Some? {
        GetPut(out, keys[0], found.value, k);
      }
      AddProjectedGet(next, item, keys[1..], groups, k);
      assert k in keys <==> k == keys[0] || k in keys[1..];
    }
  }

  lemma {:induction false} NothingProjected(out: seq<Member>, item: Value, keys: seq<string>, groups: seq<seq<string>>)
    requires forall k | k in keys :: Lookup(item, Split(k), groups).None?
    ensures AddProjected(out, item, keys, groups) == out
    decreases |keys|
  {
    if keys != [] {
      assert keys[0] in keys && forall k | k in keys[1..] :: k in keys;
      NothingProjected(out, item, keys[1..], groups);
    }
  }

  /** A projection answers exactly the requested keys, under their own spelling, and invents nothing. */
  lemma ProjectionPromise(item: Value, keys: seq<string>, groups: seq<seq<string>>, k: string)
    requires keys != [] && item.Obj?
    ensures ProjectOne(item, keys, groups).Obj?
    ensures Get(ProjectOne(item, keys, groups).members, k) ==
            if k in keys then Lookup(item, Split(k), groups) else None
  {
    AddProjectedGet([], item, keys, groups, k);
  }

  lemma {:induction false} ProjectedPrefix(items: seq<Value>, keys: seq<string>, groups: seq<seq<string>>, n: nat)
    requires n <= |items|
    ensures Projected(items[..n], keys, groups) == Projected(items, keys, groups)[..n]
  {
  }

  // -------------------------------------------------------------- truncate

  function Truncated(v: Value, max: nat): Value
    decreases v, 1
  {
    match v
    case Str(s) => if |s| > max then Str(s[..max]) else v
    case Arr(items) => Arr(TruncatedItems(items, max))
    case Obj(members) => Obj(TruncatedMembers(members, max))
    case _ => v
  }

  function TruncatedItems(items: seq<Value>, max: nat): (r: seq<Value>)
    ensures |r| == |items|
    ensures forall i | 0 <= i < |items| :: r[i] == Truncated(items[i], max)
    decreases items, 0
  {
    if items == [] then [] else [Truncated(items[0], max)] + TruncatedItems(items[1..], max)
  }

  function TruncatedMembers(ms: seq<Member>, max: nat): (r: seq<Member>)
    ensures |r| == |ms|
    ensures forall i | 0 <= i < |ms| :: r[i] == Member(ms[i].key, Truncated(ms[i].value, max))
    decreases ms, 0
  {
    if ms == [] then []
    else [Member(ms[0].key, Truncated(ms[0].value, max))] + TruncatedMembers(ms[1..], max)
  }

  /** Some string of `v`, at any depth, is longer than `max`. */
  predicate HasLong(v: Value, max: nat)
    decreases v
  {
    match v
    case Str(s) => |s| > max
    case Arr(items) => exists i | 0 <= i < |items| :: HasLong(items[i], max)
    case Obj(members) => exists i | 0 <= i < |members| :: HasLong(members[i].value, max)
    case _ => false
  }

  /** What stands at a place of `v`: the path counts elements or members. */
  function At(v: Value, place: seq<nat>): Option<Value>
    decreases |place|
  {
    if place == [] then Some(v)
    else
      match v
      case Arr(items) => if place[0] < |items| then At(items[place[0]], place[1..]) else None
      case Obj(members) => if place[0] < |members| then At(members[place[0]].value, place[1..]) else None
      case _ => None
  }

  /** A string keeps its first characters, containers their sizes and keys, everything else its value. */
  predicate IsCutOf(was: Value, now: Value, max: nat) {
    match was
    case Str(s) => now.Str? && now.s <= s && |now.s| == if |s| < max then |s| else max
    case Arr(items) => now.Arr? && |now.items| == |items|
    case Obj(members) =>
      now.Obj? && |now.members| == |members| && forall i | 0 <= i < |members| :: now.members[i].key == members[i].key
    case _ => now == was
  }

  /** At every place, and at no other: the string there cut to the limit, whatever else is there as it was. */
  lemma {:induction false} TruncatedAt(v: Value, max: nat, place: seq<nat>)
    ensures match (At(v, place), At(Truncated(v, max), place))
            case (Some(was), Some(now)) => IsCutOf(was, now, max)
            case (None, None) => true
            case _ => false
    decreases |place|
  {
    if place != [] {
      match v {
        case Arr(items) =>
          if place[0] < |items| {
            TruncatedAt(items[place[0]], max, place[1..]);
          }
        case Obj(members) =>
          if place[0] < |members| {
            TruncatedAt(members[place[0]].value, max, place[1..]);
          }
        case _ =>
      }
    }
  }

  /** `out` is the truncation of the first `i` items, and `hit` says whether one of them was too long. */
  predicate ItemsDone(items: seq<Value>, max: nat, i: nat, out: seq<Value>, hit: bool)
    requires i <= |items|
  {
    && |out| == i && (forall j | 0 <= j < i :: out[j] == Truncated(items[j], max))
    && (hit <==> exists j | 0 <= j < i :: HasLong(items[j], max))
  }

  lemma ItemsDoneNext(items: seq<Value>, max: nat, i: nat, out: seq<Value>, hit: bool)
    requires i < |items| && ItemsDone(items, max, i, out, hit)
    ensures ItemsDone(items, max, i + 1, out + [Truncated(items[i], max)], hit || HasLong(items[i], max))
  {
    hide Truncated, HasLong;
  }

  lemma ItemsDoneEnd(items: seq<Value>, max: nat, out: seq<Value>, hit: bool)
    requires ItemsDone(items, max, |items|, out, hit)
    ensures Arr(out) == Truncated(Arr(items), max) && (hit <==> HasLong(Arr(items), max))
  {
    assert out == TruncatedItems(items, max);
  }

  function ValuesOf(members: seq<Member>): (r: seq<Value>)
    ensures |r| == |members| && forall i | 0 <= i < |members| :: r[i] == members[i].value
  {
    seq(|members|, i requires 0 <= i < |members| => members[i].value)
  }

  lemma MembersDoneEnd(members: seq<Member>, max: nat, out: seq<Member>, hit: bool)
    requires ItemsDone(ValuesOf(members), max, |members|, ValuesOf(out), hit) && |out| == |members|
    requires forall i | 0 <= i < |members| :: out[i].key == members[i].key
    ensures Obj(out) == Truncated(Obj(members), max) && (hit <==> HasLong(Obj(members), max))
  {
    forall i | 0 <= i < |members| ensures out[i] == TruncatedMembers(members, max)[i] {
      assert ValuesOf(out)[i] == Truncated(ValuesOf(members)[i], max);
    }
    assert out == TruncatedMembers(members, max);
    assert (exists j | 0 <= j < |members| :: HasLong(ValuesOf(members)[j], max))
           <==> exists j | 0 <= j < |members| :: HasLong(members[j].value, max);
  }

  method TruncateItems(items: seq<Value>, max: nat) returns (r: seq<Value>, hit: bool)
    requires max > 0
    ensures ItemsDone(items, max, |items|, r, hit)
    decreases items, 0
  {
    r, hit := [], false;
    for i := 0 to |items|
      invariant ItemsDone(items, max, i, r, hit)
    {
      var item, cut := TruncateStrings(items[i], max);
      ItemsDoneNext(items, max, i, r, hit);
      hide ItemsDone;
      r, hit := r + [item], hit || cut;
    }
  }

  method TruncateMembers(members: seq<Member>, max: nat) returns (r: seq<Member>, hit: bool)
    requires max > 0
    ensures |r| == |members| && (forall i | 0 <= i < |members| :: r[i].key == members[i].key)
    ensures ItemsDone(ValuesOf(members), max, |members|, ValuesOf(r), hit)
    decreases members, 0
  {
    r, hit := [], false;
    ghost var values := ValuesOf(members);
    for i := 0 to |members|
      invariant |r| == i && forall j | 0 <= j < i :: r[j].key == members[j].key
      invariant ItemsDone(values, max, i, ValuesOf(r), hit)
    {
      var item, cut := TruncateStrings(members[i].value, max);
      ItemsDoneNext(values, max, i, ValuesOf(r), hit);
      assert ValuesOf(r + [Member(members[i].key, item)]) == ValuesOf(r) + [item];
      hide ItemsDone;
      r, hit := r + [Member(members[i].key, item)], hit || cut;
    }
  }

  /** Cuts every string of more than `max` characters, at any depth; zero leaves the value alone. */
  method TruncateStrings(v: Value, max: nat) returns (r: Value, hit: bool)
    ensures r == if max == 0 then v else Truncated(v, max)
    ensures hit <==> max > 0 && HasLong(v, max)
    decreases v, 1
  {
    r, hit := v, false;
    if max == 0 {
      return;
    }
    match v {
      case Str(s) =>
        if |s| > max {
          r, hit := Str(s[..max]), true;
        }
      case Arr(items) =>
        var out;
        out, hit := TruncateItems(items, max);
        ItemsDoneEnd(items, max, out, hit);
        r := Arr(out);
      case Obj(members) =>
        var out;
        out, hit := TruncateMembers(members, max);
        MembersDoneEnd(members, max, out, hit);
        r := Obj(out);
      case _ =>
    }
  }

  lemma ItemsChange(items: seq<Value>, max: nat)
    requires forall i | 0 <= i < |items| ::
               (Truncated(items[i], max) != items[i] <==> HasLong(items[i], max)) && !HasLong(Truncated(items[i], max), max)
    ensures TruncatedItems(items, max) != items <==> exists i | 0 <= i < |items| :: HasLong(items[i], max)
    ensures forall i | 0 <= i < |items| :: !HasLong(TruncatedItems(items, max)[i], max)
  {
    hide HasLong, Truncated, TruncatedItems;
  }

  lemma MembersChange(ms: seq<Member>, max: nat)
    requires forall i | 0 <= i < |ms| ::
               (Truncated(ms[i].value, max) != ms[i].value <==> HasLong(ms[i].value, max)) && !HasLong(Truncated(ms[i].value, max), max)
    ensures TruncatedMembers(ms, max) != ms <==> exists i | 0 <= i < |ms| :: HasLong(ms[i].value, max)
    ensures forall i | 0 <= i < |ms| :: !HasLong(TruncatedMembers(ms, max)[i].value, max)
  {
    hide HasLong, Truncated, TruncatedMembers;
  }

  /** The flag is raised exactly when something changed, and afterwards nothing is too long. */
  lemma {:induction false} TruncationPromise(v: Value, max: nat)
    ensures Truncated(v, max) != v <==> HasLong(v, max)
    ensures !HasLong(Truncated(v, max), max)
    decreases v
  {
    hide TruncatedItems, TruncatedMembers;
    match v {
      case Arr(items) =>
        forall i | 0 <= i < |items|
          ensures (Truncated(items[i], max) != items[i] <==> HasLong(items[i], max)) && !HasLong(Truncated(items[i], max), max)
        {
          TruncationPromise(items[i], max);
        }
        ItemsChange(items, max);
        assert Truncated(v, max) == Arr(TruncatedItems(items, max));
      case Obj(members) =>
        forall i | 0 <= i < |members|
          ensures (Truncated(members[i].value, max) != members[i].value <==> HasLong(members[i].value, max))
                  && !HasLong(Truncated(members[i].value, max), max)
        {
          TruncationPromise(members[i].value, max);
        }
        MembersChange(members, max);
        assert Truncated(v, max) == Obj(TruncatedMembers(members, max));
      case _ =>
    }
  }
}
