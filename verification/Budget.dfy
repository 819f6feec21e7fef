/**
 The byte ceiling of one envelope (`--max-output-bytes`).

 `Enforce` is the one-pass prefix scan of the program; `Enforced` is the naive
 reading of the same request, which re-serializes every prefix from the longest
 down. The lemmas state what the ceiling promises about the naive form.
 */
module Budget {
  import opened Wrappers
  import opened Json

  datatype Outcome = Outcome(truncated: bool, dropped: nat, stub: bool)

  const UNTOUCHED := Outcome(false, 0, false)

  // ------------------------------------------------------ the result array

  /** The array addressed by `key`; `None` selects the value itself. */
  function ArrayAt(v: Value, key: Option<string>): Option<seq<Value>> {
    match key
    case None => if v.Arr? then Some(v.items) else None
    case Some(k) =>
      if v.Obj? && Has(v.members, k) && v.members[Find(v.members, k)].value.Arr? then
        Some(v.members[Find(v.members, k)].value.items)
      else None
  }

  /** `put_array`: replace the addressed array, or leave a value without one alone. */
  function WithArray(v: Value, key: Option<string>, items: seq<Value>): Value {
    if ArrayAt(v, key).None? then v
    else
      match key
      case None => Arr(items)
      case Some(k) => Obj(v.members[Find(v.members, k) := Member(k, Arr(items))])
  }

  function ItemsAt(v: Value, key: Option<string>): seq<Value> {
    match ArrayAt(v, key) case Some(items) => items case None => []
  }

  // -------------------------------------------------- the secondary arrays

  predicate IsSecondary(m: Member, key: Option<string>) {
    m.value.Arr? && Some(m.key) != key
  }

  function DrainMembers(ms: seq<Member>, key: Option<string>): (r: seq<Member>)
    ensures |r| == |ms|
    ensures forall i | 0 <= i < |ms| ::
              r[i] == if IsSecondary(ms[i], key) then Member(ms[i].key, Arr([])) else ms[i]
  {
    if ms == [] then []
    else
      [if IsSecondary(ms[0], key) then Member(ms[0].key, Arr([])) else ms[0]]
      + DrainMembers(ms[1..], key)
  }

  function Drain(v: Value, key: Option<string>): Value {
    if v.Obj? then Obj(DrainMembers(v.members, key)) else v
  }

  /** Elements held by the secondary arrays of `ms`. */
  function SecondaryCount(ms: seq<Member>, key: Option<string>): nat {
    if ms == [] then 0
    else
      (if IsSecondary(ms[0], key) then |ms[0].value.items| else 0)
      + SecondaryCount(ms[1..], key)
  }

  function Secondary(v: Value, key: Option<string>): nat {
    if v.Obj? then SecondaryCount(v.members, key) else 0
  }

  // ------------------------------------------------------- the naive form

  /** The first `k` elements, re-serialized in `base`, fit in `max` bytes. */
  predicate PrefixFits(base: Value, key: Option<string>, items: seq<Value>, max: nat, k: nat)
    requires k <= |items|
  {
    EncodedLen(WithArray(base, key, items[..k])) <= max
  }

  /** Re-serializes the prefixes of `items` from `k` down and stops at the first that fits. */
  function LongestPrefix(base: Value, key: Option<string>, items: seq<Value>, max: nat, k: nat): (best: nat)
    requires k <= |items|
    ensures best <= k
    ensures best > 0 ==> PrefixFits(base, key, items, max, best)
    ensures forall j | best < j <= k :: !PrefixFits(base, key, items, max, j)
  {
    if k == 0 || PrefixFits(base, key, items, max, k) then k
    else LongestPrefix(base, key, items, max, k - 1)
  }

  function Stub(max: nat): Value {
    Obj([Member("max_output_bytes", Int(max)),
         Member("truncated", Bool(true)),
         Member("truncated_reason", Str("max_output_bytes"))])
  }

  /** The envelope the prefixes are measured in: primary emptied, secondaries only if they must go. */
  function Skeleton(v: Value, key: Option<string>, max: nat): Value {
    var emptied := WithArray(v, key, []);
    if EncodedLen(emptied) <= max then emptied else Drain(emptied, key)
  }

  function SkeletonDropped(v: Value, key: Option<string>, max: nat): nat {
    if EncodedLen(WithArray(v, key, [])) <= max then 0 else Secondary(v, key)
  }

  function Fitted(base: Value, key: Option<string>, items: seq<Value>, best: nat, gone: nat): (Value, Outcome)
    requires best <= |items|
  {
    (WithArray(base, key, items[..best]), Outcome(true, |items| - best + gone, false))
  }

  function Stubbed(items: seq<Value>, gone: nat, max: nat): (Value, Outcome) {
    (Stub(max), Outcome(true, |items| + gone, true))
  }

  /** What is left of `items` in `base`, or the stub when `base` alone is too long. */
  function Cut(base: Value, key: Option<string>, items: seq<Value>, gone: nat, max: nat): (Value, Outcome) {
    if EncodedLen(base) <= max then
      Fitted(base, key, items, LongestPrefix(base, key, items, max, |items|), gone)
    else
      Stubbed(items, gone, max)
  }

  function Enforced(v: Value, key: Option<string>, max: nat): (Value, Outcome) {
    if max == 0 || EncodedLen(v) <= max then (v, UNTOUCHED)
    else Cut(Skeleton(v, key, max), key, ItemsAt(v, key), SkeletonDropped(v, key, max), max)
  }

  // ------------------------------------------------------------- arithmetic

  lemma WithArrayAddress(v: Value, key: Option<string>, items: seq<Value>)
    requires ArrayAt(v, key).Some?
    ensures ArrayAt(WithArray(v, key, items), key) == Some(items)
    ensures forall more :: WithArray(WithArray(v, key, items), key, more) == WithArray(v, key, more)
  {
    if key.Some? {
      var i := Find(v.members, key.value);
      FindSameKeys(v.members, v.members[i := Member(key.value, Arr(items))], key.value);
    }
  }

  lemma WithSameArray(v: Value, key: Option<string>)
    ensures WithArray(v, key, ItemsAt(v, key)) == v
  {
  }

  /** An array costs exactly the text of its elements on top of the emptied envelope. */
  lemma WithArrayLen(v: Value, key: Option<string>, items: seq<Value>)
    requires ArrayAt(v, key).Some?
    ensures EncodedLen(WithArray(v, key, items)) ==
            EncodedLen(WithArray(v, key, [])) + ItemsLen(items)
  {
    ArrLen(items);
    ArrLen([]);
    if key.Some? {
      var i := Find(v.members, key.value);
      MembersLenReplace(v.members, i, Arr(items));
      MembersLenReplace(v.members, i, Arr([]));
      ObjLen(v.members[i := Member(key.value, Arr(items))]);
      ObjLen(v.members[i := Member(key.value, Arr([]))]);
    }
  }

  lemma DrainAddress(v: Value, key: Option<string>)
    ensures ArrayAt(Drain(v, key), key) == ArrayAt(v, key)
    ensures v.Obj? ==> forall k :: Find(Drain(v, key).members, k) == Find(v.members, k)
  {
    if v.Obj? {
      forall k ensures Find(Drain(v, key).members, k) == Find(v.members, k) {
        FindSameKeys(v.members, Drain(v, key).members, k);
      }
    }
  }

  /** The address survives whatever the skeleton sacrificed. */
  lemma SkeletonAddress(v: Value, key: Option<string>, max: nat)
    ensures ArrayAt(v, key).None? ==> ArrayAt(Skeleton(v, key, max), key).None?
    ensures ArrayAt(v, key).Some? ==> ArrayAt(Skeleton(v, key, max), key) == Some([])
  {
    var emptied := WithArray(v, key, []);
    if ArrayAt(v, key).Some? {
      WithArrayAddress(v, key, []);
    }
    DrainAddress(emptied, key);
  }

  lemma PrefixLen(base: Value, key: Option<string>, items: seq<Value>, k: nat)
    requires ArrayAt(base, key).Some? && ItemsAt(base, key) == []
    requires k <= |items|
    ensures EncodedLen(WithArray(base, key, items[..k])) == EncodedLen(base) + ItemsLen(items[..k])
  {
    WithArrayLen(base, key, items[..k]);
    WithSameArray(base, key);
  }

  lemma PrefixGrows(items: seq<Value>, j: nat, k: nat)
    requires j <= k <= |items|
    ensures ItemsLen(items[..j]) <= ItemsLen(items[..k])
  {
    assert items[..k] == items[..j] + items[j..k];
    ItemsLenConcat(items[..j], items[j..k]);
  }

  /** One more element costs its own text and a separator unless it is the first. */
  lemma NextElement(items: seq<Value>, k: nat)
    requires k < |items|
    ensures ItemsLen(items[..k + 1]) ==
            ItemsLen(items[..k]) + EncodedLen(items[k]) + (if k > 0 then 1 else 0)
  {
    assert items[..k + 1] == items[..k] + [items[k]];
    ItemsLenConcat(items[..k], [items[k]]);
    OneItemLen(items[k]);
  }

  // ---------------------------------------------------- the program's form

  /** Empties every secondary array, counting what went. */
  method DrainSecondaryArrays(v: Value, key: Option<string>) returns (r: Value, dropped: nat)
    ensures r == Drain(v, key)
    ensures dropped == Secondary(v, key)
  {
    r, dropped := v, 0;
    if v.Obj? {
      var ms := v.members;
      for i := 0 to |v.members|
        invariant |ms| == |v.members|
        invariant forall j | 0 <= j < i :: ms[j] == DrainMembers(v.members, key)[j]
        invariant forall j | i <= j < |ms| :: ms[j] == v.members[j]
        invariant dropped + SecondaryCount(v.members[i..], key) == SecondaryCount(v.members, key)
      {
        if IsSecondary(ms[i], key) {
          dropped := dropped + |ms[i].value.items|;
          ms := ms[i := Member(ms[i].key, Arr([]))];
        }
      }
      r := Obj(ms);
    }
  }

  /** The longest prefix whose running cost stays within `max`, in one pass. */
  method ScanPrefix(base: Value, key: Option<string>, items: seq<Value>, max: nat) returns (best: nat)
    requires items != [] ==> ArrayAt(base, key) == Some([])
    ensures best <= |items|
    ensures EncodedLen(base) <= max ==> best == LongestPrefix(base, key, items, max, |items|)
    ensures EncodedLen(base) > max ==> best == 0
  {
    var skeleton := EncodedLen(base);
    var used := 0;
    best := 0;
    while best < |items|
      invariant best <= |items|
      invariant used == ItemsLen(items[..best])
      invariant best > 0 ==> skeleton + used <= max
    {
      var separator := if best > 0 then 1 else 0;
      var cost := EncodedLen(items[best]) + separator;
      NextElement(items, best);
      if skeleton + used + cost > max {
        break;
      }
      used := used + cost;
      best := best + 1;
    }
    if skeleton <= max {
      LongestIs(base, key, items, max, best);
    }
  }

  lemma LongestIs(base: Value, key: Option<string>, items: seq<Value>, max: nat, best: nat)
    requires best <= |items|
    requires items != [] ==> ArrayAt(base, key) == Some([])
    requires best > 0 ==> EncodedLen(base) + ItemsLen(items[..best]) <= max
    requires best < |items| ==> EncodedLen(base) + ItemsLen(items[..best + 1]) > max
    ensures best == LongestPrefix(base, key, items, max, |items|)
  {
    var k := LongestPrefix(base, key, items, max, |items|);
    if items != [] {
      PrefixLen(base, key, items, best);
      PrefixLen(base, key, items, k);
      assert best > 0 ==> PrefixFits(base, key, items, max, best);
      if best < k {
        PrefixGrows(items, best + 1, k);
      }
    }
  }

  /** The names of the arrays a drain would empty. */
  method SecondaryArrayKeys(v: Value, key: Option<string>) returns (keys: seq<string>)
    ensures forall k :: k in keys <==> v.Obj? && exists m :: m in v.members && IsSecondary(m, key) && m.key == k
    ensures keys == [] ==> Drain(v, key) == v && Secondary(v, key) == 0
  {
    keys := [];
    if v.Obj? {
      for i := 0 to |v.members|
        invariant forall k :: k in keys <==> exists j :: 0 <= j < i && IsSecondary(v.members[j], key) && v.members[j].key == k
      {
        if IsSecondary(v.members[i], key) {
          keys := keys + [v.members[i].key];
        }
      }
      if keys == [] {
        assert forall j | 0 <= j < |v.members| :: IsSecondary(v.members[j], key) ==> v.members[j].key in keys;
        NoSecondary(v.members, key);
      }
    }
  }

  lemma {:induction false} NoSecondary(ms: seq<Member>, key: Option<string>)
    requires forall j | 0 <= j < |ms| :: !IsSecondary(ms[j], key)
    ensures DrainMembers(ms, key) == ms && SecondaryCount(ms, key) == 0
  {
    if ms != [] {
      NoSecondary(ms[1..], key);
    }
  }

  /** Lifts the result array out, and empties the secondary arrays when that alone is not enough. */
  method TakeSkeleton(value: Value, key: Option<string>, max: nat) returns (r: Value, gone: nat)
    ensures r == Skeleton(value, key, max)
    ensures gone == SkeletonDropped(value, key, max)
  {
    r, gone := WithArray(value, key, []), 0;
    SecondaryUnmoved(value, key);
    var secondary := SecondaryArrayKeys(r, key);
    if secondary != [] && EncodedLen(r) > max {
      r, gone := DrainSecondaryArrays(r, key);
    }
  }

  method CutToFit(base: Value, key: Option<string>, items: seq<Value>, gone: nat, max: nat) returns (out: (Value, Outcome))
    requires items != [] ==> ArrayAt(base, key) == Some([])
    ensures out == Cut(base, key, items, gone, max)
  {
    var best := ScanPrefix(base, key, items, max);
    if best > 0 {
      return Fitted(base, key, items, best, gone);
    }
    if EncodedLen(base) <= max {
      return Fitted(base, key, items, 0, gone);
    }
    return Stubbed(items, gone, max);
  }

  /** The one-pass ceiling answers exactly what re-serializing every prefix would. */
  method Enforce(value: Value, key: Option<string>, max: nat) returns (r: Value, o: Outcome)
    ensures (r, o) == Enforced(value, key, max)
  {
    if max == 0 || EncodedLen(value) <= max {
      return value, UNTOUCHED;
    }
    var items := ItemsAt(value, key);
    var base, gone := TakeSkeleton(value, key, max);
    SkeletonAddress(value, key, max);
    var out := CutToFit(base, key, items, gone, max);
    return out.0, out.1;
  }

  lemma SkeletonIsItsOwnEmptyPrefix(v: Value, key: Option<string>, max: nat)
    ensures WithArray(Skeleton(v, key, max), key, []) == Skeleton(v, key, max)
  {
    SkeletonAddress(v, key, max);
    WithSameArray(Skeleton(v, key, max), key);
  }

  lemma SecondaryUnmoved(v: Value, key: Option<string>)
    ensures Secondary(WithArray(v, key, []), key) == Secondary(v, key)
  {
    if key.Some? && ArrayAt(v, key).Some? {
      SecondaryReplace(v.members, key, Find(v.members, key.value), []);
    }
  }

  lemma {:induction false} SecondaryReplace(ms: seq<Member>, key: Option<string>, i: nat, items: seq<Value>)
    requires i < |ms| && Some(ms[i].key) == key
    ensures SecondaryCount(ms[i := Member(ms[i].key, Arr(items))], key) == SecondaryCount(ms, key)
  {
    var r := ms[i := Member(ms[i].key, Arr(items))];
    if i == 0 {
      assert r[1..] == ms[1..];
    } else {
      assert r[1..] == ms[1..][i - 1 := Member(ms[i].key, Arr(items))];
      SecondaryReplace(ms[1..], key, i - 1, items);
    }
  }

  // ---------------------------------------------------------- the promises

  /** Elements of the arrays the ceiling may shorten. */
  function Elements(v: Value, key: Option<string>): nat {
    |ItemsAt(v, key)| + Secondary(v, key)
  }

  /** A result that is not the stub fits, and nothing was cut unless the value did not. */
  lemma FitsOrStub(v: Value, key: Option<string>, max: nat)
    requires max > 0
    ensures var (r, o) := Enforced(v, key, max);
            && (!o.stub ==> EncodedLen(r) <= max)
            && (!o.truncated <==> EncodedLen(v) <= max)
            && (!o.truncated ==> r == v && o == UNTOUCHED)
  {
    if EncodedLen(v) > max && EncodedLen(Skeleton(v, key, max)) <= max {
      SkeletonIsItsOwnEmptyPrefix(v, key, max);
    }
  }

  /** The surviving elements are the longest prefix any re-serialization would have admitted. */
  lemma KeepsLongestPrefix(v: Value, key: Option<string>, max: nat)
    requires Enforced(v, key, max).1.truncated && !Enforced(v, key, max).1.stub
    ensures var r := Enforced(v, key, max).0;
            var items := ItemsAt(v, key);
            && ItemsAt(r, key) <= items
            && r == WithArray(Skeleton(v, key, max), key, ItemsAt(r, key))
            && forall k | |ItemsAt(r, key)| < k <= |items| :: !PrefixFits(r, key, items, max, k)
  {
    var (r, o) := Enforced(v, key, max);
    var items := ItemsAt(v, key);
    var base := Skeleton(v, key, max);
    var best := LongestPrefix(base, key, items, max, |items|);
    SkeletonAddress(v, key, max);
    if ArrayAt(v, key).Some? {
      WithArrayAddress(base, key, items[..best]);
      assert forall k | 0 <= k <= |items| ::
          PrefixFits(r, key, items, max, k) == PrefixFits(base, key, items, max, k);
    }
  }

  /** Secondary arrays are touched only when emptying the primary one is not enough. */
  lemma SecondariesGoLast(v: Value, key: Option<string>, max: nat)
    requires EncodedLen(WithArray(v, key, [])) <= max
    ensures var (r, o) := Enforced(v, key, max);
            && !o.stub
            && r == WithArray(v, key, ItemsAt(r, key))
            && o.dropped == |ItemsAt(v, key)| - |ItemsAt(r, key)|
  {
    if max > 0 && EncodedLen(v) > max {
      var (r, o) := Enforced(v, key, max);
      var items := ItemsAt(v, key);
      if ArrayAt(v, key).Some? {
        var best := LongestPrefix(Skeleton(v, key, max), key, items, max, |items|);
        WithArrayAddress(v, key, []);
        WithArrayAddress(v, key, items[..best]);
      }
    } else {
      WithSameArray(v, key);
    }
  }

  /** The stub is the last resort: only when the value, the value without its elements, and that without any other
      array's elements are all over the ceiling. Whatever is drained is drained whole. */
  lemma StubIsLastResort(v: Value, key: Option<string>, max: nat)
    requires max > 0
    ensures var (r, o) := Enforced(v, key, max);
            var emptied := WithArray(v, key, []);
            && (o.stub <==> EncodedLen(v) > max && EncodedLen(emptied) > max && EncodedLen(Drain(emptied, key)) > max)
            && (!o.stub && EncodedLen(v) > max && EncodedLen(emptied) > max ==>
                  r == WithArray(Drain(emptied, key), key, ItemsAt(r, key)))
  {
    hide EncodedLen, WithArray, Drain, LongestPrefix;
    if EncodedLen(v) > max && !Enforced(v, key, max).1.stub {
      KeepsLongestPrefix(v, key, max);
    }
  }

  lemma {:induction false} DrainedHoldsNothing(ms: seq<Member>, key: Option<string>)
    ensures SecondaryCount(DrainMembers(ms, key), key) == 0
  {
    if ms != [] {
      DrainedHoldsNothing(ms[1..], key);
    }
  }

  lemma SecondaryWithArray(v: Value, key: Option<string>, items: seq<Value>)
    ensures Secondary(WithArray(v, key, items), key) == Secondary(v, key)
  {
    if key.Some? && ArrayAt(v, key).Some? {
      SecondaryReplace(v.members, key, Find(v.members, key.value), items);
    }
  }

  lemma SkeletonSecondary(v: Value, key: Option<string>, max: nat)
    ensures Secondary(Skeleton(v, key, max), key) + SkeletonDropped(v, key, max) == Secondary(v, key)
  {
    var emptied := WithArray(v, key, []);
    SecondaryWithArray(v, key, []);
    if emptied.Obj? {
      DrainedHoldsNothing(emptied.members, key);
    }
  }

  /** Conservation: what was reported dropped is exactly what is missing. */
  lemma DroppedIsWhatIsMissing(v: Value, key: Option<string>, max: nat)
    ensures var (r, o) := Enforced(v, key, max);
            if o.stub then o.dropped == Elements(v, key)
            else Elements(r, key) + o.dropped == Elements(v, key)
  {
    if max > 0 && EncodedLen(v) > max {
      var items := ItemsAt(v, key);
      var base := Skeleton(v, key, max);
      SkeletonSecondary(v, key, max);
      SkeletonAddress(v, key, max);
      if EncodedLen(base) <= max {
        var best := LongestPrefix(base, key, items, max, |items|);
        SecondaryWithArray(base, key, items[..best]);
        if ArrayAt(v, key).Some? {
          WithArrayAddress(base, key, items[..best]);
        }
      } else if EncodedLen(WithArray(v, key, [])) <= max {
        assert false;
      }
    }
  }

  lemma {:induction false} DrainNothing(ms: seq<Member>, key: Option<string>)
    requires SecondaryCount(ms, key) == 0
    ensures DrainMembers(ms, key) == ms
  {
    if ms != [] {
      DrainNothing(ms[1..], key);
    }
  }

  /** Truncation is never silent: an envelope that was cut reports at least one element gone. */
  lemma CutIsReported(v: Value, key: Option<string>, max: nat)
    requires Enforced(v, key, max).1.truncated && !Enforced(v, key, max).1.stub
    ensures Enforced(v, key, max).1.dropped > 0
  {
    FitsOrStub(v, key, max);
    if Elements(Enforced(v, key, max).0, key) == Elements(v, key) {
      UncutIsUnchanged(v, key, max);
    }
    DroppedIsWhatIsMissing(v, key, max);
  }

  lemma UncutIsUnchanged(v: Value, key: Option<string>, max: nat)
    requires Enforced(v, key, max).1.truncated && !Enforced(v, key, max).1.stub
    requires Elements(Enforced(v, key, max).0, key) == Elements(v, key)
    ensures Enforced(v, key, max).0 == v
  {
    var r := Enforced(v, key, max).0;
    var emptied := WithArray(v, key, []);
    KeepsLongestPrefix(v, key, max);
    SkeletonSecondary(v, key, max);
    SecondaryWithArray(Skeleton(v, key, max), key, ItemsAt(r, key));
    assert ItemsAt(r, key) == ItemsAt(v, key);
    assert Skeleton(v, key, max) == emptied by {
      SecondaryWithArray(v, key, []);
      if emptied.Obj? && Secondary(v, key) == 0 {
        DrainNothing(emptied.members, key);
      }
    }
    WithSameArray(v, key);
    if ArrayAt(v, key).Some? {
      WithArrayAddress(v, key, []);
    }
  }

  lemma StubHasNoArrays(max: nat, key: Option<string>)
    ensures ArrayAt(Stub(max), key).None?
    ensures Drain(Stub(max), key) == Stub(max)
  {
    assert forall m | m in Stub(max).members :: !m.value.Arr?;
    assert DrainMembers(Stub(max).members, key) == Stub(max).members;
  }

  /** Enforcing the same ceiling again changes nothing, stub or not. */
  lemma Idempotent(v: Value, key: Option<string>, max: nat)
    ensures var (r, o) := Enforced(v, key, max);
            && Enforced(r, key, max).0 == r
            && (!o.stub ==> Enforced(r, key, max).1 == UNTOUCHED)
  {
    if max > 0 {
      FitsOrStub(v, key, max);
      if Enforced(v, key, max).1.stub {
        StubHasNoArrays(max, key);
      }
    }
  }

  /** Members that are not arrays come through unchanged, under the same keys. */
  lemma ScalarsSurvive(v: Value, key: Option<string>, max: nat, k: string)
    requires v.Obj? && !Enforced(v, key, max).1.stub
    requires Get(v.members, k).None? || !Get(v.members, k).value.Arr?
    ensures Enforced(v, key, max).0.Obj?
    ensures Get(Enforced(v, key, max).0.members, k) == Get(v.members, k)
  {
    if max > 0 && EncodedLen(v) > max {
      var emptied := WithArray(v, key, []);
      var base := Skeleton(v, key, max);
      OtherMembersSurvive(v, key, [], k);
      DrainAddress(emptied, key);
      OtherMembersSurvive(base, key, ItemsAt(v, key)[..LongestPrefix(base, key, ItemsAt(v, key), max, |ItemsAt(v, key)|)], k);
    }
  }

  lemma OtherMembersSurvive(v: Value, key: Option<string>, items: seq<Value>, k: string)
    requires v.Obj?
    requires Get(v.members, k).None? || !Get(v.members, k).value.Arr? || Some(k) != key
    ensures WithArray(v, key, items).Obj?
    ensures Get(WithArray(v, key, items).members, k) == Get(v.members, k)
  {
    if ArrayAt(v, key).Some? {
      FindSameKeys(v.members, WithArray(v, key, items).members, k);
    }
  }
}
