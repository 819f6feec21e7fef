/**
 When the headroom reserved for the cut record is enough.

 The program reserves room for `dropped` at the width of `input_count`, but the
 ceiling also drains secondary arrays and counts what they held into `dropped`.
 `CeilingHonouredIff` gives the exact condition, on the payload alone, under
 which no ceiling is ever exceeded.
 */
module Reservation {
  import opened Wrappers
  import opened Json
  import opened Budget
  import opened Finalize

  /** An envelope and its record as the shaping stages hand them over. */
  predicate Ready(payload: Value, key: Option<string>, meta: seq<Member>) {
    && payload.Obj? && FlagIsBoolean(payload)
    && Get(payload.members, META_KEY) == Some(Obj(meta))
    && Get(meta, "output_truncated").None? && Get(meta, "dropped").None? && Get(meta, "max_output_bytes").None?
    && Get(meta, "input_count") == Some(Int(WidestDropped(meta)))
    && (ArrayAt(payload, key).Some? ==>
          && Get(meta, "output_count") == Some(Int(|ItemsAt(payload, key)|))
          && |ItemsAt(payload, key)| <= WidestDropped(meta))
  }

  /** The primary array cut to `j` elements with every secondary array drained. */
  function DrainedTo(payload: Value, key: Option<string>, j: nat): Value
    requires j <= |ItemsAt(payload, key)|
  {
    WithArray(Drain(WithArray(payload, key, []), key), key, ItemsAt(payload, key)[..j])
  }

  /** Some ceiling admits that envelope exactly, and only by draining. */
  predicate Drainable(payload: Value, key: Option<string>, j: nat)
    requires j <= |ItemsAt(payload, key)|
  {
    EncodedLen(DrainedTo(payload, key, j)) < EncodedLen(WithArray(payload, key, []))
  }

  /** Bytes missing from the reservation when the ceiling drains and keeps `j` elements. */
  function Deficit(payload: Value, key: Option<string>, meta: seq<Member>, j: nat): int
    requires j <= |ItemsAt(payload, key)|
  {
    |Digits(Elements(payload, key) - j)| - |Digits(WidestDropped(meta))| - FlagSaving(payload)
    - (if ArrayAt(payload, key).Some? then |Digits(|ItemsAt(payload, key)|)| - |Digits(j)| else 0)
  }

  predicate Covered(payload: Value, key: Option<string>, meta: seq<Member>) {
    forall j | 0 <= j <= |ItemsAt(payload, key)| :: Drainable(payload, key, j) ==> Deficit(payload, key, meta, j) <= 0
  }

  /** The result is the stub or within the ceiling. */
  predicate HonouredAt(payload: Value, key: Option<string>, meta: seq<Member>, max: nat) {
    Enforced(payload, key, EffectiveMax(payload, meta, max)).1.stub
    || EncodedLen(WithCeiling(payload, key, meta, max)) <= max
  }

  // ------------------------------------------------------ widths of numbers

  lemma {:induction false} DigitsStep(m: nat, d: nat)
    requires d <= 10
    ensures |Digits(m + d)| <= |Digits(m)| + 1
  {
    if m >= 10 {
      DigitsStep(m / 10, (m + d) / 10 - m / 10);
    }
  }

  /** Every difference between a number and its own width is reached. */
  lemma {:induction false} WidthReaches(t: nat) returns (m: nat)
    ensures m > 0 && m - |Digits(m)| == t
  {
    if t == 0 {
      m := 1;
    } else {
      m := WidthReaches(t - 1);
      DigitsMonotone(m, m + 1);
      DigitsMonotone(m + 1, m + 2);
      DigitsStep(m, 2);
      m := if |Digits(m + 1)| == |Digits(m)| then m + 1 else m + 2;
    }
  }

  // ------------------------------------------------------ the reservation

  /** The record grows by the members of the cut, and by the width of the ceiling it names. */
  lemma RecordGrows(meta: seq<Member>, d: nat, max: nat)
    requires Get(meta, "output_truncated").None? && Get(meta, "dropped").None? && Get(meta, "max_output_bytes").None?
    ensures MembersLen(RecordCut(meta, d, max)) - |Digits(max)| == MembersLen(RecordCut(meta, d, 1)) - 1
    ensures MembersLen(RecordCut(meta, d, max)) > MembersLen(meta)
  {
    var m1 := Put(meta, "output_truncated", Bool(true));
    var m2 := Put(m1, "dropped", Int(d));
    GetPut(meta, "output_truncated", Bool(true), "dropped");
    GetPut(meta, "output_truncated", Bool(true), "max_output_bytes");
    GetPut(m1, "dropped", Int(d), "max_output_bytes");
    PutLen(meta, "output_truncated", Bool(true));
    PutLen(m1, "dropped", Int(d));
    PutLen(m2, "max_output_bytes", Int(max));
    PutLen(m2, "max_output_bytes", Int(1));
    NatLen(max);
    NatLen(1);
  }

  lemma HeadroomExact(payload: Value, key: Option<string>, meta: seq<Member>, max: nat)
    requires Ready(payload, key, meta) && max > 0
    ensures Headroom(payload, meta, max) ==
            MembersLen(RecordCut(meta, WidestDropped(meta), max)) - MembersLen(meta) + FlagCost(payload)
    ensures Headroom(payload, meta, max) == Headroom(payload, meta, 1) - 1 + |Digits(max)|
  {
    RecordGrows(meta, WidestDropped(meta), max);
    RecordGrows(meta, WidestDropped(meta), 1);
    ObjLen(meta);
    ObjLen(RecordCut(meta, WidestDropped(meta), max));
    ObjLen(RecordCut(meta, WidestDropped(meta), 1));
  }

  /** Every positive length is the effective ceiling of some requested ceiling. */
  lemma CeilingFor(payload: Value, key: Option<string>, meta: seq<Member>, target: nat) returns (max: nat)
    requires Ready(payload, key, meta) && target > 0
    ensures max > 0 && EffectiveMax(payload, meta, max) == target
    ensures Headroom(payload, meta, max) + target == max
  {
    HeadroomExact(payload, key, meta, 1);
    max := WidthReaches(target + (Headroom(payload, meta, 1) - 1));
    HeadroomExact(payload, key, meta, max);
  }

  lemma CutCountSaving(payload: Value, key: Option<string>, meta: seq<Member>, cut: Value)
    requires Ready(payload, key, meta)
    requires ArrayAt(cut, key).Some? <==> ArrayAt(payload, key).Some?
    ensures CountSaving(meta, key, cut) ==
            if ArrayAt(payload, key).Some? then |Digits(|ItemsAt(payload, key)|)| - |Digits(|ItemsAt(cut, key)|)| else 0
  {
  }

  /** A cut never loses the address of the array it shortened. */
  lemma CutAddress(payload: Value, key: Option<string>, eff: nat)
    requires Enforced(payload, key, eff).1.truncated && !Enforced(payload, key, eff).1.stub
    ensures ArrayAt(Enforced(payload, key, eff).0, key).Some? <==> ArrayAt(payload, key).Some?
  {
    KeepsLongestPrefix(payload, key, eff);
    SkeletonAddress(payload, key, eff);
    if ArrayAt(payload, key).Some? {
      WithArrayAddress(Skeleton(payload, key, eff), key, ItemsAt(Enforced(payload, key, eff).0, key));
    }
  }

  /** The emitted length is the requested ceiling, less the slack, plus whatever the reservation missed. */
  lemma EmittedLength(payload: Value, key: Option<string>, meta: seq<Member>, max: nat)
    requires Ready(payload, key, meta) && max > 0
    requires var o := Enforced(payload, key, EffectiveMax(payload, meta, max)).1; o.truncated && !o.stub
    ensures var eff := EffectiveMax(payload, meta, max);
            var (cut, o) := Enforced(payload, key, eff);
            && EncodedLen(cut) <= eff
            && EncodedLen(WithCeiling(payload, key, meta, max)) ==
               max - (eff - EncodedLen(cut)) + |Digits(o.dropped)| - |Digits(WidestDropped(meta))|
               - CountSaving(meta, key, cut) - FlagSaving(payload)
  {
    var eff := EffectiveMax(payload, meta, max);
    CutLength(payload, key, meta, max);
    HeadroomExact(payload, key, meta, max);
    ReservationLeftRoom(payload, key, meta, max);
    FitsOrStub(payload, key, eff);
  }

  // --------------------------------------------------------- both directions

  lemma EmptiedIsShorter(payload: Value, key: Option<string>)
    ensures EncodedLen(WithArray(payload, key, [])) <= EncodedLen(payload)
  {
    WithSameArray(payload, key);
    if ArrayAt(payload, key).Some? {
      WithArrayLen(payload, key, ItemsAt(payload, key));
    }
  }

  /** The length of a prefix in its own envelope is a ceiling that admits that prefix and no longer one. */
  lemma TightPrefix(base: Value, key: Option<string>, items: seq<Value>, j: nat)
    requires j <= |items| && ItemsAt(base, key) == []
    requires items != [] ==> ArrayAt(base, key).Some?
    ensures var max := EncodedLen(WithArray(base, key, items[..j]));
            && 0 < max && EncodedLen(base) <= max
            && LongestPrefix(base, key, items, max, |items|) == j
  {
    var max := EncodedLen(WithArray(base, key, items[..j]));
    EncodedLenPositive(WithArray(base, key, items[..j]));
    if items == [] {
      WithSameArray(base, key);
    } else {
      PrefixLen(base, key, items, j);
      if j < |items| {
        NextElement(items, j);
        EncodedLenPositive(items[j]);
      }
    }
    LongestIs(base, key, items, max, j);
  }

  /** A ceiling below the emptied envelope drains it. */
  lemma BelowEmptied(payload: Value, key: Option<string>, max: nat)
    requires 0 < max < EncodedLen(WithArray(payload, key, []))
    ensures Enforced(payload, key, max) ==
            Cut(Drain(WithArray(payload, key, []), key), key, ItemsAt(payload, key), Secondary(payload, key), max)
  {
    EmptiedIsShorter(payload, key);
  }

  lemma DrainedBase(payload: Value, key: Option<string>)
    ensures ItemsAt(Drain(WithArray(payload, key, []), key), key) == []
    ensures ArrayAt(Drain(WithArray(payload, key, []), key), key).Some? <==> ArrayAt(payload, key).Some?
  {
    DrainAddress(WithArray(payload, key, []), key);
    if ArrayAt(payload, key).Some? {
      WithArrayAddress(payload, key, []);
    }
  }

  /** Under the ceiling that `DrainedTo` fits exactly, it is what the ceiling produces. */
  lemma DrainedIsReached(payload: Value, key: Option<string>, j: nat)
    requires j <= |ItemsAt(payload, key)| && Drainable(payload, key, j)
    ensures var eff := EncodedLen(DrainedTo(payload, key, j));
            && eff > 0
            && Enforced(payload, key, eff) == (DrainedTo(payload, key, j), Outcome(true, Elements(payload, key) - j, false))
  {
    hide EncodedLen, Drain, WithArray, Enforced, LongestPrefix, Secondary;
    var base := Drain(WithArray(payload, key, []), key);
    DrainedBase(payload, key);
    TightPrefix(base, key, ItemsAt(payload, key), j);
    BelowEmptied(payload, key, EncodedLen(DrainedTo(payload, key, j)));
  }

  lemma DrainedItems(payload: Value, key: Option<string>, j: nat)
    requires j <= |ItemsAt(payload, key)|
    ensures ArrayAt(payload, key).Some? ==> ArrayAt(DrainedTo(payload, key, j), key) == Some(ItemsAt(payload, key)[..j])
    ensures ArrayAt(payload, key).None? ==> ArrayAt(DrainedTo(payload, key, j), key).None?
  {
    var emptied := WithArray(payload, key, []);
    DrainAddress(emptied, key);
    if ArrayAt(payload, key).Some? {
      WithArrayAddress(payload, key, []);
      WithArrayAddress(Drain(emptied, key), key, ItemsAt(payload, key)[..j]);
    }
  }

  /** The deficit in terms of the envelope the cut left. */
  lemma DeficitOf(payload: Value, key: Option<string>, meta: seq<Member>, cut: Value)
    requires Ready(payload, key, meta)
    requires |ItemsAt(cut, key)| <= |ItemsAt(payload, key)|
    requires ArrayAt(cut, key).Some? <==> ArrayAt(payload, key).Some?
    ensures var j := |ItemsAt(cut, key)|;
            Deficit(payload, key, meta, j) ==
            |Digits(Elements(payload, key) - j)| - |Digits(WidestDropped(meta))| - FlagSaving(payload)
            - CountSaving(meta, key, cut)
  {
    CutCountSaving(payload, key, meta, cut);
  }

  lemma DeficitIsEmitted(payload: Value, key: Option<string>, meta: seq<Member>, cut: Value, eff: nat, max: nat)
    requires Ready(payload, key, meta) && max > 0
    requires |ItemsAt(cut, key)| <= |ItemsAt(payload, key)|
    requires ArrayAt(cut, key).Some? <==> ArrayAt(payload, key).Some?
    requires eff == EffectiveMax(payload, meta, max) && EncodedLen(cut) == eff
    requires Enforced(payload, key, eff) == (cut, Outcome(true, Elements(payload, key) - |ItemsAt(cut, key)|, false))
    ensures EncodedLen(WithCeiling(payload, key, meta, max)) == max + Deficit(payload, key, meta, |ItemsAt(cut, key)|)
  {
    hide *;
    EmittedLength(payload, key, meta, max);
    DeficitOf(payload, key, meta, cut);
  }

  lemma DrainedCut(payload: Value, key: Option<string>, j: nat) returns (cut: Value)
    requires payload.Obj? && j <= |ItemsAt(payload, key)| && Drainable(payload, key, j)
    ensures EncodedLen(cut) > 0 && |ItemsAt(cut, key)| == j
    ensures ArrayAt(cut, key).Some? <==> ArrayAt(payload, key).Some?
    ensures Enforced(payload, key, EncodedLen(cut)) == (cut, Outcome(true, Elements(payload, key) - j, false))
  {
    cut := DrainedTo(payload, key, j);
    DrainedIsReached(payload, key, j);
    DrainedItems(payload, key, j);
  }

  /** A requested ceiling whose effective value the drained envelope fills to the byte. */
  lemma TightCeiling(payload: Value, key: Option<string>, meta: seq<Member>, j: nat) returns (cut: Value, max: nat)
    requires Ready(payload, key, meta) && j <= |ItemsAt(payload, key)| && Drainable(payload, key, j)
    ensures max > 0 && EncodedLen(cut) == EffectiveMax(payload, meta, max) && |ItemsAt(cut, key)| == j
    ensures ArrayAt(cut, key).Some? <==> ArrayAt(payload, key).Some?
    ensures Enforced(payload, key, EncodedLen(cut)) == (cut, Outcome(true, Elements(payload, key) - j, false))
  {
    cut := DrainedCut(payload, key, j);
    max := CeilingFor(payload, key, meta, EncodedLen(cut));
  }

  /** A ceiling that drains exactly to `j` elements is missed by the whole deficit. */
  lemma DeficitShows(payload: Value, key: Option<string>, meta: seq<Member>, j: nat) returns (max: nat)
    requires Ready(payload, key, meta) && j <= |ItemsAt(payload, key)| && Drainable(payload, key, j)
    ensures max > 0
    ensures !Enforced(payload, key, EffectiveMax(payload, meta, max)).1.stub
    ensures EncodedLen(WithCeiling(payload, key, meta, max)) == max + Deficit(payload, key, meta, j)
  {
    hide *;
    var cut;
    cut, max := TightCeiling(payload, key, meta, j);
    DeficitIsEmitted(payload, key, meta, cut, EncodedLen(cut), max);
  }

  lemma DeficitBreaks(payload: Value, key: Option<string>, meta: seq<Member>, j: nat)
    requires Ready(payload, key, meta) && j <= |ItemsAt(payload, key)| && Drainable(payload, key, j)
    requires Deficit(payload, key, meta, j) > 0
    ensures exists max | max > 0 :: !HonouredAt(payload, key, meta, max)
  {
    hide Enforced, WithCeiling, Deficit, Drainable, Ready;
    var max := DeficitShows(payload, key, meta, j);
    assert !HonouredAt(payload, key, meta, max);
  }

  lemma UndrainedHonours(payload: Value, key: Option<string>, meta: seq<Member>, max: nat)
    requires Ready(payload, key, meta) && max > 0
    requires EncodedLen(WithArray(payload, key, [])) <= EffectiveMax(payload, meta, max)
    requires Enforced(payload, key, EffectiveMax(payload, meta, max)).1.truncated
    ensures HonouredAt(payload, key, meta, max)
  {
    var eff := EffectiveMax(payload, meta, max);
    var (cut, o) := Enforced(payload, key, eff);
    SecondariesGoLast(payload, key, eff);
    EmittedLength(payload, key, meta, max);
    CutLength(payload, key, meta, max);
    DigitsMonotone(o.dropped, WidestDropped(meta));
  }

  /** A cut that had to drain leaves the drained envelope with its longest prefix. */
  lemma DrainedShape(payload: Value, key: Option<string>, eff: nat)
    requires EncodedLen(WithArray(payload, key, [])) > eff
    requires var o := Enforced(payload, key, eff).1; o.truncated && !o.stub
    ensures var (cut, o) := Enforced(payload, key, eff);
            var j := |ItemsAt(cut, key)|;
            && j <= |ItemsAt(payload, key)| && cut == DrainedTo(payload, key, j)
            && o.dropped == Elements(payload, key) - j
  {
    hide EncodedLen, ArrayAt, WithArray, Drain;
    KeepsLongestPrefix(payload, key, eff);
    SecondaryGone(payload, key, eff);
    var cut := Enforced(payload, key, eff).0;
    assert ItemsAt(payload, key)[..|ItemsAt(cut, key)|] == ItemsAt(cut, key);
  }

  lemma DrainedHonours(payload: Value, key: Option<string>, meta: seq<Member>, max: nat)
    requires Ready(payload, key, meta) && Covered(payload, key, meta) && max > 0
    requires EncodedLen(WithArray(payload, key, [])) > EffectiveMax(payload, meta, max)
    requires var o := Enforced(payload, key, EffectiveMax(payload, meta, max)).1; o.truncated && !o.stub
    ensures HonouredAt(payload, key, meta, max)
  {
    hide Ready, Enforced, WithCeiling, EncodedLen, EffectiveMax, DrainedTo, WithArray, ItemsAt, ArrayAt, Deficit, Elements, Digits;
    var eff := EffectiveMax(payload, meta, max);
    var (cut, o) := Enforced(payload, key, eff);
    EmittedLength(payload, key, meta, max);
    CutAddress(payload, key, eff);
    DrainedShape(payload, key, eff);
    assert Drainable(payload, key, |ItemsAt(cut, key)|);
    DeficitOf(payload, key, meta, cut);
  }

  lemma CoveredHonours(payload: Value, key: Option<string>, meta: seq<Member>, max: nat)
    requires Ready(payload, key, meta) && Covered(payload, key, meta) && max > 0
    ensures HonouredAt(payload, key, meta, max)
  {
    var eff := EffectiveMax(payload, meta, max);
    var o := Enforced(payload, key, eff).1;
    FitsOrStub(payload, key, eff);
    if o.truncated && !o.stub {
      if EncodedLen(WithArray(payload, key, [])) <= eff {
        UndrainedHonours(payload, key, meta, max);
      } else {
        DrainedHonours(payload, key, meta, max);
      }
    }
  }

  lemma SecondaryGone(payload: Value, key: Option<string>, eff: nat)
    requires EncodedLen(WithArray(payload, key, [])) > eff
    requires Enforced(payload, key, eff).1.truncated && !Enforced(payload, key, eff).1.stub
    ensures Enforced(payload, key, eff).1.dropped == Elements(payload, key) - |ItemsAt(Enforced(payload, key, eff).0, key)|
  {
    var cut := Enforced(payload, key, eff).0;
    KeepsLongestPrefix(payload, key, eff);
    DroppedIsWhatIsMissing(payload, key, eff);
    SkeletonSecondary(payload, key, eff);
    SecondaryWithArray(Skeleton(payload, key, eff), key, ItemsAt(cut, key));
  }

  /** No ceiling is ever exceeded exactly when no drainable cut outgrows its reservation. */
  lemma CeilingHonouredIff(payload: Value, key: Option<string>, meta: seq<Member>)
    requires Ready(payload, key, meta)
    ensures (forall max | max > 0 :: HonouredAt(payload, key, meta, max)) <==> Covered(payload, key, meta)
  {
    hide HonouredAt, Drainable, Deficit, Ready;
    if Covered(payload, key, meta) {
      forall max | max > 0 ensures HonouredAt(payload, key, meta, max) {
        CoveredHonours(payload, key, meta, max);
      }
    } else {
      var j :| 0 <= j <= |ItemsAt(payload, key)| && Drainable(payload, key, j) && Deficit(payload, key, meta, j) > 0;
      DeficitBreaks(payload, key, meta, j);
    }
  }

  // ------------------------------------------------------------ consequences

  lemma {:induction false} DrainShortens(ms: seq<Member>, key: Option<string>)
    ensures MembersLen(DrainMembers(ms, key)) <= MembersLen(ms)
    ensures SecondaryCount(ms, key) > 0 ==> MembersLen(DrainMembers(ms, key)) < MembersLen(ms)
  {
    if ms != [] {
      var first := DrainMembers(ms, key)[0];
      assert ms == [ms[0]] + ms[1..];
      assert DrainMembers(ms, key) == [first] + DrainMembers(ms[1..], key);
      DrainShortens(ms[1..], key);
      MembersLenConcat([ms[0]], ms[1..]);
      MembersLenConcat([first], DrainMembers(ms[1..], key));
      OneMemberLen(ms[0]);
      OneMemberLen(first);
      if IsSecondary(ms[0], key) {
        var items := ms[0].value.items;
        ArrLen(items);
        ArrLen([]);
        if items != [] {
          NextElement(items, 0);
          EncodedLenPositive(items[0]);
          PrefixGrows(items, 1, |items|);
          assert items[..|items|] == items && items[..0] == [];
        }
      }
    }
  }

  lemma NarrowDeficit(payload: Value, key: Option<string>, meta: seq<Member>, j: nat)
    requires j <= |ItemsAt(payload, key)|
    requires |Digits(Elements(payload, key))| <= |Digits(WidestDropped(meta))|
    ensures Deficit(payload, key, meta, j) <= 0
  {
    DigitsMonotone(Elements(payload, key) - j, Elements(payload, key));
    DigitsMonotone(j, |ItemsAt(payload, key)|);
  }

  /** Enough by inspection: everything the arrays hold is no wider than the input count. */
  lemma NarrowIsHonoured(payload: Value, key: Option<string>, meta: seq<Member>)
    requires Ready(payload, key, meta)
    requires |Digits(Elements(payload, key))| <= |Digits(WidestDropped(meta))|
    ensures forall max | max > 0 :: HonouredAt(payload, key, meta, max)
  {
    forall j | 0 <= j <= |ItemsAt(payload, key)|
      ensures Drainable(payload, key, j) ==> Deficit(payload, key, meta, j) <= 0
    {
      NarrowDeficit(payload, key, meta, j);
    }
    CeilingHonouredIff(payload, key, meta);
  }

  /** Draining always shortens an envelope whose secondary arrays hold anything. */
  lemma DrainToNothing(payload: Value, key: Option<string>)
    requires payload.Obj? && Secondary(payload, key) > 0
    ensures Drainable(payload, key, 0)
  {
    var emptied := WithArray(payload, key, []);
    var base := Drain(emptied, key);
    SecondaryWithArray(payload, key, []);
    DrainShortens(emptied.members, key);
    ObjLen(emptied.members);
    ObjLen(base.members);
    assert ItemsAt(payload, key)[..0] == [];
    assert WithArray(base, key, []) == base by {
      DrainAddress(emptied, key);
      if ArrayAt(payload, key).Some? {
        WithArrayAddress(payload, key, []);
      }
      WithSameArray(base, key);
    }
  }

  lemma WideDeficit(payload: Value, key: Option<string>, meta: seq<Member>)
    requires Ready(payload, key, meta)
    requires WidestDropped(meta) < 10 <= Secondary(payload, key) && FlagSaving(payload) == 0
    ensures Deficit(payload, key, meta, 0) > 0
  {
    var n := Elements(payload, key);
    assert n / 10 >= 1;
    DigitsMonotone(1, n / 10);
    assert |Digits(n)| == |Digits(n / 10)| + 1;
  }

  /** A family read off the payload: fewer than ten elements on record, ten or more beside them, and no
      flag to shorten. Some ceiling is then exceeded by an envelope that is not the stub. */
  lemma WideSecondariesOverrun(payload: Value, key: Option<string>, meta: seq<Member>) returns (max: nat)
    requires Ready(payload, key, meta) && WidestDropped(meta) < 10 <= Secondary(payload, key)
    requires Get(payload.members, TRUNCATED_KEY) != Some(Bool(false))
    ensures max > 0 && !Enforced(payload, key, EffectiveMax(payload, meta, max)).1.stub
    ensures EncodedLen(WithCeiling(payload, key, meta, max)) > max
  {
    WideDeficit(payload, key, meta);
    DrainToNothing(payload, key);
    hide *;
    max := DeficitShows(payload, key, meta, 0);
  }
}
