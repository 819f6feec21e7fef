/**
 The last stage of the surface: truncate strings, attach the record, enforce the
 byte ceiling, and record the cut inside the very envelope that was cut.
 */
module Finalize {
  import opened Wrappers
  import opened Json
  import opened Budget
  import opened Shape

  const META_KEY := "agent_surface"
  const TRUNCATED_KEY := "truncated"

  /** Puts `meta` under its own member of an object, and sets the flag if told to; other values pass. */
  function Attach(payload: Value, meta: seq<Member>, truncated: bool): Value {
    if !payload.Obj? then payload
    else
      var ms := Put(payload.members, META_KEY, Obj(meta));
      Obj(if truncated then Put(ms, TRUNCATED_KEY, Bool(true)) else ms)
  }

  lemma AttachGet(ms: seq<Member>, meta: seq<Member>, truncated: bool, k: string)
    ensures Attach(Obj(ms), meta, truncated).Obj?
    ensures Get(Attach(Obj(ms), meta, truncated).members, META_KEY) == Some(Obj(meta))
    ensures k != META_KEY && k != TRUNCATED_KEY ==> Get(Attach(Obj(ms), meta, truncated).members, k) == Get(ms, k)
    ensures Get(Attach(Obj(ms), meta, truncated).members, TRUNCATED_KEY) ==
            if truncated then Some(Bool(true)) else Get(ms, TRUNCATED_KEY)
  {
    var recorded := Put(ms, META_KEY, Obj(meta));
    GetPut(ms, META_KEY, Obj(meta), k);
    GetPut(ms, META_KEY, Obj(meta), META_KEY);
    GetPut(ms, META_KEY, Obj(meta), TRUNCATED_KEY);
    GetPut(recorded, TRUNCATED_KEY, Bool(true), k);
    GetPut(recorded, TRUNCATED_KEY, Bool(true), META_KEY);
    GetPut(recorded, TRUNCATED_KEY, Bool(true), TRUNCATED_KEY);
  }

  /** The members that record a cut of `dropped` elements under the ceiling `max`. */
  function RecordCut(meta: seq<Member>, dropped: nat, max: nat): seq<Member> {
    Put(Put(Put(meta, "output_truncated", Bool(true)), "dropped", Int(dropped)), "max_output_bytes", Int(max))
  }

  /** The widest cut the reservation plans for: the record's own input count. */
  function WidestDropped(meta: seq<Member>): nat {
    match Get(meta, "input_count")
    case Some(Int(n)) => if n >= 0 then n else 0
    case _ => 0
  }

  /** What is set aside for the record of a cut, measured on the widest `dropped` foreseen. */
  function Headroom(payload: Value, meta: seq<Member>, max: nat): nat {
    if max == 0 then 0
    else
      var before := EncodedLen(Obj(meta));
      var after := EncodedLen(Obj(RecordCut(meta, WidestDropped(meta), max)));
      (if after > before then after - before else 0)
      + (if payload.Obj? && !Has(payload.members, TRUNCATED_KEY) then |TRUNCATED_KEY| + 8 else 0)
  }

  function EffectiveMax(payload: Value, meta: seq<Member>, max: nat): nat {
    if max == 0 then 0
    else if max > Headroom(payload, meta, max) then max - Headroom(payload, meta, max)
    else 1
  }

  /** The record of a cut, with `output_count` re-measured on what survived. */
  function CutRecord(meta: seq<Member>, key: Option<string>, cut: Value, o: Outcome, max: nat): seq<Member> {
    var recorded := RecordCut(meta, o.dropped, max);
    if ArrayAt(cut, key).Some? then Put(recorded, "output_count", Int(|ItemsAt(cut, key)|)) else recorded
  }

  /** The envelope the ceiling is enforced on: the payload with its record attached. */
  function WithCeiling(payload: Value, key: Option<string>, meta: seq<Member>, max: nat): Value {
    var (cut, o) := Enforced(payload, key, EffectiveMax(payload, meta, max));
    if o.stub then
      if cut.Obj? then Obj(Put(cut.members, "max_output_bytes", Int(max))) else cut
    else if o.truncated then Attach(cut, CutRecord(meta, key, cut, o, max), true)
    else cut
  }

  function CutContent(payload: Value, limit: nat): bool {
    limit > 0 && HasLong(payload, limit)
  }

  function ContentMeta(meta: seq<Member>, hit: bool, limit: nat): seq<Member> {
    if hit then Put(Put(meta, "content_truncated", Bool(true)), "truncate_content", Int(limit)) else meta
  }

  /** The payload after `--truncate-content`, carrying its record. */
  function Recorded(payload: Value, meta: seq<Member>, limit: nat): Value {
    var hit := CutContent(payload, limit);
    Attach(if limit == 0 then payload else Truncated(payload, limit), ContentMeta(meta, hit, limit), hit)
  }

  function Finalized(payload: Value, key: Option<string>, meta: seq<Member>, limit: nat, max: nat): Value {
    WithCeiling(Recorded(payload, meta, limit), key, ContentMeta(meta, CutContent(payload, limit), limit), max)
  }

  /** `finalize`, step by step on the envelope and its record. */
  method Finish(payload: Value, key: Option<string>, meta: seq<Member>, limit: nat, max: nat) returns (r: Value)
    ensures r == Finalized(payload, key, meta, limit, max)
  {
    var record := meta;
    var hit;
    r, hit := TruncateStrings(payload, limit);
    if hit {
      record := Put(record, "content_truncated", Bool(true));
      record := Put(record, "truncate_content", Int(limit));
    }
    r := Attach(r, record, hit);
    var outcome;
    r, outcome := Enforce(r, key, EffectiveMax(r, record, max));
    if outcome.truncated && !outcome.stub {
      record := RecordCut(record, outcome.dropped, max);
      if ArrayAt(r, key).Some? {
        record := Put(record, "output_count", Int(|ItemsAt(r, key)|));
      }
      r := Attach(r, record, true);
    }
    if outcome.stub && r.Obj? {
      r := Obj(Put(r.members, "max_output_bytes", Int(max)));
    }
  }

  // ------------------------------------------------------------ arithmetic

  predicate Plain(s: string) {
    forall i | 0 <= i < |s| :: ' ' <= s[i] < '\U{0080}' && s[i] != '\"' && s[i] != '\\'
  }

  lemma {:induction false} PlainEscape(s: string)
    requires Plain(s)
    ensures Escape(s) == s
  {
    if s != "" {
      PlainEscape(s[1..]);
      assert s == [s[0]] + s[1..];
    }
  }

  lemma PlainQuoted(s: string)
    requires Plain(s)
    ensures ByteLen(Quoted(s)) == |s| + 2
  {
    PlainEscape(s);
    Concat3("\"", s, "\"");
    ByteLenAscii(s);
    assert ByteLen("\"") == 1;
  }

  lemma BoolLen(b: bool)
    ensures EncodedLen(Bool(b)) == if b then 4 else 5
  {
    var text := if b then "true" else "false";
    assert Text(Bool(b)) == text;
    hide *;
    ByteLenAscii(text);
  }

  lemma FlagLen()
    ensures MemberLen(Member(TRUNCATED_KEY, Bool(true))) + 1 == |TRUNCATED_KEY| + 8
  {
    hide ByteLen, Quoted, EncodedLen;
    BoolLen(true);
    PlainQuoted(TRUNCATED_KEY);
  }

  /** Only the width of `dropped` tells two records of the same cut apart. */
  lemma RecordCutLen(meta: seq<Member>, d: nat, w: nat, max: nat)
    ensures MembersLen(RecordCut(meta, d, max)) - |Digits(d)| == MembersLen(RecordCut(meta, w, max)) - |Digits(w)|
  {
    var base := Put(meta, "output_truncated", Bool(true));
    NatLen(d);
    NatLen(w);
    PutLen(base, "dropped", Int(d));
    PutLen(base, "dropped", Int(w));
    GetPut(base, "dropped", Int(d), "max_output_bytes");
    GetPut(base, "dropped", Int(w), "max_output_bytes");
    PutLen(Put(base, "dropped", Int(d)), "max_output_bytes", Int(max));
    PutLen(Put(base, "dropped", Int(w)), "max_output_bytes", Int(max));
  }

  lemma RecordCutGet(meta: seq<Member>, d: nat, max: nat, k: string)
    requires k != "output_truncated" && k != "dropped" && k != "max_output_bytes"
    ensures Get(RecordCut(meta, d, max), k) == Get(meta, k)
  {
    var m1 := Put(meta, "output_truncated", Bool(true));
    GetPut(meta, "output_truncated", Bool(true), k);
    GetPut(m1, "dropped", Int(d), k);
    GetPut(Put(m1, "dropped", Int(d)), "max_output_bytes", Int(max), k);
  }

  /** The record counts at least the elements the payload still holds. */
  predicate Counted(meta: seq<Member>, payload: Value, key: Option<string>) {
    ArrayAt(payload, key).Some? ==>
      match Get(meta, "output_count")
      case Some(Int(n)) => n >= |ItemsAt(payload, key)|
      case _ => false
  }

  /** What re-measuring `output_count` gives back. */
  function CountSaving(meta: seq<Member>, key: Option<string>, cut: Value): int {
    match (ArrayAt(cut, key), Get(meta, "output_count"))
    case (Some(items), Some(Int(n))) => if n >= 0 then |Digits(n)| - |Digits(|items|)| else 0
    case _ => 0
  }

  lemma CutRecordLen(meta: seq<Member>, key: Option<string>, payload: Value, cut: Value, o: Outcome, max: nat)
    requires Counted(meta, payload, key)
    requires ArrayAt(cut, key).Some? ==> ArrayAt(payload, key).Some? && |ItemsAt(cut, key)| <= |ItemsAt(payload, key)|
    ensures CountSaving(meta, key, cut) >= 0
    ensures MembersLen(CutRecord(meta, key, cut, o, max)) ==
            MembersLen(RecordCut(meta, WidestDropped(meta), max))
            + |Digits(o.dropped)| - |Digits(WidestDropped(meta))| - CountSaving(meta, key, cut)
  {
    var recorded := RecordCut(meta, o.dropped, max);
    RecordCutLen(meta, o.dropped, WidestDropped(meta), max);
    if ArrayAt(cut, key).Some? {
      var n := Get(meta, "output_count").value.n;
      RecordCutGet(meta, o.dropped, max, "output_count");
      PutLen(recorded, "output_count", Int(|ItemsAt(cut, key)|));
      NatLen(|ItemsAt(cut, key)|);
      NatLen(n);
      DigitsMonotone(|ItemsAt(cut, key)|, n);
    }
  }

  predicate FlagIsBoolean(payload: Value) {
    payload.Obj? ==>
      match Get(payload.members, TRUNCATED_KEY)
      case Some(v) => v.Bool?
      case None => true
  }

  /** Raising the flag over an existing `false` shortens the envelope by one byte. */
  function FlagSaving(payload: Value): nat {
    if payload.Obj? && Get(payload.members, TRUNCATED_KEY) == Some(Bool(false)) then 1 else 0
  }

  function FlagCost(payload: Value): nat {
    if payload.Obj? && !Has(payload.members, TRUNCATED_KEY) then |TRUNCATED_KEY| + 8 else 0
  }

  /** Attaching a record over a record costs their difference, and the flag exactly its reservation. */
  lemma AttachLen(cut: Value, was: seq<Member>, meta: seq<Member>)
    requires cut.Obj? && FlagIsBoolean(cut) && Get(cut.members, META_KEY) == Some(Obj(was))
    ensures EncodedLen(Attach(cut, meta, true)) ==
            EncodedLen(cut) + MembersLen(meta) - MembersLen(was) + FlagCost(cut) - FlagSaving(cut)
  {
    var ms := Put(cut.members, META_KEY, Obj(meta));
    PutLen(cut.members, META_KEY, Obj(meta));
    GetPut(cut.members, META_KEY, Obj(meta), TRUNCATED_KEY);
    PutLen(ms, TRUNCATED_KEY, Bool(true));
    FlagLen();
    BoolLen(true);
    BoolLen(false);
    ObjLen(was);
    ObjLen(meta);
    ObjLen(cut.members);
    ObjLen(Put(ms, TRUNCATED_KEY, Bool(true)));
  }

  // ------------------------------------------------------------- the theorem

  /** Bytes by which a cut of `dropped` elements outgrows the width reserved for it. */
  function Overrun(dropped: nat, widest: nat): nat {
    if |Digits(dropped)| > |Digits(widest)| then |Digits(dropped)| - |Digits(widest)| else 0
  }

  lemma CutKeepsAddress(payload: Value, key: Option<string>, max: nat)
    requires !Enforced(payload, key, max).1.stub
    ensures var cut := Enforced(payload, key, max).0;
            && (ArrayAt(cut, key).Some? ==> ArrayAt(payload, key).Some?)
            && ItemsAt(cut, key) <= ItemsAt(payload, key)
  {
    var (cut, o) := Enforced(payload, key, max);
    if o.truncated {
      KeepsLongestPrefix(payload, key, max);
      SkeletonAddress(payload, key, max);
    }
  }

  lemma CutSurvivors(payload: Value, key: Option<string>, meta: seq<Member>, eff: nat)
    requires payload.Obj? && FlagIsBoolean(payload) && !Enforced(payload, key, eff).1.stub
    requires Get(payload.members, META_KEY) == Some(Obj(meta))
    ensures var cut := Enforced(payload, key, eff).0;
            && cut.Obj? && FlagIsBoolean(cut) && Get(cut.members, META_KEY) == Some(Obj(meta))
            && FlagCost(cut) == FlagCost(payload) && FlagSaving(cut) == FlagSaving(payload)
  {
    ScalarsSurvive(payload, key, eff, META_KEY);
    ScalarsSurvive(payload, key, eff, TRUNCATED_KEY);
  }

  /** The length of a cut object envelope, record included, to the byte. */
  lemma CutLength(payload: Value, key: Option<string>, meta: seq<Member>, max: nat)
    requires max > 0 && payload.Obj? && FlagIsBoolean(payload) && Counted(meta, payload, key)
    requires Get(payload.members, META_KEY) == Some(Obj(meta))
    requires var o := Enforced(payload, key, EffectiveMax(payload, meta, max)).1; o.truncated && !o.stub
    ensures var (cut, o) := Enforced(payload, key, EffectiveMax(payload, meta, max));
            var w := WidestDropped(meta);
            && CountSaving(meta, key, cut) >= 0
            && EncodedLen(WithCeiling(payload, key, meta, max)) ==
               EncodedLen(cut) + MembersLen(RecordCut(meta, w, max)) - MembersLen(meta) + FlagCost(payload)
               + |Digits(o.dropped)| - |Digits(w)| - CountSaving(meta, key, cut) - FlagSaving(payload)
  {
    var eff := EffectiveMax(payload, meta, max);
    var (cut, o) := Enforced(payload, key, eff);
    CutSurvivors(payload, key, meta, eff);
    CutKeepsAddress(payload, key, eff);
    CutRecordLen(meta, key, payload, cut, o, max);
    AttachLen(cut, meta, CutRecord(meta, key, cut, o, max));
  }

  lemma HeadroomCovers(payload: Value, meta: seq<Member>, max: nat)
    requires max > 0
    ensures Headroom(payload, meta, max) >=
            MembersLen(RecordCut(meta, WidestDropped(meta), max)) - MembersLen(meta) + FlagCost(payload)
  {
    ObjLen(meta);
    ObjLen(RecordCut(meta, WidestDropped(meta), max));
  }

  /** An object never fits in one byte, so a reservation that swallows the ceiling leads to the stub. */
  lemma ReservationLeftRoom(payload: Value, key: Option<string>, meta: seq<Member>, max: nat)
    requires max > 0 && payload.Obj? && FlagIsBoolean(payload)
    requires Get(payload.members, META_KEY) == Some(Obj(meta))
    requires !Enforced(payload, key, EffectiveMax(payload, meta, max)).1.stub
    ensures EffectiveMax(payload, meta, max) + Headroom(payload, meta, max) == max
  {
    var eff := EffectiveMax(payload, meta, max);
    FitsOrStub(payload, key, eff);
    CutSurvivors(payload, key, meta, eff);
    ObjLen(Enforced(payload, key, eff).0.members);
  }

  /** A cut object envelope exceeds the ceiling by at most the overrun of `dropped`. */
  lemma CutFits(payload: Value, key: Option<string>, meta: seq<Member>, max: nat)
    requires max > 0 && payload.Obj? && FlagIsBoolean(payload) && Counted(meta, payload, key)
    requires Get(payload.members, META_KEY) == Some(Obj(meta))
    requires var o := Enforced(payload, key, EffectiveMax(payload, meta, max)).1; o.truncated && !o.stub
    ensures var o := Enforced(payload, key, EffectiveMax(payload, meta, max)).1;
            EncodedLen(WithCeiling(payload, key, meta, max)) <= max + Overrun(o.dropped, WidestDropped(meta))
  {
    FitsOrStub(payload, key, EffectiveMax(payload, meta, max));
    CutLength(payload, key, meta, max);
    HeadroomCovers(payload, meta, max);
    ReservationLeftRoom(payload, key, meta, max);
  }

  /** Every payload: the stub, or an envelope within the ceiling up to the overrun of `dropped`. */
  lemma CeilingPromise(payload: Value, key: Option<string>, meta: seq<Member>, max: nat)
    requires max > 0 && FlagIsBoolean(payload) && Counted(meta, payload, key)
    requires payload.Obj? ==> Get(payload.members, META_KEY) == Some(Obj(meta))
    ensures var o := Enforced(payload, key, EffectiveMax(payload, meta, max)).1;
            var r := WithCeiling(payload, key, meta, max);
            if o.stub then r == RequestedStub(payload, key, meta, max)
            else EncodedLen(r) <= max + Overrun(o.dropped, WidestDropped(meta))
  {
    var eff := EffectiveMax(payload, meta, max);
    var (cut, o) := Enforced(payload, key, eff);
    FitsOrStub(payload, key, eff);
    if o.truncated && !o.stub {
      if payload.Obj? {
        CutFits(payload, key, meta, max);
      } else {
        assert !cut.Obj?;
      }
    }
  }

  /** The stub with the ceiling the caller asked for in place of the discounted one. */
  function RequestedStub(payload: Value, key: Option<string>, meta: seq<Member>, max: nat): Value {
    Obj(Put(Stub(EffectiveMax(payload, meta, max)).members, "max_output_bytes", Int(max)))
  }

  /** What is left when nothing fits: the flag, the reason, the ceiling, and no more. */
  lemma StubReads(max: nat, k: string)
    ensures Get(Stub(max).members, k) ==
            if k == "truncated" then Some(Bool(true))
            else if k == "truncated_reason" then Some(Str("max_output_bytes"))
            else if k == "max_output_bytes" then Some(Int(max))
            else None
  {
    var ms := Stub(max).members;
    FindIs(ms, k, if k == "max_output_bytes" then 0 else if k == "truncated" then 1 else if k == "truncated_reason" then 2 else 3);
  }

  lemma RequestedStubReports(payload: Value, key: Option<string>, meta: seq<Member>, max: nat)
    ensures RequestedStub(payload, key, meta, max) == Stub(max)
  {
    assert Find(Stub(EffectiveMax(payload, meta, max)).members, "max_output_bytes") == 0;
  }
}
