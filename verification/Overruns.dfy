/**
 Requests whose byte ceiling is exceeded.

 `Reservation` finds the payloads on which the reservation for the cut record
 falls short; here such payloads are traced back to the envelopes and requests
 that lead to them, up to one small enough to write down.
 */
module Overruns {
  import opened Wrappers
  import opened Json
  import opened Filter
  import opened Budget
  import opened Universe
  import opened Gate
  import opened Finalize
  import opened Surface
  import opened Promises
  import Request
  import Shape
  import Reservation

  // ------------------------------------------- the ceiling shapes nothing itself

  /** The same request under another byte ceiling. */
  function WithBytes(s: Request.Surface, max: nat): Request.Surface {
    s.(maxOutputBytes := max)
  }

  lemma PartsIgnoreBytes(s: Request.Surface, max: nat, items: seq<Value>, ceiling: Option<QueryCeiling>, ctx: Filter.Context)
    ensures Matched(WithBytes(s, max), items, ctx) == Matched(s, items, ctx)
    ensures Emitted(WithBytes(s, max), items, ctx) == Emitted(s, items, ctx)
    ensures RequestMembers(WithBytes(s, max), ceiling) == RequestMembers(s, ceiling)
  {
    hide Shape.Kept, Shape.Sorted, Shape.Deduped, Shape.Limited, Shape.Projected, CeilingMembers, TextList, MemberIf;
  }

  lemma ShapeIgnoresBytes(s: Request.Surface, max: nat, rest: Value, key: Option<string>, items: seq<Value>,
                          ceiling: Option<QueryCeiling>, ctx: Filter.Context, more: seq<Member>)
    ensures ShapeItems(WithBytes(s, max), rest, key, items, ceiling, ctx, more) == ShapeItems(s, rest, key, items, ceiling, ctx, more)
    ensures ShapeScalar(WithBytes(s, max), rest, ceiling, ctx, more) == ShapeScalar(s, rest, ceiling, ctx, more)
  {
    hide Matched, Emitted, RequestMembers, Record, Capped, CappedNames, TextList, MemberIf, Put, ScopeOfCount, Shape.ProjectOne;
    PartsIgnoreBytes(s, max, items, ceiling, ctx);
  }

  lemma GateIgnoresBytes(s: Request.Surface, max: nat, scope: Scope, declared: bool, hasArray: bool, ceiling: Option<QueryCeiling>)
    requires !s.streamed
    ensures Evaluate(WithBytes(s, max), scope, declared, hasArray, ceiling) == Evaluate(s, scope, declared, hasArray, ceiling)
  {
    var t := WithBytes(s, max);
    assert PredicateUses(t) == PredicateUses(s);
    assert InertFlags(t) == InertFlags(s);
    assert RefuseShape(t, hasArray, ceiling) == RefuseShape(s, hasArray, ceiling);
    assert ResolveProjection(t, scope, hasArray && declared) == ResolveProjection(s, scope, hasArray && declared);
    hide PredicateUses, RefuseShape, ResolveProjection, RefuseUnusable;
  }

  lemma ReshapedIgnoresBytes(tables: Tables, s: Request.Surface, max: nat, v: Value, ambient: Ambient, ceiling: Option<QueryCeiling>)
    requires !s.streamed
    ensures Reshaped(tables, WithBytes(s, max), v, ambient, ceiling) == Reshaped(tables, s, v, ambient, ceiling)
  {
    var t := WithBytes(s, max);
    var located := LocateIn(tables, s, v);
    assert LocateIn(tables, t, v) == located && tables.Context(t) == tables.Context(s);
    hide LocateIn, ShapeItems, ShapeScalar, Evaluate, WithArray, ArrayAt, AmbientMembers;
    var ctx := tables.Context(s);
    var items := ArrayAt(located.value, located.key);
    var rest := WithArray(located.value, located.key, []);
    var elements := if items.Some? then items.value else [];
    var declared := Declared(tables, located.key);
    GateIgnoresBytes(s, max, Scope(elements, rest, ctx.groups), declared, items.Some?, ceiling);
    var verdict := Evaluate(s, Scope(elements, rest, ctx.groups), declared, items.Some?, ceiling);
    if verdict.Ok? {
      var more := AmbientMembers(ambient, located.removed, verdict.value, located.key, declared);
      ShapeIgnoresBytes(s, max, rest, located.key, elements, ceiling, ctx, more);
    }
  }

  // --------------------------------------------------- elements beside the array

  lemma {:induction false} SecondaryConcat(a: seq<Member>, b: seq<Member>, key: Option<string>)
    ensures SecondaryCount(a + b, key) == SecondaryCount(a, key) + SecondaryCount(b, key)
  {
    if a == [] {
      assert a + b == b;
    } else {
      assert (a + b)[1..] == a[1..] + b;
      SecondaryConcat(a[1..], b, key);
    }
  }

  lemma SecondaryAround(a: seq<Member>, m: Member, b: seq<Member>, key: Option<string>)
    ensures SecondaryCount(a + [m] + b, key) ==
            SecondaryCount(a + b, key) + if IsSecondary(m, key) then |m.value.items| else 0
  {
    SecondaryConcat(a + [m], b, key);
    SecondaryConcat(a, [m], key);
    SecondaryConcat(a, b, key);
    assert [m][1..] == [];
  }

  /** Writing a member that is no secondary array over none leaves the count alone. */
  lemma SecondaryPut(ms: seq<Member>, key: Option<string>, name: string, v: Value)
    requires !IsSecondary(Member(name, v), key)
    requires Get(ms, name).Some? ==> !IsSecondary(Member(name, Get(ms, name).value), key)
    ensures SecondaryCount(Put(ms, name, v), key) == SecondaryCount(ms, key)
  {
    if Has(ms, name) {
      var i := Find(ms, name);
      var a, b := ms[..i], ms[i + 1..];
      assert ms == a + [ms[i]] + b && Put(ms, name, v) == a + [Member(name, v)] + b;
      assert ms[i] == Member(name, Get(ms, name).value);
      SecondaryAround(a, ms[i], b, key);
      SecondaryAround(a, Member(name, v), b, key);
    } else {
      var i := Slot(ms, name);
      assert ms[..i] + ms[i..] == ms;
      SecondaryAround(ms[..i], Member(name, v), ms[i..], key);
    }
  }

  lemma {:induction false} SecondaryTruncated(ms: seq<Member>, key: Option<string>, limit: nat)
    ensures SecondaryCount(Shape.TruncatedMembers(ms, limit), key) == SecondaryCount(ms, key)
  {
    if ms != [] {
      var r := Shape.TruncatedMembers(ms, limit);
      assert r[1..] == Shape.TruncatedMembers(ms[1..], limit);
      assert r[0] == Member(ms[0].key, Shape.Truncated(ms[0].value, limit));
      SecondaryTruncated(ms[1..], key, limit);
    }
  }

  /** Truncating strings and attaching a record leaves every secondary array its elements. */
  lemma SecondaryRecorded(ms: seq<Member>, key: Option<string>, meta: seq<Member>, limit: nat)
    requires FlagIsBoolean(Obj(ms)) && !HoldsArray(ms, META_KEY)
    ensures Recorded(Obj(ms), meta, limit).Obj?
    ensures Secondary(Recorded(Obj(ms), meta, limit), key) == SecondaryCount(ms, key)
    ensures Get(ms, TRUNCATED_KEY) != Some(Bool(false)) ==>
              Get(Recorded(Obj(ms), meta, limit).members, TRUNCATED_KEY) != Some(Bool(false))
  {
    var hit := CutContent(Obj(ms), limit);
    var cut := if limit == 0 then ms else Shape.TruncatedMembers(ms, limit);
    var m := ContentMeta(meta, hit, limit);
    SecondaryTruncated(ms, key, limit);
    TruncatedGet(ms, limit, META_KEY);
    TruncatedGet(ms, limit, TRUNCATED_KEY);
    AttachGet(cut, m, hit, TRUNCATED_KEY);
    var recorded := Put(cut, META_KEY, Obj(m));
    GetPut(cut, META_KEY, Obj(m), TRUNCATED_KEY);
    assert Recorded(Obj(ms), meta, limit) == Obj(if hit then Put(recorded, TRUNCATED_KEY, Bool(true)) else recorded);
    hide Get, Put, SecondaryCount, ContentMeta, CutContent;
    SecondaryPut(cut, key, META_KEY, Obj(m));
    SecondaryPut(recorded, key, TRUNCATED_KEY, Bool(true));
  }

  // --------------------------------------------------------------- the family

  /** An envelope as read: an array `k` of fewer than ten elements, ten or more elements in other arrays
      that the request leaves alone, and neither a lowered flag nor an array where the record goes. */
  predicate Wide(tables: Tables, s: Request.Surface, v: Value, k: string) {
    && v.Obj? && FlagIsBoolean(v) && Get(v.members, TRUNCATED_KEY) != Some(Bool(false))
    && !HoldsArray(v.members, META_KEY)
    && s.maxItems == 0 && !s.streamed && !(s.countOnly && !s.writesReceipt)
    && DerivedFor(tables.aliases, s.command, Some(k)) == []
    && |ItemsAt(v, Some(k))| < 10 <= Secondary(v, Some(k))
  }

  lemma WideLocated(tables: Tables, s: Request.Surface, v: Value, k: string)
    requires Wide(tables, s, v, k) && Locate(v, tables.resultKeys) == Some(k)
    ensures LocateIn(tables, s, v).value == v
  {
    assert RemoveArrays(v.members, []) == v.members;
  }

  /** The shaped envelope keeps what stood beside the array. */
  lemma WideShaped(tables: Tables, s: Request.Surface, v: Value, k: string, items: seq<Value>,
                   ceiling: Option<QueryCeiling>, ctx: Filter.Context, more: seq<Member>)
    requires Wide(tables, s, v, k) && Free(k) && ArrayAt(v, Some(k)).Some?
    ensures var p := ShapeItems(s, WithArray(v, Some(k), []), Some(k), items, ceiling, ctx, more).payload;
            && p.Obj? && FlagIsBoolean(p) && !HoldsArray(p.members, META_KEY) && SecondaryCount(p.members, Some(k)) >= 10
            && Get(p.members, TRUNCATED_KEY) != Some(Bool(false))
  {
    var key := Some(k);
    var rest := WithArray(v, key, []);
    OtherMembersSurvive(v, key, [], TRUNCATED_KEY);
    OtherMembersSurvive(v, key, [], META_KEY);
    SecondaryWithArray(v, key, []);
    hide WithArray, ArrayAt, Emitted, Matched, Record, RequestMembers, SecondaryCount, Put, Get, Secondary;
    var out := Arr(Emitted(s, items, ctx));
    GetPut(rest.members, k, out, TRUNCATED_KEY);
    GetPut(rest.members, k, out, META_KEY);
    SecondaryPut(rest.members, key, k, out);
    assert Secondary(rest, key) == SecondaryCount(rest.members, key) by {
      SecondaryOf(rest, key);
    }
    assert Secondary(v, key) >= 10;
  }

  lemma SecondaryOf(v: Value, key: Option<string>)
    requires v.Obj?
    ensures Secondary(v, key) == SecondaryCount(v.members, key)
  {
  }

  lemma WideBefore(tables: Tables, s: Request.Surface, v: Value, ambient: Ambient, ceiling: Option<QueryCeiling>, k: string)
    requires Reshapes(tables, s, v, ambient, ceiling, k) && Free(k) && Wide(tables, s, v, k)
    ensures var before := BeforeCeiling(tables, s, v, ambient, ceiling);
            && before.payload.Obj? && Secondary(before.payload, Some(k)) >= 10
            && Get(before.payload.members, TRUNCATED_KEY) != Some(Bool(false))
            && |InputItems(tables, s, v)| < 10
  {
    WideLocated(tables, s, v, k);
    var ctx := tables.Context(s);
    var items := ItemsAt(v, Some(k));
    var rest := WithArray(v, Some(k), []);
    var declared := Declared(tables, Some(k));
    var findings := Evaluate(s, Scope(items, rest, ctx.groups), declared, true, ceiling).value;
    var more := AmbientMembers(ambient, LocateIn(tables, s, v).removed, findings, Some(k), declared);
    var shaped := ShapeItems(s, rest, Some(k), items, ceiling, ctx, more);
    assert Reshaped(tables, s, v, ambient, ceiling) == Ok(shaped);
    WideShaped(tables, s, v, k, items, ceiling, ctx, more);
    hide ShapeItems, Recorded, ContentMeta, CutContent, SecondaryCount, Get, Reshaped, Evaluate, AmbientMembers;
    SecondaryRecorded(shaped.payload.members, Some(k), shaped.meta, s.truncateContent);
  }

  /** A result that is not the stub carries its record. */
  lemma KeptRecord(p: Value, key: Option<string>, m: seq<Member>, max: nat)
    requires p.Obj? && Get(p.members, META_KEY) == Some(Obj(m)) && !Stubs(p, key, m, max)
    ensures WithCeiling(p, key, m, max).Obj? && Has(WithCeiling(p, key, m, max).members, META_KEY)
  {
    var eff := EffectiveMax(p, m, max);
    var (cut, o) := Enforced(p, key, eff);
    ScalarsSurvive(p, key, eff, META_KEY);
    hide Enforced, EffectiveMax, CutRecord;
    if o.truncated {
      AttachGet(cut.members, CutRecord(m, key, cut, o, max), true, META_KEY);
    }
  }

  /** The stub can be told from every other result: it has no record. */
  lemma StubIff(p: Value, key: Option<string>, m: seq<Member>, max: nat)
    requires p.Obj? && Get(p.members, META_KEY) == Some(Obj(m))
    ensures Stubs(p, key, m, max) <==> WithCeiling(p, key, m, max) == Stub(max)
  {
    if Stubs(p, key, m, max) {
      var eff := EffectiveMax(p, m, max);
      assert Enforced(p, key, eff).0 == Stub(eff);
      assert WithCeiling(p, key, m, max) == RequestedStub(p, key, m, max);
      hide *;
      RequestedStubReports(p, key, m, max);
    } else {
      KeptRecord(p, key, m, max);
      FindIs(Stub(max).members, META_KEY, 3);
    }
  }

  lemma ApplyWithBytes(tables: Tables, s: Request.Surface, max: nat, v: Value, ambient: Ambient, ceiling: Option<QueryCeiling>)
    requires !s.streamed && max > 0 && !IsPassthrough(v) && Reshaped(tables, s, v, ambient, ceiling).Ok?
    ensures var before := BeforeCeiling(tables, s, v, ambient, ceiling);
            Apply(tables, WithBytes(s, max), v, ambient, ceiling) ==
            Ok(WithCeiling(before.payload, Locate(v, tables.resultKeys), before.meta, max))
  {
    hide Reshaped, WithCeiling, Recorded, ContentMeta, CutContent, Locate, IsPassthrough;
    ReshapedIgnoresBytes(tables, s, max, v, ambient, ceiling);
  }

  /** Over the whole surface: a request honours every byte ceiling it could be given if and only if no
      drainable cut of what it shapes outgrows the reservation. */
  lemma SurfaceHonouredIff(tables: Tables, s: Request.Surface, v: Value, ambient: Ambient, ceiling: Option<QueryCeiling>, k: string)
    requires Reshapes(tables, s, v, ambient, ceiling, k) && Free(k) && FlagIsBoolean(v)
    requires !s.streamed && !(s.countOnly && !s.writesReceipt)
    ensures var before := BeforeCeiling(tables, s, v, ambient, ceiling);
            (forall max | max > 0 ::
               var r := Apply(tables, WithBytes(s, max), v, ambient, ceiling);
               r.Ok? && (r.value == Stub(max) || EncodedLen(r.value) <= max))
            <==> Reservation.Covered(before.payload, Some(k), before.meta)
  {
    var before := BeforeCeiling(tables, s, v, ambient, ceiling);
    BeforeCeilingIsReady(tables, s, v, ambient, ceiling, k);
    Reservation.CeilingHonouredIff(before.payload, Some(k), before.meta);
    hide Reservation.Covered;
    forall max | max > 0
      ensures var r := Apply(tables, WithBytes(s, max), v, ambient, ceiling);
              r.Ok? && ((r.value == Stub(max) || EncodedLen(r.value) <= max)
                        <==> Reservation.HonouredAt(before.payload, Some(k), before.meta, max))
    {
      ApplyWithBytes(tables, s, max, v, ambient, ceiling);
      StubIff(before.payload, Some(k), before.meta, max);
    }
  }

  /** Every such envelope, whatever else is asked: some byte ceiling, given to the same request, is exceeded by an
      answer that carries its record and so is not the stub. */
  lemma SurfaceOverruns(tables: Tables, s: Request.Surface, v: Value, ambient: Ambient, ceiling: Option<QueryCeiling>, k: string)
    returns (max: nat)
    requires Reshapes(tables, s, v, ambient, ceiling, k) && Free(k) && Wide(tables, s, v, k)
    ensures max > 0
    ensures var r := Apply(tables, WithBytes(s, max), v, ambient, ceiling);
            r.Ok? && r.value.Obj? && Has(r.value.members, META_KEY) && EncodedLen(r.value) > max
  {
    var before := BeforeCeiling(tables, s, v, ambient, ceiling);
    WideBefore(tables, s, v, ambient, ceiling, k);
    BeforeCeilingIsReady(tables, s, v, ambient, ceiling, k);
    assert Get(before.payload.members, META_KEY) == Some(Obj(before.meta));
    hide BeforeCeiling, Reshaped, Reservation.Ready, Get, WithCeiling, EncodedLen, Enforced, EffectiveMax, Secondary, Apply,
         WidestDropped, InputItems, Has;
    max := Reservation.WideSecondariesOverrun(before.payload, Some(k), before.meta);
    KeptRecord(before.payload, Some(k), before.meta, max);
    ApplyWithBytes(tables, s, max, v, ambient, ceiling);
  }

  // --------------------------------------------------------------- one of them

  const TEN_ZEROS := [Int(0), Int(0), Int(0), Int(0), Int(0), Int(0), Int(0), Int(0), Int(0), Int(0)]

  /** An empty result array beside ten edges. */
  const TEN_EDGES := Obj([Member("edges", Arr(TEN_ZEROS)), Member("nodes", Arr([]))])

  /** A request with a byte ceiling and no other knob. */
  const ONLY_BYTES := Request.Surface(None, false, false, None, [], [], None, None, 0, false, false, false, 0, 1)

  /** Nothing to report beside the answer itself. */
  const QUIET := Ambient([], [], false)

  /** A small case: `{"edges":[0,0,0,0,0,0,0,0,0,0],"nodes":[]}` and a byte ceiling alone. */
  lemma TenEdgesOverrun(tables: Tables) returns (max: nat)
    requires tables.resultKeys == SHIPPED_RESULT_KEYS
    ensures max > 0
    ensures var r := Apply(tables, WithBytes(ONLY_BYTES, max), TEN_EDGES, QUIET, None);
            r.Ok? && r.value.Obj? && Has(r.value.members, META_KEY) && EncodedLen(r.value) > max
  {
    hide *;
    TenEdgesIsWide(tables);
    TenEdgesReshapes(tables);
    max := SurfaceOverruns(tables, ONLY_BYTES, TEN_EDGES, QUIET, None, "nodes");
  }

  lemma TenEdgesMembers()
    ensures var ms := TEN_EDGES.members;
            && Find(ms, "nodes") == 1 && Get(ms, TRUNCATED_KEY).None? && Get(ms, META_KEY).None?
            && Get(ms, "error").None? && Get(ms, "ok").None? && Get(ms, "$schema").None?
  {
    var ms := TEN_EDGES.members;
    FindIs(ms, "nodes", 1);
    FindIs(ms, TRUNCATED_KEY, 2);
    FindIs(ms, META_KEY, 2);
    FindIs(ms, "error", 2);
    FindIs(ms, "ok", 2);
    FindIs(ms, "$schema", 2);
  }

  lemma TenEdgesIsWide(tables: Tables)
    ensures Wide(tables, ONLY_BYTES, TEN_EDGES, "nodes")
  {
    TenEdgesMembers();
    var ms := TEN_EDGES.members;
    var edges, nodes := ms[0], ms[1];
    assert ms == [] + [edges] + [nodes] && [] + [nodes] == [nodes];
    SecondaryAround([], edges, [nodes], Some("nodes"));
    assert edges.key[0] == 'e' && IsSecondary(edges, Some("nodes"));
  }

  lemma TenEdgesReshapes(tables: Tables)
    requires tables.resultKeys == SHIPPED_RESULT_KEYS
    ensures Reshapes(tables, ONLY_BYTES, TEN_EDGES, QUIET, None, "nodes") && Free("nodes")
  {
    TenEdgesMembers();
    var ms, keys := TEN_EDGES.members, SHIPPED_RESULT_KEYS;
    FindIs(ms, keys[0], 2);
    FindIs(ms, keys[1], 2);
    assert keys[1..][0] == keys[1] && keys[1..][1..][0] == keys[2];
    assert FirstDeclared(ms, keys) == FirstDeclared(ms, keys[1..]) == FirstDeclared(ms, keys[1..][1..]);
    assert Locate(TEN_EDGES, tables.resultKeys) == Some("nodes");
    TenEdgesIsWide(tables);
    WideLocated(tables, ONLY_BYTES, TEN_EDGES, "nodes");
    assert ArrayAt(TEN_EDGES, Some("nodes")) == Some([]);
  }
}
