/** The surface as the program runs it: an envelope and a record, changed step by step. */
module Shaping {
  import opened Wrappers
  import opened Json
  import opened Filter
  import opened Budget
  import opened Universe
  import opened Gate
  import opened Finalize
  import opened Surface
  import Request
  import Shape

  // ------------------------------------------------------------- the record

  /** The optional text as an optional member. */
  function TextIf(key: string, text: Option<string>): seq<Member> {
    if text.Some? then [Member(key, Str(text.value))] else []
  }

  lemma TextIfIs(key: string, text: Option<string>)
    ensures TextIf(key, text) == MemberIf(text.Some?, key, Str(if text.Some? then text.value else ""))
  {
  }

  method InsertText(base: seq<Member>, ghost soFar: seq<Member>, meta: seq<Member>, key: string, text: Option<string>)
    returns (r: seq<Member>)
    requires meta == PutAll(base, soFar)
    ensures r == PutAll(base, soFar + TextIf(key, text))
  {
    TextIfIs(key, text);
    InsertIf(base, soFar, text.Some?, key, Str(if text.Some? then text.value else ""));
    r := if text.Some? then Put(meta, key, Str(text.value)) else meta;
  }

  method Insert(base: seq<Member>, ghost soFar: seq<Member>, meta: seq<Member>, given: bool, key: string, v: Value)
    returns (r: seq<Member>)
    requires meta == PutAll(base, soFar)
    ensures r == PutAll(base, soFar + MemberIf(given, key, v))
  {
    InsertIf(base, soFar, given, key, v);
    r := if given then Put(meta, key, v) else meta;
  }

  /** `base_meta`. */
  method BaseMeta(s: Request.Surface, input: nat, output: nat, ceiling: Option<QueryCeiling>) returns (meta: seq<Member>)
    ensures meta == Record(input, output, RequestMembers(s, ceiling))
  {
    var base := [Member("input_count", Int(input)), Member("output_count", Int(output))];
    hide Put, CeilingMembers, TextList;
    ghost var m1 := MemberIf(s.select != [], "select", TextList(s.select));
    ghost var m2 := m1 + MemberIf(s.filters != [], "filters", Int(|s.filters|));
    ghost var m3 := m2 + TextIf("sort", s.sort);
    ghost var m4 := m3 + TextIf("dedupe_by", s.dedupeBy);
    ghost var m5 := m4 + MemberIf(s.maxItems > 0, "max_items", Int(s.maxItems));
    assert RequestMembers(s, ceiling) == m5 + CeilingMembers(ceiling) && [] + m1 == m1;
    hide MemberIf, TextIf, RequestMembers;
    meta := base;
    meta := Insert(base, [], meta, s.select != [], "select", TextList(s.select));
    meta := Insert(base, m1, meta, s.filters != [], "filters", Int(|s.filters|));
    meta := InsertText(base, m2, meta, "sort", s.sort);
    meta := InsertText(base, m3, meta, "dedupe_by", s.dedupeBy);
    meta := Insert(base, m4, meta, s.maxItems > 0, "max_items", Int(s.maxItems));
    PutAllConcat(base, m5, CeilingMembers(ceiling));
    meta := PutAll(meta, CeilingMembers(ceiling));
  }

  lemma RecordMore(input: nat, output: nat, a: seq<Member>, b: seq<Member>)
    ensures Record(input, output, a + b) == PutAll(Record(input, output, a), b)
  {
    PutAllConcat([Member("input_count", Int(input)), Member("output_count", Int(output))], a, b);
  }

  // ------------------------------------------------------------ the elements

  /** The element pipeline: filter, sort, dedupe, count the matches, limit, project. */
  method RunPipeline(s: Request.Surface, elements: seq<Value>, ctx: Filter.Context) returns (items: seq<Value>, matched: nat)
    ensures items == Emitted(s, elements, ctx) && matched == |Matched(s, elements, ctx)|
  {
    hide Shape.Kept, Shape.Sorted, Shape.Deduped, Shape.Limited, Shape.Projected;
    items := Shape.Kept(elements, s.filters, ctx);
    if s.sort.Some? {
      items := Shape.Sorted(items, s.sort.value, ctx);
    }
    if s.dedupeBy.Some? {
      items := Shape.Dedupe(items, s.dedupeBy.value, ctx.groups);
    }
    matched := |items|;
    items := Shape.Limited(items, s.maxItems);
    items := Shape.Projected(items, s.select, ctx.groups);
  }

  lemma TwoMembers(ms: seq<Member>, k: string, v: Value, k2: string, v2: Value)
    ensures PutAll(ms, [Member(k, v), Member(k2, v2)]) == Put(Put(ms, k, v), k2, v2)
  {
    assert [Member(k, v), Member(k2, v2)][1..] == [Member(k2, v2)];
    PutAllOne(Put(ms, k, v), k2, v2);
  }

  /** The record of a count. */
  method CountRecord(s: Request.Surface, input: nat, output: nat, scope: string, ceiling: Option<QueryCeiling>) returns (meta: seq<Member>)
    ensures meta == Record(input, output, RequestMembers(s, ceiling)
                                          + [Member("count_only", Bool(true)), Member("count_scope", Str(scope))] + [])
  {
    hide Record, RequestMembers, Put;
    meta := BaseMeta(s, input, output, ceiling);
    ghost var counted := [Member("count_only", Bool(true)), Member("count_scope", Str(scope))];
    RecordMore(input, output, RequestMembers(s, ceiling), counted);
    TwoMembers(meta, "count_only", Bool(true), "count_scope", Str(scope));
    assert RequestMembers(s, ceiling) + counted + [] == RequestMembers(s, ceiling) + counted;
    meta := Put(meta, "count_only", Bool(true));
    meta := Put(meta, "count_scope", Str(scope));
  }

  /** The record of a shaped envelope. */
  method ShapedRecord(s: Request.Surface, input: nat, output: nat, capped: seq<string>, ceiling: Option<QueryCeiling>)
    returns (meta: seq<Member>)
    ensures meta == Record(input, output, RequestMembers(s, ceiling) + MemberIf(s.countOnly, "count_only_suppressed", Bool(true))
                                          + MemberIf(capped != [], "secondary_capped", TextList(capped)) + [])
  {
    hide Record, RequestMembers, Put, TextList;
    meta := BaseMeta(s, input, output, ceiling);
    ghost var requested := RequestMembers(s, ceiling);
    ghost var suppressed := MemberIf(s.countOnly, "count_only_suppressed", Bool(true));
    ghost var secondary := MemberIf(capped != [], "secondary_capped", TextList(capped));
    RecordMore(input, output, requested, suppressed);
    RecordMore(input, output, requested + suppressed, secondary);
    assert requested + suppressed + secondary + [] == requested + suppressed + secondary;
    assert [] + suppressed == suppressed && [] + secondary == secondary;
    meta := Insert(meta, [], meta, s.countOnly, "count_only_suppressed", Bool(true));
    meta := Insert(meta, [], meta, capped != [], "secondary_capped", TextList(capped));
  }

  /** `shape_items`. */
  method ShapeElements(s: Request.Surface, envelope: Value, key: Option<string>, elements: seq<Value>,
                       ceiling: Option<QueryCeiling>, ctx: Filter.Context) returns (payload: Value, meta: seq<Member>)
    ensures Shaped(payload, meta) == ShapeItems(s, envelope, key, elements, ceiling, ctx, [])
  {
    hide Record, Emitted, Matched, RequestMembers, Capped, CappedNames, TextList, Put, MemberIf;
    var items, matched := RunPipeline(s, elements, ctx);
    if s.countOnly && !s.writesReceipt {
      meta := CountRecord(s, |elements|, |items|, ScopeOfCount(|items|, matched, ceiling).Name(), ceiling);
      payload := Obj([Member("count", Int(|items|))]);
      return;
    }
    var capped;
    payload, capped := CapSecondaryArrays(envelope, s.maxItems);
    if key.None? {
      payload := Arr(items);
    } else if payload.Obj? {
      payload := Obj(Put(payload.members, key.value, Arr(items)));
    }
    meta := ShapedRecord(s, |elements|, |items|, capped, ceiling);
  }

  /** `shape_scalar_envelope`. */
  method ShapeScalarEnvelope(s: Request.Surface, envelope: Value, ceiling: Option<QueryCeiling>, ctx: Filter.Context)
    returns (payload: Value, meta: seq<Member>)
    ensures Shaped(payload, meta) == ShapeScalar(s, envelope, ceiling, ctx, [])
  {
    hide Record, RequestMembers, Put, Shape.ProjectOne;
    if s.countOnly && !s.writesReceipt {
      meta := CountRecord(s, 1, 1, "matched", ceiling);
      payload := Obj([Member("count", Int(1))]);
    } else {
      meta := ShapedRecord(s, 1, 1, [], ceiling);
      payload := Shape.ProjectOne(envelope, s.select, ctx.groups);
      ghost var asked := RequestMembers(s, ceiling) + MemberIf(s.countOnly, "count_only_suppressed", Bool(true));
      assert asked + [] + [] == asked + [];
    }
  }

  // -------------------------------------------------------- the whole surface

  lemma RecordAndMore(input: nat, output: nat, a: seq<Member>, more: seq<Member>)
    ensures Record(input, output, a + more) == PutAll(Record(input, output, a + []), more)
  {
    assert a + [] == a;
    RecordMore(input, output, a, more);
  }

  /** Later members are written over the shaped record. */
  lemma ShapeItemsMore(s: Request.Surface, envelope: Value, key: Option<string>, items: seq<Value>,
                       ceiling: Option<QueryCeiling>, ctx: Filter.Context, more: seq<Member>)
    ensures var r := ShapeItems(s, envelope, key, items, ceiling, ctx, []);
            ShapeItems(s, envelope, key, items, ceiling, ctx, more) == Shaped(r.payload, PutAll(r.meta, more))
  {
    hide Record, Emitted, Matched, RequestMembers, Capped, CappedNames, TextList, PutAll, MemberIf;
    var n, m := |Emitted(s, items, ctx)|, |Matched(s, items, ctx)|;
    if s.countOnly && !s.writesReceipt {
      RecordAndMore(|items|, n, RequestMembers(s, ceiling) + [Member("count_only", Bool(true)),
                    Member("count_scope", Str(ScopeOfCount(n, m, ceiling).Name()))], more);
    } else {
      var capped := CappedNames(envelope, s.maxItems);
      RecordAndMore(|items|, n, RequestMembers(s, ceiling) + MemberIf(s.countOnly, "count_only_suppressed", Bool(true))
                                + MemberIf(capped != [], "secondary_capped", TextList(capped)), more);
    }
  }

  lemma ShapeScalarMore(s: Request.Surface, envelope: Value, ceiling: Option<QueryCeiling>, ctx: Filter.Context, more: seq<Member>)
    ensures var r := ShapeScalar(s, envelope, ceiling, ctx, []);
            ShapeScalar(s, envelope, ceiling, ctx, more) == Shaped(r.payload, PutAll(r.meta, more))
  {
    hide Record, RequestMembers, PutAll, MemberIf;
    if s.countOnly && !s.writesReceipt {
      RecordAndMore(1, 1, RequestMembers(s, ceiling) + [Member("count_only", Bool(true)), Member("count_scope", Str("matched"))], more);
    } else {
      RecordAndMore(1, 1, RequestMembers(s, ceiling) + MemberIf(s.countOnly, "count_only_suppressed", Bool(true)), more);
    }
  }

  /** `suppress_alias_arrays`: removes the derived arrays in declaration order. */
  method SuppressAliases(ms: seq<Member>, derived: seq<string>) returns (r: seq<Member>, removed: seq<string>)
    ensures r == RemoveArrays(ms, derived) && removed == RemovedArrays(ms, derived)
    ensures Sorted(ms) ==> forall k :: k in removed <==> k in derived && HoldsArray(ms, k)
    ensures Sorted(ms) ==> forall k :: Get(r, k) == if k in removed then None else Get(ms, k)
  {
    r, removed := ms, [];
    for i := 0 to |derived|
      invariant RemoveArrays(r, derived[i..]) == RemoveArrays(ms, derived)
      invariant removed + RemovedArrays(r, derived[i..]) == RemovedArrays(ms, derived)
    {
      AliasStep(removed, r, derived, i);
      hide RemoveArrays, RemovedArrays;
      if HoldsArray(r, derived[i]) {
        r, removed := Remove(r, derived[i]), removed + [derived[i]];
      }
    }
    if Sorted(ms) {
      forall k ensures k in removed <==> k in derived && HoldsArray(ms, k)
        ensures Get(r, k) == if k in removed then None else Get(ms, k)
      {
        SuppressionIff(ms, derived, k);
      }
    }
  }

  lemma AliasStep(removed: seq<string>, ms: seq<Member>, derived: seq<string>, i: nat)
    requires i < |derived|
    ensures var next := if HoldsArray(ms, derived[i]) then Remove(ms, derived[i]) else ms;
            && RemoveArrays(ms, derived[i..]) == RemoveArrays(next, derived[i + 1..])
            && removed + RemovedArrays(ms, derived[i..]) ==
               (if HoldsArray(ms, derived[i]) then removed + [derived[i]] else removed) + RemovedArrays(next, derived[i + 1..])
  {
    assert derived[i..][1..] == derived[i + 1..];
    hide HoldsArray, Remove;
  }

  /** Shapes what is left of the envelope, with or without a result array. */
  method ShapeEither(s: Request.Surface, rest: Value, key: Option<string>, items: Option<seq<Value>>,
                     ceiling: Option<QueryCeiling>, ctx: Filter.Context, ghost more: seq<Member>)
    returns (payload: Value, meta: seq<Member>)
    ensures Shaped(payload, PutAll(meta, more)) ==
            if items.Some? then ShapeItems(s, rest, key, items.value, ceiling, ctx, more)
            else ShapeScalar(s, rest, ceiling, ctx, more)
  {
    hide ShapeItems, ShapeScalar, PutAll;
    if items.Some? {
      payload, meta := ShapeElements(s, rest, key, items.value, ceiling, ctx);
      ShapeItemsMore(s, rest, key, items.value, ceiling, ctx, more);
    } else {
      payload, meta := ShapeScalarEnvelope(s, rest, ceiling, ctx);
      ShapeScalarMore(s, rest, ceiling, ctx, more);
    }
  }

  /** `apply_with_premises`. */
  method ApplyWithPremises(tables: Tables, s: Request.Surface, v: Value, ambient: Ambient, ceiling: Option<QueryCeiling>)
    returns (r: Result<Value, Refusal>)
    ensures r == Apply(tables, s, v, ambient, ceiling)
  {
    hide Finalized, ShapeItems, ShapeScalar, Evaluate, AmbientMembers, RemoveArrays, RemovedArrays, PutAll,
         ArrayAt, WithArray, Attach, DerivedFor, Locate;
    if IsPassthrough(v) {
      return Ok(v);
    }
    if s.IsNoop() {
      return Ok(if ambient.target == [] then v else Attach(v, ambient.target, false));
    }
    var ctx := tables.Context(s);
    var key := Locate(v, tables.resultKeys);
    var derived := DerivedFor(tables.aliases, s.command, key);
    var value, removed := v, [];
    if v.Obj? {
      var ms;
      ms, removed := SuppressAliases(v.members, derived);
      value := Obj(ms);
    }
    var items := ArrayAt(value, key);
    var rest := WithArray(value, key, []);
    var declared := Declared(tables, key);
    var verdict := Evaluate(s, Scope(if items.Some? then items.value else [], rest, ctx.groups), declared, items.Some?, ceiling);
    if verdict.Err? {
      return Err(verdict.error);
    }
    var more := AmbientMembers(ambient, removed, verdict.value, key, declared);
    var payload, meta := ShapeEither(s, rest, key, items, ceiling, ctx, more);
    meta := PutAll(meta, more);
    var emitted := Finish(payload, key, meta, s.truncateContent, s.maxOutputBytes);
    return Ok(emitted);
  }
}
