/**
 What an answer says about itself, read off the emitted value: what was cut, what
 was asked for, and which members were left alone.
 */
module Reports {
  import opened Wrappers
  import opened Json
  import opened Filter
  import opened Budget
  import opened Universe
  import opened Gate
  import opened Finalize
  import opened Surface
  import opened Promises
  import opened Answers
  import Overruns
  import Request
  import Shape
  import Pipeline
  import Texts

  // ------------------------------------------------------------ what was cut

  /** The members of a record, if the value carries one. */
  function RecordOf(r: Value): Option<seq<Member>> {
    if !r.Obj? then None
    else match Get(r.members, META_KEY) case Some(Obj(meta)) => Some(meta) case _ => None
  }

  /** The record of `r` reports a cut by `gone` elements under the ceiling `max`. */
  predicate ReportsCut(r: Value, gone: int, max: nat) {
    && RecordOf(r).Some?
    && Get(RecordOf(r).value, "output_truncated") == Some(Bool(true))
    && Get(RecordOf(r).value, "dropped") == Some(Int(gone))
    && Get(RecordOf(r).value, "max_output_bytes") == Some(Int(max))
    && Get(r.members, "truncated") == Some(Bool(true))
  }

  lemma CutRecordReads(meta: seq<Member>, key: Option<string>, cut: Value, o: Outcome, max: nat)
    ensures var record := CutRecord(meta, key, cut, o, max);
            && Get(record, "output_truncated") == Some(Bool(true)) && Get(record, "dropped") == Some(Int(o.dropped))
            && Get(record, "max_output_bytes") == Some(Int(max))
            && (ArrayAt(cut, key).Some? ==> Get(record, "output_count") == Some(Int(|ItemsAt(cut, key)|)))
            && (ArrayAt(cut, key).None? ==> Get(record, "output_count") == Get(meta, "output_count"))
  {
    hide Get, Put;
    var a := Put(meta, "output_truncated", Bool(true));
    var b := Put(a, "dropped", Int(o.dropped));
    var c := Put(b, "max_output_bytes", Int(max));
    GetPut(meta, "output_truncated", Bool(true), "output_truncated");
    GetPut(a, "dropped", Int(o.dropped), "output_truncated");
    GetPut(b, "max_output_bytes", Int(max), "output_truncated");
    GetPut(a, "dropped", Int(o.dropped), "dropped");
    GetPut(b, "max_output_bytes", Int(max), "dropped");
    GetPut(b, "max_output_bytes", Int(max), "max_output_bytes");
    RecordCutGet(meta, o.dropped, max, "output_count");
    if ArrayAt(cut, key).Some? {
      var n := Int(|ItemsAt(cut, key)|);
      GetPut(c, "output_count", n, "output_truncated");
      GetPut(c, "output_count", n, "dropped");
      GetPut(c, "output_count", n, "max_output_bytes");
      GetPut(c, "output_count", n, "output_count");
    }
  }

  /** Annotating a cut envelope leaves every array its elements. */
  lemma AttachKeepsElements(cut: Value, key: Option<string>, was: seq<Member>, meta: seq<Member>)
    requires cut.Obj? && FlagIsBoolean(cut) && Get(cut.members, META_KEY) == Some(Obj(was))
    requires key.Some? ==> Free(key.value)
    ensures Elements(Attach(cut, meta, true), key) == Elements(cut, key)
  {
    var recorded := Put(cut.members, META_KEY, Obj(meta));
    GetPut(cut.members, META_KEY, Obj(meta), TRUNCATED_KEY);
    hide Put, SecondaryCount, Get;
    Overruns.SecondaryPut(cut.members, key, META_KEY, Obj(meta));
    Overruns.SecondaryPut(recorded, key, TRUNCATED_KEY, Bool(true));
    if key.Some? {
      AttachGet(cut.members, meta, true, key.value);
      assert ArrayAt(Attach(cut, meta, true), key) == ArrayAt(cut, key) by {
        SameMember(Attach(cut, meta, true), cut, key.value);
      }
    }
  }

  lemma SameMember(a: Value, b: Value, k: string)
    requires a.Obj? && b.Obj? && Get(a.members, k) == Get(b.members, k)
    ensures ArrayAt(a, Some(k)) == ArrayAt(b, Some(k))
  {
  }

  lemma UncutIsAsItWas(v: Value, key: Option<string>, max: nat)
    ensures !Enforced(v, key, max).1.truncated ==> Enforced(v, key, max).0 == v && !Enforced(v, key, max).1.stub
  {
  }

  /** Under a ceiling an annotated envelope comes out as the stub, or as it was, or shorter; and then its
      record reports exactly the elements that are missing and the ceiling that was asked for. */
  lemma CutIsOnRecord(p: Value, key: Option<string>, m: seq<Member>, max: nat)
    requires p.Obj? && FlagIsBoolean(p) && Get(p.members, META_KEY) == Some(Obj(m))
    requires key.Some? ==> Free(key.value)
    ensures var r := WithCeiling(p, key, m, max);
            || r == Stub(max) || r == p
            || (Elements(r, key) < Elements(p, key) && ReportsCut(r, Elements(p, key) - Elements(r, key), max))
  {
    hide EffectiveMax, EncodedLen, Elements, CutRecord, Get, Enforced, Attach, Stub;
    var eff := EffectiveMax(p, m, max);
    var (cut, o) := Enforced(p, key, eff);
    UncutIsAsItWas(p, key, eff);
    if o.stub {
      Overruns.StubIff(p, key, m, max);
    } else if o.truncated {
      CutSurvivors(p, key, m, eff);
      CutIsReported(p, key, eff);
      DroppedIsWhatIsMissing(p, key, eff);
      var record := CutRecord(m, key, cut, o, max);
      CutRecordReads(m, key, cut, o, max);
      AttachGet(cut.members, record, true, META_KEY);
      AttachKeepsElements(cut, key, m, record);
    }
  }

  /** The last stage leaves every other member of the record alone. */
  lemma RestOfRecordStays(p: Value, key: Option<string>, m: seq<Member>, max: nat, k: string)
    requires p.Obj? && FlagIsBoolean(p) && Get(p.members, META_KEY) == Some(Obj(m))
    requires WithCeiling(p, key, m, max) != Stub(max)
    requires k != "output_truncated" && k != "dropped" && k != "max_output_bytes" && k != "output_count"
    ensures RecordOf(WithCeiling(p, key, m, max)).Some? && Get(RecordOf(WithCeiling(p, key, m, max)).value, k) == Get(m, k)
  {
    hide EffectiveMax, EncodedLen, Elements, CutRecord, Get, Enforced, Attach, Stub;
    var eff := EffectiveMax(p, m, max);
    var (cut, o) := Enforced(p, key, eff);
    UncutIsAsItWas(p, key, eff);
    if o.stub {
      Overruns.StubIff(p, key, m, max);
    } else if o.truncated {
      CutSurvivors(p, key, m, eff);
      AttachGet(cut.members, CutRecord(m, key, cut, o, max), true, META_KEY);
      CutRecordKeeps(m, key, cut, o, max, k);
    }
  }

  lemma CutRecordKeeps(meta: seq<Member>, key: Option<string>, cut: Value, o: Outcome, max: nat, k: string)
    requires k != "output_truncated" && k != "dropped" && k != "max_output_bytes" && k != "output_count"
    ensures Get(CutRecord(meta, key, cut, o, max), k) == Get(meta, k)
  {
    hide Get, RecordCut;
    RecordCutGet(meta, o.dropped, max, k);
    if ArrayAt(cut, key).Some? {
      GetPut(RecordCut(meta, o.dropped, max), "output_count", Int(|ItemsAt(cut, key)|), k);
    }
  }

  /** What the last stage starts from, for any answer. */
  lemma BeforeCeilingIsAnnotated(tables: Tables, s: Request.Surface, v: Value, ambient: Ambient, ceiling: Option<QueryCeiling>)
    requires Answered(tables, s, v, ambient, ceiling) && FlagIsBoolean(v)
    ensures var before := BeforeCeiling(tables, s, v, ambient, ceiling);
            && FlagIsBoolean(before.payload)
            && (before.payload.Obj? ==> Get(before.payload.members, META_KEY) == Some(Obj(before.meta)))
            && Apply(tables, s, v, ambient, ceiling) ==
               Ok(WithCeiling(before.payload, Locate(v, tables.resultKeys), before.meta, s.maxOutputBytes))
  {
    var shaped := Reshaped(tables, s, v, ambient, ceiling).value;
    AnswerIsSane(tables, s, v, ambient, ceiling);
    hide Reshaped, InputCount, OutputCount, Counts, ArrayAt, FlagIsBoolean, Locate, Recorded, ContentMeta, CutContent, WithCeiling, Get;
    RecordedIsCounted(shaped.payload, Locate(v, tables.resultKeys), shaped.meta, s.truncateContent,
                      InputCount(tables, s, v), OutputCount(tables, s, v));
  }

  /** Every answer that carries a record: nothing was cut, or it is the stub, or its record reports exactly the
      elements missing from it and the ceiling that was asked for. */
  lemma AnswerReportsItsCut(tables: Tables, s: Request.Surface, v: Value, ambient: Ambient, ceiling: Option<QueryCeiling>)
    requires Answered(tables, s, v, ambient, ceiling) && FlagIsBoolean(v)
    requires Locate(v, tables.resultKeys).Some? ==> Free(Locate(v, tables.resultKeys).value)
    ensures var before := BeforeCeiling(tables, s, v, ambient, ceiling).payload;
            var key := Locate(v, tables.resultKeys);
            var r := Apply(tables, s, v, ambient, ceiling);
            && r.Ok?
            && (before.Obj? ==>
                  || r.value == Stub(s.maxOutputBytes) || r.value == before
                  || (Elements(r.value, key) < Elements(before, key)
                      && ReportsCut(r.value, Elements(before, key) - Elements(r.value, key), s.maxOutputBytes)))
  {
    hide Reshaped, WithCeiling, Locate, Apply, ReportsCut, Elements, FlagIsBoolean, Get, Free, IsPassthrough;
    var before := BeforeCeiling(tables, s, v, ambient, ceiling);
    BeforeCeilingIsAnnotated(tables, s, v, ambient, ceiling);
    if before.payload.Obj? {
      CutIsOnRecord(before.payload, Locate(v, tables.resultKeys), before.meta, s.maxOutputBytes);
    }
  }

  // ------------------------------------------------------ what was asked for

  /** What a record says about the limit of the query. */
  function ToldOfQuery(ceiling: Option<QueryCeiling>, k: string): Option<Value> {
    if ceiling.None? then None
    else
      var c := ceiling.value;
      var partial := c.kind == Pagination && (c.offset > 0 || (c.universeTotal.Some? && c.applied < c.universeTotal.value));
      if k == "query_limited" then Some(Bool(true))
      else if k == "query_limit" then Some(Int(c.applied))
      else if k == "query_limit_source" then Some(Str(if c.source == Flag then "flag" else "default"))
      else if k == "query_limit_kind" then Some(Str(if c.kind == TopK then "top-k" else "pagination"))
      else if k == "universe_total" then (match c.universeTotal case Some(n) => Some(Int(n)) case None => None)
      else if k == "filter_scope" then Some(Str(if c.kind == TopK then "top-k" else if partial then "page" else "universe"))
      else if k == "filter_incomplete" then FlagOnly(partial)
      else None
  }

  lemma QueryIsTold(ceiling: Option<QueryCeiling>, k: string)
    ensures LastOf(CeilingMembers(ceiling), k) == ToldOfQuery(ceiling, k)
  {
    if ceiling.Some? {
      var c := ceiling.value;
      var four := [Member("query_limited", Bool(true)), Member("query_limit", Int(c.applied)),
                   Member("query_limit_source", Str(c.source.Name())), Member("query_limit_kind", Str(c.kind.Name()))];
      var total := if c.universeTotal.Some? then [Member("universe_total", Int(c.universeTotal.value))] else [];
      var scope := [Member("filter_scope", Str(ScopeName(c)))];
      var partial := if ScopeName(c) == "page" then [Member("filter_incomplete", Bool(true))] else [];
      hide LastOf, ScopeName;
      LastOfConcat(four + total + scope, partial, k);
      LastOfConcat(four + total, scope, k);
      LastOfConcat(four, total, k);
      FourMembers(four, k);
      NoMember(k);
      OneMember("universe_total", Int(if c.universeTotal.Some? then c.universeTotal.value else 0), k);
      OneMember("filter_scope", Str(ScopeName(c)), k);
      OneMember("filter_incomplete", Bool(true), k);
      ScopeNameIs(c);
    }
  }

  lemma ScopeNameIs(c: QueryCeiling)
    ensures var partial := c.kind == Pagination && (c.offset > 0 || (c.universeTotal.Some? && c.applied < c.universeTotal.value));
            && ScopeName(c) == (if c.kind == TopK then "top-k" else if partial then "page" else "universe")
            && (ScopeName(c) == "page" <==> partial)
  {
    assert |"page"| == 4 && |"top-k"| == 5 && |"universe"| == 8;
  }

  lemma FourMembers(ms: seq<Member>, k: string)
    requires |ms| == 4
    ensures LastOf(ms, k) == if ms[3].key == k then Some(ms[3].value) else if ms[2].key == k then Some(ms[2].value)
                             else if ms[1].key == k then Some(ms[1].value) else if ms[0].key == k then Some(ms[0].value) else None
  {
    ThreeMembers(ms[..3], k);
  }

  /** What a record says about the request. */
  function ToldOfRequest(s: Request.Surface, ceiling: Option<QueryCeiling>, k: string): Option<Value> {
    if k == "select" then ListIf(s.select)
    else if k == "filters" then NumberIf(|s.filters|)
    else if k == "sort" then TextIf(s.sort)
    else if k == "dedupe_by" then TextIf(s.dedupeBy)
    else if k == "max_items" then NumberIf(s.maxItems)
    else ToldOfQuery(ceiling, k)
  }

  lemma QueryIsAnotherMatter(ceiling: Option<QueryCeiling>, k: string)
    requires k == "select" || k == "filters" || k == "sort" || k == "dedupe_by" || k == "max_items"
    ensures ToldOfQuery(ceiling, k) == None
  {
  }

  lemma RequestIsTold(s: Request.Surface, ceiling: Option<QueryCeiling>, k: string)
    ensures LastOf(RequestMembers(s, ceiling), k) == ToldOfRequest(s, ceiling, k)
  {
    hide CeilingMembers, TextList, ToldOfQuery, MemberIf, LastOf;
    NoMember(k);
    OneMember("sort", Str(if s.sort.Some? then s.sort.value else ""), k);
    OneMember("dedupe_by", Str(if s.dedupeBy.Some? then s.dedupeBy.value else ""), k);
    var select := MemberIf(s.select != [], "select", TextList(s.select));
    var filters := MemberIf(s.filters != [], "filters", Int(|s.filters|));
    var sort := if s.sort.Some? then [Member("sort", Str(s.sort.value))] else [];
    var dedupe := if s.dedupeBy.Some? then [Member("dedupe_by", Str(s.dedupeBy.value))] else [];
    var items := MemberIf(s.maxItems > 0, "max_items", Int(s.maxItems));
    LastOfConcat(select + filters + sort + dedupe + items, CeilingMembers(ceiling), k);
    LastOfConcat(select + filters + sort + dedupe, items, k);
    LastOfConcat(select + filters + sort, dedupe, k);
    LastOfConcat(select + filters, sort, k);
    LastOfConcat(select, filters, k);
    LastOfIf(s.select != [], "select", TextList(s.select), k);
    LastOfIf(s.filters != [], "filters", Int(|s.filters|), k);
    LastOfIf(s.maxItems > 0, "max_items", Int(s.maxItems), k);
    QueryIsTold(ceiling, k);
    if k == "select" || k == "filters" || k == "sort" || k == "dedupe_by" || k == "max_items" {
      QueryIsAnotherMatter(ceiling, k);
    }
  }

  /** What a record says about aliases, keys and the array it is about. */
  function ToldOfContext(ambient: Ambient, removed: seq<string>, findings: Findings, key: Option<string>, declared: bool, k: string)
    : Option<Value>
  {
    if k == "aliases_removed" then ListIf(removed)
    else if k == "unresolved_keys" then ListIf(findings.unresolved)
    else if k == "resolved_keys" then (if findings.unresolved == [] then None else Some(TextList(findings.resolved)))
    else if k == "key_resolution" then (if findings.unresolved == [] then None else Some(Str("partial")))
    else if k == "key_suggestions" then (if findings.unresolved == [] then None else ListIf(ambient.suggestions))
    else if k == "vocabulary_partial" then FlagOnly(findings.unresolved != [] && ambient.vocabularyPartial)
    else if k == "result_array_source" then (if key.None? then None else Some(Str(if declared then "declared" else "fallback")))
    else None
  }

  lemma KeysAreTold(ambient: Ambient, findings: Findings, k: string)
    requires findings.unresolved != []
    ensures LastOf([Member("unresolved_keys", TextList(findings.unresolved)), Member("resolved_keys", TextList(findings.resolved)),
                    Member("key_resolution", Str("partial"))]
                   + MemberIf(ambient.suggestions != [], "key_suggestions", TextList(ambient.suggestions))
                   + MemberIf(ambient.vocabularyPartial, "vocabulary_partial", Bool(true)), k) ==
            if k == "unresolved_keys" then Some(TextList(findings.unresolved))
            else if k == "resolved_keys" then Some(TextList(findings.resolved))
            else if k == "key_resolution" then Some(Str("partial"))
            else if k == "key_suggestions" then ListIf(ambient.suggestions)
            else if k == "vocabulary_partial" then FlagOnly(ambient.vocabularyPartial)
            else None
  {
    hide TextList, MemberIf;
    var three := [Member("unresolved_keys", TextList(findings.unresolved)), Member("resolved_keys", TextList(findings.resolved)),
                  Member("key_resolution", Str("partial"))];
    var advice := MemberIf(ambient.suggestions != [], "key_suggestions", TextList(ambient.suggestions));
    LastOfConcat(three + advice, MemberIf(ambient.vocabularyPartial, "vocabulary_partial", Bool(true)), k);
    LastOfConcat(three, advice, k);
    LastOfIf(ambient.suggestions != [], "key_suggestions", TextList(ambient.suggestions), k);
    LastOfIf(ambient.vocabularyPartial, "vocabulary_partial", Bool(true), k);
    ThreeMembers(three, k);
  }

  lemma ContextIsTold(ambient: Ambient, removed: seq<string>, findings: Findings, key: Option<string>, declared: bool, k: string)
    requires Lacks(ambient.target, k)
    ensures LastOf(AmbientMembers(ambient, removed, findings, key, declared), k) ==
            ToldOfContext(ambient, removed, findings, key, declared, k)
  {
    hide TextList, MemberIf;
    var aliases := MemberIf(removed != [], "aliases_removed", TextList(removed));
    var keys := if findings.unresolved == [] then [] else
      [Member("unresolved_keys", TextList(findings.unresolved)), Member("resolved_keys", TextList(findings.resolved)),
       Member("key_resolution", Str("partial"))]
      + MemberIf(ambient.suggestions != [], "key_suggestions", TextList(ambient.suggestions))
      + MemberIf(ambient.vocabularyPartial, "vocabulary_partial", Bool(true));
    var name := Str(if declared then "declared" else "fallback");
    LastOfConcat(ambient.target + aliases + keys, MemberIf(key.Some?, "result_array_source", name), k);
    LastOfConcat(ambient.target + aliases, keys, k);
    LastOfConcat(ambient.target, aliases, k);
    LastOfLacking(ambient.target, k);
    LastOfIf(removed != [], "aliases_removed", TextList(removed), k);
    LastOfIf(key.Some?, "result_array_source", name, k);
    if findings.unresolved != [] {
      KeysAreTold(ambient, findings, k);
    }
  }

  /** What a record says about the shaping itself: the counting, the arrays capped beside the result. */
  function ToldOfShaping(tables: Tables, s: Request.Surface, v: Value, ceiling: Option<QueryCeiling>, k: string): Option<Value> {
    var located := LocateIn(tables, s, v);
    var hasArray := ArrayAt(located.value, located.key).Some?;
    var items := ItemsAt(located.value, located.key);
    var counts := s.countOnly && !s.writesReceipt;
    if k == "count_only" then FlagOnly(counts)
    else if k == "count_scope" then
      (if !counts then None
       else if !hasArray then Some(Str("matched"))
       else Some(Str(ScopeOfCount(|Emitted(s, items, tables.Context(s))|, |Matched(s, items, tables.Context(s))|, ceiling).Name())))
    else if k == "count_only_suppressed" then FlagOnly(s.countOnly && s.writesReceipt)
    else if k == "secondary_capped" then
      (if counts || !hasArray then None else ListIf(CappedNames(WithArray(located.value, located.key, []), s.maxItems)))
    else None
  }

  function ToldOfInput(input: nat, output: nat, k: string): Option<Value> {
    if k == "input_count" then Some(Int(input)) else if k == "output_count" then Some(Int(output)) else None
  }

  lemma RecordReads(input: nat, output: nat, a: seq<Member>, b: seq<Member>, c: seq<Member>, k: string)
    ensures Get(Record(input, output, a + b + c), k) ==
            Or(LastOf(c, k), Or(LastOf(b, k), Or(LastOf(a, k), ToldOfInput(input, output, k))))
  {
    hide LastOf;
    var base := [Member("input_count", Int(input)), Member("output_count", Int(output))];
    GetPutAll(base, a + b + c, k);
    LastOfConcat(a + b, c, k);
    LastOfConcat(a, b, k);
    BaseReads(input, output, k);
  }

  lemma BaseReads(input: nat, output: nat, k: string)
    ensures Get([Member("input_count", Int(input)), Member("output_count", Int(output))], k) == ToldOfInput(input, output, k)
  {
    var base := [Member("input_count", Int(input)), Member("output_count", Int(output))];
    if k == "input_count" {
      FindIs(base, k, 0);
    } else if k == "output_count" {
      FindIs(base, k, 1);
    } else {
      FindIs(base, k, 2);
    }
  }

  lemma TwoIfs(a: bool, ka: string, va: Value, b: bool, kb: string, vb: Value, k: string)
    requires ka != kb
    ensures LastOf(MemberIf(a, ka, va) + MemberIf(b, kb, vb), k) ==
            if b && k == kb then Some(vb) else if a && k == ka then Some(va) else None
  {
    hide LastOf, MemberIf;
    LastOfConcat(MemberIf(a, ka, va), MemberIf(b, kb, vb), k);
    LastOfIf(a, ka, va, k);
    LastOfIf(b, kb, vb, k);
  }

  lemma TwoMembers(ka: string, va: Value, kb: string, vb: Value, k: string)
    requires ka != kb
    ensures LastOf([Member(ka, va), Member(kb, vb)], k) == if k == kb then Some(vb) else if k == ka then Some(va) else None
  {
    assert [Member(ka, va), Member(kb, vb)][..1] == [Member(ka, va)];
    OneMember(ka, va, k);
  }

  lemma ItemsRecordReads(s: Request.Surface, rest: Value, key: Option<string>, items: seq<Value>,
                         ceiling: Option<QueryCeiling>, ctx: Filter.Context, more: seq<Member>, k: string)
    ensures var n, m := |Emitted(s, items, ctx)|, |Matched(s, items, ctx)|;
            var counts := s.countOnly && !s.writesReceipt;
            var own := if k == "count_only" then FlagOnly(counts)
                       else if k == "count_scope" then (if counts then Some(Str(ScopeOfCount(n, m, ceiling).Name())) else None)
                       else if k == "count_only_suppressed" then FlagOnly(s.countOnly && s.writesReceipt)
                       else if k == "secondary_capped" then (if counts then None else ListIf(CappedNames(rest, s.maxItems)))
                       else None;
            Get(ShapeItems(s, rest, key, items, ceiling, ctx, more).meta, k) ==
            Or(LastOf(more, k), Or(own, Or(ToldOfRequest(s, ceiling, k), ToldOfInput(|items|, n, k))))
  {
    hide Emitted, Matched, RequestMembers, ToldOfRequest, ToldOfInput, CappedNames, Capped, TextList, LastOf, ScopeOfCount, Record, Get, MemberIf;
    var n, m := |Emitted(s, items, ctx)|, |Matched(s, items, ctx)|;
    var asked := RequestMembers(s, ceiling);
    RequestIsTold(s, ceiling, k);
    if s.countOnly && !s.writesReceipt {
      var scope := Str(ScopeOfCount(n, m, ceiling).Name());
      TwoMembers("count_only", Bool(true), "count_scope", scope, k);
      RecordReads(|items|, n, asked, [Member("count_only", Bool(true)), Member("count_scope", scope)], more, k);
    } else {
      var capped := CappedNames(rest, s.maxItems);
      var a := MemberIf(s.countOnly, "count_only_suppressed", Bool(true));
      var b := MemberIf(capped != [], "secondary_capped", TextList(capped));
      TwoIfs(s.countOnly, "count_only_suppressed", Bool(true), capped != [], "secondary_capped", TextList(capped), k);
      assert asked + a + b + more == asked + (a + b) + more;
      RecordReads(|items|, n, asked, a + b, more, k);
    }
  }

  lemma ScalarRecordReads(s: Request.Surface, rest: Value, ceiling: Option<QueryCeiling>, ctx: Filter.Context, more: seq<Member>, k: string)
    ensures var counts := s.countOnly && !s.writesReceipt;
            var own := if k == "count_only" then FlagOnly(counts)
                       else if k == "count_scope" then (if counts then Some(Str("matched")) else None)
                       else if k == "count_only_suppressed" then FlagOnly(s.countOnly && s.writesReceipt)
                       else None;
            Get(ShapeScalar(s, rest, ceiling, ctx, more).meta, k) ==
            Or(LastOf(more, k), Or(own, Or(ToldOfRequest(s, ceiling, k), ToldOfInput(1, 1, k))))
  {
    hide RequestMembers, ToldOfRequest, ToldOfInput, LastOf, Record, Get, MemberIf;
    RequestIsTold(s, ceiling, k);
    if s.countOnly && !s.writesReceipt {
      TwoMembers("count_only", Bool(true), "count_scope", Str("matched"), k);
      RecordReads(1, 1, RequestMembers(s, ceiling), [Member("count_only", Bool(true)), Member("count_scope", Str("matched"))], more, k);
    } else {
      LastOfIf(s.countOnly, "count_only_suppressed", Bool(true), k);
      RecordReads(1, 1, RequestMembers(s, ceiling), MemberIf(s.countOnly, "count_only_suppressed", Bool(true)), more, k);
    }
  }

  /** What the gate said about the keys of the request. */
  function FindingsOn(tables: Tables, s: Request.Surface, v: Value, ceiling: Option<QueryCeiling>): Result<Findings, Refusal> {
    var located := LocateIn(tables, s, v);
    var items := ArrayAt(located.value, located.key);
    Evaluate(s, Scope(if items.Some? then items.value else [], WithArray(located.value, located.key, []), tables.Context(s).groups),
             Declared(tables, located.key), items.Some?, ceiling)
  }

  /** What a record says before anything is cut, member by member. */
  function Told(tables: Tables, s: Request.Surface, v: Value, ambient: Ambient, ceiling: Option<QueryCeiling>, k: string): Option<Value>
    requires FindingsOn(tables, s, v, ceiling).Ok?
  {
    var located := LocateIn(tables, s, v);
    Or(ToldOfContext(ambient, located.removed, FindingsOn(tables, s, v, ceiling).value, located.key, Declared(tables, located.key), k),
       Or(ToldOfShaping(tables, s, v, ceiling, k),
          Or(ToldOfRequest(s, ceiling, k), ToldOfInput(InputCount(tables, s, v), OutputCount(tables, s, v), k))))
  }

  lemma ShapedRecordReads(tables: Tables, s: Request.Surface, v: Value, ambient: Ambient, ceiling: Option<QueryCeiling>, k: string)
    requires Reshaped(tables, s, v, ambient, ceiling).Ok? && Lacks(ambient.target, k)
    ensures FindingsOn(tables, s, v, ceiling).Ok?
    ensures Get(Reshaped(tables, s, v, ambient, ceiling).value.meta, k) == Told(tables, s, v, ambient, ceiling, k)
  {
    hide ShapeItems, ShapeScalar, Evaluate, WithArray, ArrayAt, Locate, DerivedFor, AmbientMembers, Emitted, Matched, CappedNames, ScopeOfCount,
         ToldOfContext, ToldOfRequest, ToldOfInput, LastOf, Get, Lacks;
    var located := LocateIn(tables, s, v);
    var ctx, key, declared := tables.Context(s), located.key, Declared(tables, located.key);
    var items := ArrayAt(located.value, key);
    var rest := WithArray(located.value, key, []);
    var findings := FindingsOn(tables, s, v, ceiling).value;
    var more := AmbientMembers(ambient, located.removed, findings, key, declared);
    ContextIsTold(ambient, located.removed, findings, key, declared, k);
    if items.Some? {
      ItemsRecordReads(s, rest, key, items.value, ceiling, ctx, more, k);
    } else {
      ScalarRecordReads(s, rest, ceiling, ctx, more, k);
    }
  }

  /** Whether some string of the shaped payload is over the content limit. */
  predicate LosesText(tables: Tables, s: Request.Surface, v: Value, ambient: Ambient, ceiling: Option<QueryCeiling>)
    requires Reshaped(tables, s, v, ambient, ceiling).Ok?
  {
    s.truncateContent > 0 && Shape.HasLong(Reshaped(tables, s, v, ambient, ceiling).value.payload, s.truncateContent)
  }

  lemma ContentMetaReads(meta: seq<Member>, hit: bool, limit: nat, k: string)
    ensures Get(ContentMeta(meta, hit, limit), k) ==
            if hit && k == "content_truncated" then Some(Bool(true))
            else if hit && k == "truncate_content" then Some(Int(limit))
            else Get(meta, k)
  {
    hide Get, Put;
    GetPut(meta, "content_truncated", Bool(true), k);
    GetPut(Put(meta, "content_truncated", Bool(true)), "truncate_content", Int(limit), k);
  }

  /** Every member of the record of an answer that is not the stub: what the content limit did, and else what the
      context, the shaping, the request and the query have to say. */
  lemma AnswerRecordReads(tables: Tables, s: Request.Surface, v: Value, ambient: Ambient, ceiling: Option<QueryCeiling>, k: string)
    requires Answered(tables, s, v, ambient, ceiling) && FlagIsBoolean(v) && Lacks(ambient.target, k)
    requires BeforeCeiling(tables, s, v, ambient, ceiling).payload.Obj?
    requires Apply(tables, s, v, ambient, ceiling) != Ok(Stub(s.maxOutputBytes))
    requires k != "output_truncated" && k != "dropped" && k != "max_output_bytes" && k != "output_count"
    ensures FindingsOn(tables, s, v, ceiling).Ok? && Apply(tables, s, v, ambient, ceiling).Ok?
    ensures var record := RecordOf(Apply(tables, s, v, ambient, ceiling).value);
            && record.Some?
            && Get(record.value, k) ==
               if LosesText(tables, s, v, ambient, ceiling) && k == "content_truncated" then Some(Bool(true))
               else if LosesText(tables, s, v, ambient, ceiling) && k == "truncate_content" then Some(Int(s.truncateContent))
               else Told(tables, s, v, ambient, ceiling, k)
  {
    hide Reshaped, WithCeiling, Locate, Apply, FlagIsBoolean, Get, IsPassthrough, Told, FindingsOn, Lacks, ContentMeta, Recorded, RecordOf, Stub;
    var before := BeforeCeiling(tables, s, v, ambient, ceiling);
    var shaped := Reshaped(tables, s, v, ambient, ceiling).value;
    BeforeCeilingIsAnnotated(tables, s, v, ambient, ceiling);
    RestOfRecordStays(before.payload, Locate(v, tables.resultKeys), before.meta, s.maxOutputBytes, k);
    ContentMetaReads(shaped.meta, CutContent(shaped.payload, s.truncateContent), s.truncateContent, k);
    ShapedRecordReads(tables, s, v, ambient, ceiling, k);
  }

  lemma FlagAfterRecording(ms: seq<Member>, meta: seq<Member>, limit: nat)
    requires FlagIsBoolean(Obj(ms))
    ensures Recorded(Obj(ms), meta, limit).Obj?
    ensures Get(Recorded(Obj(ms), meta, limit).members, TRUNCATED_KEY) ==
            if limit > 0 && Shape.HasLong(Obj(ms), limit) then Some(Bool(true)) else Get(ms, TRUNCATED_KEY)
  {
    var hit := CutContent(Obj(ms), limit);
    var cut := if limit == 0 then ms else Shape.TruncatedMembers(ms, limit);
    TruncatedGet(ms, limit, TRUNCATED_KEY);
    AttachGet(cut, ContentMeta(meta, hit, limit), hit, TRUNCATED_KEY);
  }

  lemma RecordedIsObject(payload: Value, meta: seq<Member>, limit: nat)
    ensures Recorded(payload, meta, limit).Obj? ==> payload.Obj?
  {
  }

  lemma FlagAfterCut(p: Value, key: Option<string>, m: seq<Member>, max: nat)
    requires p.Obj? && FlagIsBoolean(p) && Get(p.members, META_KEY) == Some(Obj(m)) && WithCeiling(p, key, m, max) != Stub(max)
    ensures WithCeiling(p, key, m, max).Obj?
    ensures WithCeiling(p, key, m, max) != p ==> Get(WithCeiling(p, key, m, max).members, TRUNCATED_KEY) == Some(Bool(true))
  {
    hide EffectiveMax, EncodedLen, CutRecord, Get, Enforced, Attach, Stub;
    var eff := EffectiveMax(p, m, max);
    var (cut, o) := Enforced(p, key, eff);
    UncutIsAsItWas(p, key, eff);
    if o.stub {
      Overruns.StubIff(p, key, m, max);
    } else if o.truncated {
      CutSurvivors(p, key, m, eff);
      AttachGet(cut.members, CutRecord(m, key, cut, o, max), true, TRUNCATED_KEY);
    }
  }

  /** The flag of an answer that is not the stub: raised for lost text and for lost elements, and else as it was. */
  lemma FlagTells(tables: Tables, s: Request.Surface, v: Value, ambient: Ambient, ceiling: Option<QueryCeiling>)
    requires Answered(tables, s, v, ambient, ceiling) && FlagIsBoolean(v)
    requires BeforeCeiling(tables, s, v, ambient, ceiling).payload.Obj?
    requires Apply(tables, s, v, ambient, ceiling) != Ok(Stub(s.maxOutputBytes))
    ensures Apply(tables, s, v, ambient, ceiling).Ok? && Apply(tables, s, v, ambient, ceiling).value.Obj?
    ensures var shaped := Reshaped(tables, s, v, ambient, ceiling).value.payload;
            var before := BeforeCeiling(tables, s, v, ambient, ceiling).payload;
            var r := Apply(tables, s, v, ambient, ceiling).value;
            && shaped.Obj?
            && Get(r.members, "truncated") ==
               if LosesText(tables, s, v, ambient, ceiling) || r != before then Some(Bool(true)) else Get(shaped.members, "truncated")
  {
    hide Reshaped, WithCeiling, Locate, Apply, FlagIsBoolean, Get, IsPassthrough, ContentMeta, Stub, InputCount, OutputCount, Counts, ArrayAt,
         Recorded, CutContent;
    var before := BeforeCeiling(tables, s, v, ambient, ceiling);
    var shaped := Reshaped(tables, s, v, ambient, ceiling).value;
    AnswerIsSane(tables, s, v, ambient, ceiling);
    RecordedIsObject(shaped.payload, shaped.meta, s.truncateContent);
    BeforeCeilingIsAnnotated(tables, s, v, ambient, ceiling);
    FlagAfterRecording(shaped.payload.members, shaped.meta, s.truncateContent);
    FlagAfterCut(before.payload, Locate(v, tables.resultKeys), before.meta, s.maxOutputBytes);
  }

  // --------------------------------------------------------- what is in it

  /** A value after the content limit. */
  function Shortly(v: Value, limit: nat): Value {
    if limit == 0 then v else Shape.Truncated(v, limit)
  }

  /** The array of an answer: its element `i` is the `i`-th match, projected and shortened; there are no more of
      them than the cap allows, and without a byte ceiling no fewer. */
  lemma AnswerElements(tables: Tables, s: Request.Surface, v: Value, ambient: Ambient, ceiling: Option<QueryCeiling>, k: string)
    requires Reshapes(tables, s, v, ambient, ceiling, k) && Free(k) && !(s.countOnly && !s.writesReceipt)
    requires var before := BeforeCeiling(tables, s, v, ambient, ceiling);
             !Stubs(before.payload, Some(k), before.meta, s.maxOutputBytes)
    ensures var r := Apply(tables, s, v, ambient, ceiling);
            var ctx := tables.Context(s);
            var m := Matched(s, InputItems(tables, s, v), ctx);
            var cap := if 0 < s.maxItems < |m| then s.maxItems else |m|;
            && r.Ok? && r.value.Obj? && ArrayAt(r.value, Some(k)).Some?
            && var out := ItemsAt(r.value, Some(k));
               && |out| <= cap && (s.maxOutputBytes == 0 ==> |out| == cap)
               && (forall i | 0 <= i < |out| :: out[i] == Shortly(Shape.ProjectOne(m[i], s.select, ctx.groups), s.truncateContent))
               && RecordOf(r.value).Some? && Get(RecordOf(r.value).value, "output_count") == Some(Int(|out|))
  {
    hide Reshaped, Locate, LocateIn, Emitted, Matched, Shape.ProjectOne, Get, Counts, Enforced, EffectiveMax, EncodedLen, Recorded, ContentMeta,
         InputItems;
    var before := BeforeCeiling(tables, s, v, ambient, ceiling);
    var ctx, items := tables.Context(s), InputItems(tables, s, v);
    BeforeCeilingTells(tables, s, v, ambient, ceiling, k);
    CeilingTells(before.payload, k, before.meta, s.maxOutputBytes, |items|);
    Pipeline.EmittedReads(s, items, ctx);
    if s.maxOutputBytes == 0 {
      NoCeilingNoCut(before.payload, Some(k), before.meta);
    }
  }

  lemma NoCeilingNoCut(p: Value, key: Option<string>, m: seq<Member>)
    ensures WithCeiling(p, key, m, 0) == p
  {
  }

  lemma MemberIsLocated(tables: Tables, s: Request.Surface, v: Value, k: string, name: string)
    requires v.Obj? && Locate(v, tables.resultKeys) == Some(k) && Get(v.members, name).Some? && !Get(v.members, name).value.Arr?
    ensures var rest := WithArray(LocateIn(tables, s, v).value, Some(k), []);
            rest.Obj? && Get(rest.members, name) == Get(v.members, name)
  {
    hide Locate, DerivedFor, Get, RemoveArrays, WithArray;
    RemoveArraysGet(v.members, DerivedFor(tables.aliases, s.command, Some(k)), name);
    OtherMembersSurvive(LocateIn(tables, s, v).value, Some(k), [], name);
  }

  lemma MemberIsShaped(tables: Tables, s: Request.Surface, v: Value, ambient: Ambient, ceiling: Option<QueryCeiling>, k: string, name: string)
    requires Reshapes(tables, s, v, ambient, ceiling, k) && !(s.countOnly && !s.writesReceipt) && name != k
    requires Get(v.members, name).Some? && !Get(v.members, name).value.Arr?
    ensures var p := Reshaped(tables, s, v, ambient, ceiling).value.payload;
            p.Obj? && Get(p.members, name) == Get(v.members, name)
  {
    hide ShapeItems, ShapeScalar, Evaluate, WithArray, Locate, LocateIn, DerivedFor, AmbientMembers, Get, IsPassthrough;
    var located := LocateIn(tables, s, v);
    assert located.key == Some(k) by {
      LocatedKey(tables, s, v);
    }
    var items, ctx := ArrayAt(located.value, Some(k)).value, tables.Context(s);
    var rest := WithArray(located.value, Some(k), []);
    MemberIsLocated(tables, s, v, k, name);
    var declared := Declared(tables, Some(k));
    var findings := Evaluate(s, Scope(items, rest, ctx.groups), declared, true, ceiling).value;
    var more := AmbientMembers(ambient, located.removed, findings, Some(k), declared);
    assert Reshaped(tables, s, v, ambient, ceiling).value == ShapeItems(s, rest, Some(k), items, ceiling, ctx, more);
    CappedMember(s, rest, k, items, ceiling, ctx, more, name);
  }

  lemma LocatedKey(tables: Tables, s: Request.Surface, v: Value)
    ensures LocateIn(tables, s, v).key == Locate(v, tables.resultKeys)
  {
  }

  /** Members that are no arrays are in the answer as they were read, shortened like everything else. */
  lemma MemberIsAnswered(tables: Tables, s: Request.Surface, v: Value, ambient: Ambient, ceiling: Option<QueryCeiling>, k: string, name: string)
    requires Reshapes(tables, s, v, ambient, ceiling, k) && !(s.countOnly && !s.writesReceipt) && FlagIsBoolean(v) && Free(k)
    requires Free(name) && name != k && Get(v.members, name).Some? && !Get(v.members, name).value.Arr?
    requires Apply(tables, s, v, ambient, ceiling) != Ok(Stub(s.maxOutputBytes))
    ensures Apply(tables, s, v, ambient, ceiling).Ok? && Apply(tables, s, v, ambient, ceiling).value.Obj?
    ensures Get(Apply(tables, s, v, ambient, ceiling).value.members, name) ==
            Some(Shortly(Get(v.members, name).value, s.truncateContent))
  {
    hide Reshaped, Locate, LocateIn, Get, Recorded, ContentMeta, WithCeiling, Stub, FlagIsBoolean, Free, Emitted, InputItems, ArrayAt, Counts;
    var shaped := Reshaped(tables, s, v, ambient, ceiling).value;
    var before := BeforeCeiling(tables, s, v, ambient, ceiling);
    MemberIsShaped(tables, s, v, ambient, ceiling, k, name);
    BeforeCeilingTells(tables, s, v, ambient, ceiling, k);
    BeforeCeilingFlag(tables, s, v, ambient, ceiling, k);
    RecordedMember(shaped.payload.members, shaped.meta, s.truncateContent, name);
    MemberStays(before.payload, Some(k), before.meta, s.maxOutputBytes, name);
  }

  lemma CappedMember(s: Request.Surface, rest: Value, k: string, items: seq<Value>, ceiling: Option<QueryCeiling>,
                     ctx: Filter.Context, more: seq<Member>, name: string)
    requires rest.Obj? && !(s.countOnly && !s.writesReceipt) && name != k
    requires Get(rest.members, name).Some? && !Get(rest.members, name).value.Arr?
    ensures var p := ShapeItems(s, rest, Some(k), items, ceiling, ctx, more).payload;
            p.Obj? && Get(p.members, name) == Get(rest.members, name)
  {
    hide Emitted, Matched, Record, RequestMembers, CappedNames, TextList, MemberIf, Put;
    var e := Capped(rest, s.maxItems);
    CappedGet(rest.members, s.maxItems, name);
    GetPut(e.members, k, Arr(Emitted(s, items, ctx)), name);
  }

  /** The last stage leaves members that are no arrays alone. */
  lemma MemberStays(p: Value, key: Option<string>, m: seq<Member>, max: nat, name: string)
    requires p.Obj? && FlagIsBoolean(p) && Get(p.members, META_KEY) == Some(Obj(m)) && Free(name)
    requires Get(p.members, name).Some? && !Get(p.members, name).value.Arr?
    requires WithCeiling(p, key, m, max) != Stub(max)
    ensures WithCeiling(p, key, m, max).Obj? && Get(WithCeiling(p, key, m, max).members, name) == Get(p.members, name)
  {
    hide EffectiveMax, EncodedLen, CutRecord, Get, Enforced, Attach, Stub;
    var eff := EffectiveMax(p, m, max);
    var (cut, o) := Enforced(p, key, eff);
    UncutIsAsItWas(p, key, eff);
    if o.stub {
      Overruns.StubIff(p, key, m, max);
    } else if o.truncated {
      ScalarsSurvive(p, key, eff, name);
      AttachGet(cut.members, CutRecord(m, key, cut, o, max), true, name);
    }
  }

  /** An envelope without an array: its members are those of the projection, shortened. */
  lemma ScalarIsAnswered(tables: Tables, s: Request.Surface, v: Value, ambient: Ambient, ceiling: Option<QueryCeiling>, name: string)
    requires Answered(tables, s, v, ambient, ceiling) && FlagIsBoolean(v) && v.Obj? && Locate(v, tables.resultKeys).None?
    requires !(s.countOnly && !s.writesReceipt) && Free(name)
    ensures var before := BeforeCeiling(tables, s, v, ambient, ceiling).payload;
            var found := if s.select == [] then Get(v.members, name)
                         else if name in s.select then Lookup(v, Texts.Split(name), tables.Context(s).groups) else None;
            && before.Obj?
            && Get(before.members, name) == match found case Some(x) => Some(Shortly(x, s.truncateContent)) case None => None
  {
    var located := LocateIn(tables, s, v);
    assert DerivedFor(tables.aliases, s.command, None) == [];
    assert RemoveArrays(v.members, []) == v.members;
    assert located.value == v && WithArray(v, None, []) == v;
    var more := ScalarAnswer(tables, s, v, ambient, ceiling);
    var shaped := ShapeScalar(s, v, ceiling, tables.Context(s), more);
    assert shaped.payload == Shape.ProjectOne(v, s.select, tables.Context(s).groups);
    if s.select != [] {
      Shape.ProjectionPromise(v, s.select, tables.Context(s).groups, name);
    }
    RecordedMember(shaped.payload.members, shaped.meta, s.truncateContent, name);
  }

  /** A count: of what would have been emitted, or of the one envelope; or the stub. */
  lemma CountIsAnswered(tables: Tables, s: Request.Surface, v: Value, ambient: Ambient, ceiling: Option<QueryCeiling>)
    requires Answered(tables, s, v, ambient, ceiling) && s.countOnly && !s.writesReceipt
    ensures var r := Apply(tables, s, v, ambient, ceiling);
            r.Ok? && (r.value == Stub(s.maxOutputBytes)
                      || (r.value.Obj? && Get(r.value.members, "count") == Some(Int(OutputCount(tables, s, v)))))
  {
    hide Finalized, Get, Emitted, Matched, Locate, LocateIn, WithArray, ArrayAt, Record, RequestMembers, IsPassthrough, Stub, Recorded, ContentMeta, Stubs;
    var located := LocateIn(tables, s, v);
    var shaped := Reshaped(tables, s, v, ambient, ceiling).value;
    var n, key := OutputCount(tables, s, v), Locate(v, tables.resultKeys);
    LocatedKey(tables, s, v);
    assert shaped.payload == Obj([Member("count", Int(n))]);
    var m := ContentMeta(shaped.meta, CutContent(shaped.payload, s.truncateContent), s.truncateContent);
    if Stubs(Recorded(shaped.payload, shaped.meta, s.truncateContent), key, m, s.maxOutputBytes) {
      StubbedIsStub(shaped.payload, key, shaped.meta, s.truncateContent, s.maxOutputBytes);
    } else {
      CountSurvives(n, key, shaped.meta, s.truncateContent, s.maxOutputBytes);
    }
  }

  lemma StubbedIsStub(payload: Value, key: Option<string>, meta: seq<Member>, limit: nat, max: nat)
    requires Stubs(Recorded(payload, meta, limit), key, ContentMeta(meta, CutContent(payload, limit), limit), max)
    ensures Finalized(payload, key, meta, limit, max) == Stub(max)
  {
    var p, m := Recorded(payload, meta, limit), ContentMeta(meta, CutContent(payload, limit), limit);
    var eff := EffectiveMax(p, m, max);
    assert Enforced(p, key, eff).0 == Stub(eff);
    assert WithCeiling(p, key, m, max) == RequestedStub(p, key, m, max);
    RequestedStubReports(p, key, m, max);
  }

  /** The request asks for something. */
  predicate Asks(s: Request.Surface) {
    || s.select != [] || s.filters != [] || s.sort.Some? || s.dedupeBy.Some? || s.maxItems > 0 || s.countOnly
    || s.truncateContent > 0 || s.maxOutputBytes > 0
  }

  /** Schema documents and failures. */
  predicate IsContract(v: Value) {
    v.Obj? && (Has(v.members, "$schema") || Get(v.members, "error") == Some(Bool(true)) || Get(v.members, "ok") == Some(Bool(false)))
  }

  /** What is never touched: schema documents and failures, whatever is asked; and anything when nothing is asked,
      but for the target, which is attached. Everything else is shaped, or refused. */
  lemma UntouchedIs(tables: Tables, s: Request.Surface, v: Value, ambient: Ambient, ceiling: Option<QueryCeiling>)
    ensures IsContract(v) || (!Asks(s) && (ambient.target == [] || !v.Obj?)) ==> Apply(tables, s, v, ambient, ceiling) == Ok(v)
    ensures !IsContract(v) && !Asks(s) && ambient.target != [] && v.Obj? ==>
              var r := Apply(tables, s, v, ambient, ceiling);
              && r.Ok? && RecordOf(r.value) == Some(ambient.target)
              && forall k | k != META_KEY :: Get(r.value.members, k) == Get(v.members, k)
    ensures !IsContract(v) && Asks(s) ==>
              match Reshaped(tables, s, v, ambient, ceiling)
              case Err(refusal) => Apply(tables, s, v, ambient, ceiling) == Err(refusal)
              case Ok(shaped) =>
                var before := BeforeCeiling(tables, s, v, ambient, ceiling);
                Apply(tables, s, v, ambient, ceiling) ==
                Ok(WithCeiling(before.payload, Locate(v, tables.resultKeys), before.meta, s.maxOutputBytes))
  {
    hide Reshaped, WithCeiling, Recorded, ContentMeta, CutContent, Locate, Has, Get;
    if v.Obj? {
      AttachGet(v.members, ambient.target, false, META_KEY);
      assert Obj(v.members) == v;
      var attached := Attach(v, ambient.target, false);
      forall k | k != META_KEY ensures Get(attached.members, k) == Get(v.members, k) {
        AttachGet(v.members, ambient.target, false, k);
      }
    }
  }
}
