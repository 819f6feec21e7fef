/** What the surface promises about every answer it gives: arrays, scalars and counts alike. */
module Answers {
  import opened Wrappers
  import opened Json
  import opened Texts
  import opened Filter
  import opened Budget
  import opened Universe
  import opened Gate
  import opened Finalize
  import opened Surface
  import opened Promises
  import Request
  import Shape

  // ----------------------------------------------------- recording a payload

  lemma RecordedFlag(ms: seq<Member>, meta: seq<Member>, limit: nat)
    requires FlagIsBoolean(Obj(ms))
    ensures Recorded(Obj(ms), meta, limit).Obj? && FlagIsBoolean(Recorded(Obj(ms), meta, limit))
    ensures var m := ContentMeta(meta, CutContent(Obj(ms), limit), limit);
            Get(Recorded(Obj(ms), meta, limit).members, META_KEY) == Some(Obj(m))
  {
    var hit := CutContent(Obj(ms), limit);
    var cut := if limit == 0 then ms else Shape.TruncatedMembers(ms, limit);
    var m := ContentMeta(meta, hit, limit);
    TruncatedGet(ms, limit, TRUNCATED_KEY);
    AttachGet(cut, m, hit, META_KEY);
    assert Recorded(Obj(ms), meta, limit) == Attach(Obj(cut), m, hit);
    hide Attach, Get, CutContent, ContentMeta;
  }

  lemma RecordedMember(ms: seq<Member>, meta: seq<Member>, limit: nat, k: string)
    requires Free(k)
    ensures Recorded(Obj(ms), meta, limit).Obj?
    ensures Get(Recorded(Obj(ms), meta, limit).members, k) ==
            match Get(ms, k) case Some(v) => Some(if limit == 0 then v else Shape.Truncated(v, limit)) case None => None
  {
    var hit := CutContent(Obj(ms), limit);
    var cut := if limit == 0 then ms else Shape.TruncatedMembers(ms, limit);
    TruncatedGet(ms, limit, k);
    AttachGet(cut, ContentMeta(meta, hit, limit), hit, k);
  }

  /** Truncating and annotating neither makes an array nor changes the length of one. */
  lemma RecordedItems(payload: Value, key: Option<string>, meta: seq<Member>, limit: nat)
    requires FlagIsBoolean(payload)
    ensures var p := Recorded(payload, meta, limit);
            ArrayAt(p, key).Some? ==> ArrayAt(payload, key).Some? && |ItemsAt(p, key)| == |ItemsAt(payload, key)|
  {
    if payload.Obj? && key.Some? {
      RecordedFlag(payload.members, meta, limit);
      if Free(key.value) {
        RecordedMember(payload.members, meta, limit, key.value);
      }
    }
  }

  lemma CountsGive(meta: seq<Member>, input: nat, output: nat)
    requires Counts(meta, input, output)
    ensures WidestDropped(meta) == input && Get(meta, "output_count") == Some(Int(output))
  {
  }

  /** What the ceiling stage may rely on, whatever was shaped. */
  lemma RecordedIsCounted(payload: Value, key: Option<string>, meta: seq<Member>, limit: nat, input: nat, output: nat)
    requires FlagIsBoolean(payload) && Counts(meta, input, output)
    requires ArrayAt(payload, key).Some? ==> |ItemsAt(payload, key)| <= output
    ensures var p := Recorded(payload, meta, limit);
            var m := ContentMeta(meta, CutContent(payload, limit), limit);
            && FlagIsBoolean(p) && Counted(m, p, key) && WidestDropped(m) == input
            && (p.Obj? ==> Get(p.members, META_KEY) == Some(Obj(m)))
  {
    var hit := CutContent(payload, limit);
    ContentMetaCounts(meta, hit, limit, input, output);
    CountsGive(ContentMeta(meta, hit, limit), input, output);
    RecordedItems(payload, key, meta, limit);
    if payload.Obj? {
      RecordedFlag(payload.members, meta, limit);
    }
    hide ContentMeta, Counts, ArrayAt;
  }

  // ------------------------------------------------------------ three shapes

  /** No synonym group speaks of the flag. */
  predicate FlagHasNoSynonym(groups: seq<seq<string>>) {
    forall i | 0 <= i < |groups| :: TRUNCATED_KEY !in groups[i]
  }

  lemma ShippedFlagHasNoSynonym(command: Option<string>)
    ensures FlagHasNoSynonym(GroupsFor(SHIPPED_SYNONYMS, command))
  {
    var groups := GroupsFor(SHIPPED_SYNONYMS, command);
    forall i | 0 <= i < |groups| ensures TRUNCATED_KEY !in groups[i] {
      assert groups[i] in groups;
      assert groups[i] == SHIPPED_SYNONYMS[0].spellings || groups[i] == SHIPPED_SYNONYMS[1].spellings;
      assert |TRUNCATED_KEY| == 9 && |"entity_type"| == 11 && |"type"| == 4 && |"kind"| == 4;
    }
  }

  lemma ProjectedFlag(v: Value, keys: seq<string>, groups: seq<seq<string>>)
    requires FlagIsBoolean(v) && FlagHasNoSynonym(groups)
    ensures FlagIsBoolean(Shape.ProjectOne(v, keys, groups))
  {
    if v.Obj? && keys != [] {
      Shape.ProjectionPromise(v, keys, groups, TRUNCATED_KEY);
      assert Dotless(TRUNCATED_KEY);
      hide Shape.ProjectOne, Get, Lookup;
      PlainLookup(v, TRUNCATED_KEY, groups);
    }
  }

  lemma ScalarRecord(s: Request.Surface, envelope: Value, ceiling: Option<QueryCeiling>, ctx: Filter.Context, more: seq<Member>)
    requires Unreserved(more)
    ensures Counts(ShapeScalar(s, envelope, ceiling, ctx, more).meta, 1, 1)
  {
    hide Counts, Record, RequestMembers;
    RequestMembersUnreserved(s, ceiling);
    if s.countOnly && !s.writesReceipt {
      ExtendedRecord(1, 1, RequestMembers(s, ceiling),
                     [Member("count_only", Bool(true)), Member("count_scope", Str("matched"))], more);
    } else {
      ExtendedRecord(1, 1, RequestMembers(s, ceiling), MemberIf(s.countOnly, "count_only_suppressed", Bool(true)), more);
    }
  }

  /** A shaped payload has a boolean flag, and no more elements than its record says. */
  ghost predicate Sane(shaped: Shaped, key: Option<string>, input: nat, output: nat) {
    && FlagIsBoolean(shaped.payload) && Counts(shaped.meta, input, output)
    && (ArrayAt(shaped.payload, key).Some? ==> |ItemsAt(shaped.payload, key)| <= output)
  }

  lemma CountPayload(n: nat, key: Option<string>)
    ensures FlagIsBoolean(Obj([Member("count", Int(n))])) && ArrayAt(Obj([Member("count", Int(n))]), key).None?
  {
    FindIs([Member("count", Int(n))], TRUNCATED_KEY, 1);
  }

  lemma ItemsPayload(s: Request.Surface, rest: Value, key: Option<string>, items: seq<Value>,
                     ceiling: Option<QueryCeiling>, ctx: Filter.Context, more: seq<Member>)
    requires FlagIsBoolean(rest) && (key.Some? ==> rest.Obj? && key.value != TRUNCATED_KEY)
    ensures var p := ShapeItems(s, rest, key, items, ceiling, ctx, more).payload;
            FlagIsBoolean(p) && (ArrayAt(p, key).Some? ==> |ItemsAt(p, key)| <= |Emitted(s, items, ctx)|)
  {
    hide Emitted, Matched, Record, RequestMembers;
    if s.countOnly && !s.writesReceipt {
      CountPayload(|Emitted(s, items, ctx)|, key);
    } else if key.Some? {
      ShapedPayload(s, rest, key.value, items, ceiling, ctx, more);
    }
  }

  lemma ScalarPayload(s: Request.Surface, rest: Value, ceiling: Option<QueryCeiling>, ctx: Filter.Context, more: seq<Member>)
    requires FlagIsBoolean(rest) && !rest.Arr? && FlagHasNoSynonym(ctx.groups)
    ensures var p := ShapeScalar(s, rest, ceiling, ctx, more).payload; FlagIsBoolean(p) && ArrayAt(p, None).None?
  {
    hide Record, RequestMembers;
    CountPayload(1, None);
    ProjectedFlag(rest, s.select, ctx.groups);
  }

  // ------------------------------------------------------------- every answer

  /** An alias table never lists an array as a copy of itself. */
  predicate AliasesSpareTheirOwn(aliases: seq<Alias>) {
    forall i | 0 <= i < |aliases| :: aliases[i].canonical !in aliases[i].derived
  }

  lemma ShippedAliasesSpareTheirOwn()
    ensures AliasesSpareTheirOwn(SHIPPED_ALIASES)
  {
    assert |"items"| == 5 && |"nodes"| == 5 && |"results"| == 7;
    assert |"memories"| == 8 && |"entities"| == 8 && |"direct_matches"| == 14 && |"graph_matches"| == 13 && |"related_memories"| == 16;
  }

  lemma {:induction false} DerivedSpares(aliases: seq<Alias>, command: Option<string>, key: Option<string>)
    requires AliasesSpareTheirOwn(aliases) && key.Some?
    ensures key.value !in DerivedFor(aliases, command, key)
  {
    if aliases != [] {
      assert AliasesSpareTheirOwn(aliases[1..]) by {
        assert forall i | 0 <= i < |aliases[1..]| :: aliases[1..][i] == aliases[i + 1];
      }
      DerivedSpares(aliases[1..], command, key);
    }
  }

  /** Among ascending keys a member is found where it is. */
  lemma SortedFinds(ms: seq<Member>, i: nat)
    requires Sorted(ms) && i < |ms|
    ensures Get(ms, ms[i].key) == Some(ms[i].value)
  {
    forall j | 0 <= j < i ensures ms[j].key != ms[i].key {
      TextLessTotal(ms[j].key, ms[i].key);
    }
    FindIs(ms, ms[i].key, i);
  }

  /** The located member really holds an array, before and after its copies are removed. */
  lemma LocatedHolds(tables: Tables, s: Request.Surface, v: Value)
    requires v.Obj? && Sorted(v.members) && AliasesSpareTheirOwn(tables.aliases) && Locate(v, tables.resultKeys).Some?
    ensures HoldsArray(v.members, Locate(v, tables.resultKeys).value)
    ensures ArrayAt(LocateIn(tables, s, v).value, Locate(v, tables.resultKeys)).Some?
  {
    var key := Locate(v, tables.resultKeys);
    FirstDeclaredIs(v.members, tables.resultKeys);
    if FirstDeclared(v.members, tables.resultKeys).None? {
      FirstArrayIs(v.members);
      var i :| 0 <= i < |v.members| && v.members[i].key == key.value && v.members[i].value.Arr?;
      SortedFinds(v.members, i);
    }
    DerivedSpares(tables.aliases, s.command, key);
    SuppressionIff(v.members, DerivedFor(tables.aliases, s.command, key), key.value);
  }

  /** An answer that was really shaped: not passed through, not refused, under tables that make sense. */
  predicate Answered(tables: Tables, s: Request.Surface, v: Value, ambient: Ambient, ceiling: Option<QueryCeiling>) {
    && !IsPassthrough(v) && !s.IsNoop() && Reshaped(tables, s, v, ambient, ceiling).Ok?
    && (v.Obj? ==> Sorted(v.members)) && Unreserved(ambient.target)
    && AliasesSpareTheirOwn(tables.aliases) && FlagHasNoSynonym(tables.Context(s).groups)
  }

  /** How many things the request was about: the elements of the array, or the one envelope. */
  function InputCount(tables: Tables, s: Request.Surface, v: Value): nat {
    var located := LocateIn(tables, s, v);
    if ArrayAt(located.value, located.key).Some? then |ItemsAt(located.value, located.key)| else 1
  }

  function OutputCount(tables: Tables, s: Request.Surface, v: Value): nat {
    var located := LocateIn(tables, s, v);
    if ArrayAt(located.value, located.key).Some? then |Emitted(s, ItemsAt(located.value, located.key), tables.Context(s))| else 1
  }

  /** The parts of an answer, for the array branch. */
  lemma ArrayAnswer(tables: Tables, s: Request.Surface, v: Value, ambient: Ambient, ceiling: Option<QueryCeiling>) returns (more: seq<Member>)
    requires Answered(tables, s, v, ambient, ceiling)
    requires ArrayAt(LocateIn(tables, s, v).value, Locate(v, tables.resultKeys)).Some?
    ensures Unreserved(more)
    ensures var located := LocateIn(tables, s, v);
            Reshaped(tables, s, v, ambient, ceiling).value ==
            ShapeItems(s, WithArray(located.value, located.key, []), located.key, ItemsAt(located.value, located.key),
                       ceiling, tables.Context(s), more)
    ensures exists findings :: more == AmbientMembers(ambient, LocateIn(tables, s, v).removed, findings,
                                                      Locate(v, tables.resultKeys), Declared(tables, Locate(v, tables.resultKeys)))
  {
    var located := LocateIn(tables, s, v);
    var items := ItemsAt(located.value, located.key);
    var rest := WithArray(located.value, located.key, []);
    var declared := Declared(tables, located.key);
    hide ShapeItems, ShapeScalar, Evaluate, WithArray, ArrayAt, Locate, DerivedFor, AmbientMembers;
    var findings := Evaluate(s, Scope(items, rest, tables.Context(s).groups), declared, true, ceiling).value;
    more := AmbientMembers(ambient, located.removed, findings, located.key, declared);
    AmbientMembersUnreserved(ambient, located.removed, findings, located.key, declared);
  }

  lemma ScalarAnswer(tables: Tables, s: Request.Surface, v: Value, ambient: Ambient, ceiling: Option<QueryCeiling>) returns (more: seq<Member>)
    requires Answered(tables, s, v, ambient, ceiling)
    requires ArrayAt(LocateIn(tables, s, v).value, Locate(v, tables.resultKeys)).None?
    ensures Unreserved(more)
    ensures var located := LocateIn(tables, s, v);
            Reshaped(tables, s, v, ambient, ceiling).value ==
            ShapeScalar(s, WithArray(located.value, located.key, []), ceiling, tables.Context(s), more)
  {
    var located := LocateIn(tables, s, v);
    var rest := WithArray(located.value, located.key, []);
    var declared := Declared(tables, located.key);
    hide ShapeItems, ShapeScalar, Evaluate, WithArray, ArrayAt, Locate, DerivedFor, AmbientMembers;
    var findings := Evaluate(s, Scope([], rest, tables.Context(s).groups), declared, false, ceiling).value;
    more := AmbientMembers(ambient, located.removed, findings, located.key, declared);
    AmbientMembersUnreserved(ambient, located.removed, findings, located.key, declared);
  }

  lemma ArrayAnswerIsSane(tables: Tables, s: Request.Surface, v: Value, ambient: Ambient, ceiling: Option<QueryCeiling>)
    requires Answered(tables, s, v, ambient, ceiling) && FlagIsBoolean(v)
    requires ArrayAt(LocateIn(tables, s, v).value, Locate(v, tables.resultKeys)).Some?
    ensures Sane(Reshaped(tables, s, v, ambient, ceiling).value, Locate(v, tables.resultKeys), InputCount(tables, s, v), OutputCount(tables, s, v))
  {
    var located := LocateIn(tables, s, v);
    var items := ItemsAt(located.value, located.key);
    var rest := WithArray(located.value, located.key, []);
    if v.Obj? {
      FlagSurvivesLocating(tables, s, v, located.key);
      WithoutAliasesIsObject(v, DerivedFor(tables.aliases, s.command, located.key), located.key);
      if located.key.Some? {
        LocatedHolds(tables, s, v);
      }
    }
    assert FlagIsBoolean(rest) && (located.key.Some? ==> rest.Obj? && located.key.value != TRUNCATED_KEY);
    hide ShapeItems, Reshaped, Counts, Emitted, WithArray, ArrayAt, Locate, LocateIn, FlagIsBoolean, DerivedFor;
    var more := ArrayAnswer(tables, s, v, ambient, ceiling);
    ItemsPayload(s, rest, located.key, items, ceiling, tables.Context(s), more);
    ShapedRecord(s, rest, located.key, items, ceiling, tables.Context(s), more);
  }

  lemma ScalarAnswerIsSane(tables: Tables, s: Request.Surface, v: Value, ambient: Ambient, ceiling: Option<QueryCeiling>)
    requires Answered(tables, s, v, ambient, ceiling) && FlagIsBoolean(v)
    requires ArrayAt(LocateIn(tables, s, v).value, Locate(v, tables.resultKeys)).None?
    ensures Sane(Reshaped(tables, s, v, ambient, ceiling).value, Locate(v, tables.resultKeys), 1, 1)
  {
    var located := LocateIn(tables, s, v);
    var rest := WithArray(located.value, located.key, []);
    if located.key.Some? {
      LocatedHolds(tables, s, v);
    }
    if v.Obj? {
      FlagSurvivesLocating(tables, s, v, located.key);
    }
    assert FlagIsBoolean(rest) && !rest.Arr?;
    hide ShapeScalar, Reshaped, Counts, WithArray, ArrayAt, FlagIsBoolean, DerivedFor;
    var more := ScalarAnswer(tables, s, v, ambient, ceiling);
    ScalarPayload(s, rest, ceiling, tables.Context(s), more);
    ScalarRecord(s, rest, ceiling, tables.Context(s), more);
  }

  lemma AnswerIsSane(tables: Tables, s: Request.Surface, v: Value, ambient: Ambient, ceiling: Option<QueryCeiling>)
    requires Answered(tables, s, v, ambient, ceiling) && FlagIsBoolean(v)
    ensures Sane(Reshaped(tables, s, v, ambient, ceiling).value, Locate(v, tables.resultKeys), InputCount(tables, s, v), OutputCount(tables, s, v))
  {
    hide Sane, Answered, Reshaped, ArrayAt, FlagIsBoolean;
    if ArrayAt(LocateIn(tables, s, v).value, Locate(v, tables.resultKeys)).Some? {
      ArrayAnswerIsSane(tables, s, v, ambient, ceiling);
    } else {
      ScalarAnswerIsSane(tables, s, v, ambient, ceiling);
    }
  }

  /** Every answer, array, scalar or count, to a request with a byte ceiling: the stub naming that ceiling,
      or a value, record included, over it by no more than the digits `dropped` has beyond the input count. */
  lemma SurfaceHonoursCeiling(tables: Tables, s: Request.Surface, v: Value, ambient: Ambient, ceiling: Option<QueryCeiling>)
    requires Answered(tables, s, v, ambient, ceiling) && FlagIsBoolean(v) && s.maxOutputBytes > 0
    ensures var before := BeforeCeiling(tables, s, v, ambient, ceiling);
            var o := Enforced(before.payload, Locate(v, tables.resultKeys), EffectiveMax(before.payload, before.meta, s.maxOutputBytes)).1;
            var r := Apply(tables, s, v, ambient, ceiling);
            && r.Ok?
            && (if o.stub then r.value == Stub(s.maxOutputBytes)
                else EncodedLen(r.value) <= s.maxOutputBytes + Overrun(o.dropped, InputCount(tables, s, v)))
  {
    var key := Locate(v, tables.resultKeys);
    var shaped := Reshaped(tables, s, v, ambient, ceiling).value;
    var before := BeforeCeiling(tables, s, v, ambient, ceiling);
    AnswerIsSane(tables, s, v, ambient, ceiling);
    hide Reshaped, InputCount, OutputCount, Counts, ArrayAt, FlagIsBoolean, Enforced, EncodedLen, Locate, Recorded, ContentMeta,
         CutContent, WithCeiling, EffectiveMax, Overrun;
    RecordedIsCounted(shaped.payload, key, shaped.meta, s.truncateContent, InputCount(tables, s, v), OutputCount(tables, s, v));
    CeilingPromise(before.payload, key, before.meta, s.maxOutputBytes);
    RequestedStubReports(before.payload, key, before.meta, s.maxOutputBytes);
  }

  // ------------------------------------------------------------- counted rows

  function ScopeIn(meta: seq<Member>): Option<string> {
    match Get(meta, "count_scope") case Some(Str(name)) => Some(name) case _ => None
  }

  /** What an answer's own record says its count is about. */
  function LabelOf(answer: Value): Option<string> {
    if !answer.Obj? then None
    else match Get(answer.members, META_KEY) case Some(Obj(meta)) => ScopeIn(meta) case _ => None
  }

  lemma AmbientHasNoScope(ambient: Ambient, removed: seq<string>, findings: Findings, key: Option<string>, declared: bool)
    requires Lacks(ambient.target, "count_scope")
    ensures Lacks(AmbientMembers(ambient, removed, findings, key, declared), "count_scope")
  {
    hide TextList;
    var aliases := MemberIf(removed != [], "aliases_removed", TextList(removed));
    var keys := if findings.unresolved == [] then [] else
      [Member("unresolved_keys", TextList(findings.unresolved)), Member("resolved_keys", TextList(findings.resolved)),
       Member("key_resolution", Str("partial"))]
      + MemberIf(ambient.suggestions != [], "key_suggestions", TextList(ambient.suggestions))
      + MemberIf(ambient.vocabularyPartial, "vocabulary_partial", Bool(true));
    var source := MemberIf(key.Some?, "result_array_source", Str(if declared then "declared" else "fallback"));
    assert Lacks(keys, "count_scope");
    LacksConcat(ambient.target, aliases, "count_scope");
    LacksConcat(ambient.target + aliases, keys, "count_scope");
    LacksConcat(ambient.target + aliases + keys, source, "count_scope");
  }

  /** The shaped count and its record, before the last stage. */
  lemma CountShaped(tables: Tables, s: Request.Surface, v: Value, ambient: Ambient, ceiling: Option<QueryCeiling>)
    requires Answered(tables, s, v, ambient, ceiling) && s.countOnly && !s.writesReceipt && Lacks(ambient.target, "count_scope")
    requires ArrayAt(LocateIn(tables, s, v).value, Locate(v, tables.resultKeys)).Some?
    ensures var items := InputItems(tables, s, v);
            var n := |Emitted(s, items, tables.Context(s))|;
            var shaped := Reshaped(tables, s, v, ambient, ceiling).value;
            && shaped.payload == Obj([Member("count", Int(n))])
            && Get(shaped.meta, "count_scope") ==
               Some(Str(ScopeOfCount(n, |Matched(s, items, tables.Context(s))|, ceiling).Name()))
  {
    var located := LocateIn(tables, s, v);
    var items := InputItems(tables, s, v);
    var ctx := tables.Context(s);
    var more := ArrayAnswer(tables, s, v, ambient, ceiling);
    var findings :| more == AmbientMembers(ambient, located.removed, findings, located.key, Declared(tables, located.key));
    hide Reshaped, Emitted, Matched, Record, RequestMembers, AmbientMembers, LocateIn, WithArray, ArrayAt, Get;
    AmbientHasNoScope(ambient, located.removed, findings, located.key, Declared(tables, located.key));
    var n, m := |Emitted(s, items, ctx)|, |Matched(s, items, ctx)|;
    CountRecordNamesScope(|items|, n, RequestMembers(s, ceiling), Str(ScopeOfCount(n, m, ceiling).Name()), more);
  }

  lemma ContentMetaScope(meta: seq<Member>, hit: bool, limit: nat)
    ensures Get(ContentMeta(meta, hit, limit), "count_scope") == Get(meta, "count_scope")
  {
    var one := Put(meta, "content_truncated", Bool(true));
    GetPut(meta, "content_truncated", Bool(true), "count_scope");
    GetPut(one, "truncate_content", Int(limit), "count_scope");
  }

  lemma CutRecordScope(meta: seq<Member>, key: Option<string>, cut: Value, o: Outcome, max: nat)
    ensures Get(CutRecord(meta, key, cut, o, max), "count_scope") == Get(meta, "count_scope")
  {
    var recorded := RecordCut(meta, o.dropped, max);
    RecordCutGet(meta, o.dropped, max, "count_scope");
    GetPut(recorded, "output_count", Int(|ItemsAt(cut, key)|), "count_scope");
  }

  lemma StubHasNoLabel(max: nat)
    ensures LabelOf(Stub(max)) == None
  {
    FindIs(Stub(max).members, META_KEY, 3);
  }

  lemma StubbedLabel(p: Value, key: Option<string>, m: seq<Member>, max: nat)
    requires Stubs(p, key, m, max)
    ensures LabelOf(WithCeiling(p, key, m, max)) == None
  {
    var eff := EffectiveMax(p, m, max);
    assert Enforced(p, key, eff).0 == Stub(eff);
    assert WithCeiling(p, key, m, max) == RequestedStub(p, key, m, max);
    hide *;
    RequestedStubReports(p, key, m, max);
    StubHasNoLabel(max);
  }

  lemma KeptLabel(p: Value, key: Option<string>, m: seq<Member>, max: nat)
    requires p.Obj? && Get(p.members, META_KEY) == Some(Obj(m)) && !Stubs(p, key, m, max)
    ensures LabelOf(WithCeiling(p, key, m, max)) == ScopeIn(m)
  {
    var eff := EffectiveMax(p, m, max);
    var (cut, o) := Enforced(p, key, eff);
    hide Enforced, EffectiveMax, Get, CutRecord, Attach;
    ScalarsSurvive(p, key, eff, META_KEY);
    if o.truncated {
      CutRecordScope(m, key, cut, o, max);
      AttachGet(cut.members, CutRecord(m, key, cut, o, max), true, META_KEY);
    }
  }

  /** The last stage either replaces an answer by the stub, which has no label, or leaves its label alone. */
  lemma LabelSurvives(payload: Value, key: Option<string>, meta: seq<Member>, limit: nat, max: nat)
    requires payload.Obj? && FlagIsBoolean(payload)
    ensures var m := ContentMeta(meta, CutContent(payload, limit), limit);
            var p := Recorded(payload, meta, limit);
            LabelOf(Finalized(payload, key, meta, limit, max)) == if Stubs(p, key, m, max) then None else ScopeIn(meta)
  {
    hide Recorded, ContentMeta, WithCeiling, Stubs, FlagIsBoolean, LabelOf, CutContent, Get;
    var m := ContentMeta(meta, CutContent(payload, limit), limit);
    var p := Recorded(payload, meta, limit);
    RecordedFlag(payload.members, meta, limit);
    ContentMetaScope(meta, CutContent(payload, limit), limit);
    if Stubs(p, key, m, max) {
      StubbedLabel(p, key, m, max);
    } else {
      KeptLabel(p, key, m, max);
    }
  }

  /** An answer to a count over a page of known total: if its own record calls the count `matched`, then it is
      the number of rows the request selects from the whole universe, whatever the order asked for. */
  lemma MatchedAnswerIsUniversal(tables: Tables, s: Request.Surface, v: Value, ambient: Ambient, c: QueryCeiling, universe: seq<Value>)
    requires Answered(tables, s, v, ambient, Some(c)) && s.countOnly && !s.writesReceipt && Lacks(ambient.target, "count_scope")
    requires c.kind == Pagination && c.universeTotal == Some(|universe|)
    requires ArrayAt(LocateIn(tables, s, v).value, Locate(v, tables.resultKeys)) == Some(PageOf(universe, c))
    ensures var r := Apply(tables, s, v, ambient, Some(c));
            && r.Ok?
            && (LabelOf(r.value) == Some("matched") ==>
                  r.value.Obj? && Get(r.value.members, "count") == Some(Int(|Selection(s, universe, tables.Context(s))|)))
  {
    var ctx, items, key := tables.Context(s), PageOf(universe, c), Locate(v, tables.resultKeys);
    assert InputItems(tables, s, v) == items;
    CountShaped(tables, s, v, ambient, Some(c));
    var shaped := Reshaped(tables, s, v, ambient, Some(c)).value;
    var n, m := |Emitted(s, items, ctx)|, |Matched(s, items, ctx)|;
    var scope := ScopeOfCount(n, m, Some(c));
    CountPayload(n, key);
    LabelSurvives(shaped.payload, key, shaped.meta, s.truncateContent, s.maxOutputBytes);
    assert ScopeIn(shaped.meta) == Some(scope.Name());
    hide Reshaped, Emitted, Matched, Finalized, Selection, LabelOf, Get, PageOf, ScopeOfCount, InputItems, Stubs, Recorded, ContentMeta;
    var r := Apply(tables, s, v, ambient, Some(c)).value;
    if LabelOf(r) == Some("matched") {
      NamesDiffer(scope);
      CountSurvives(n, key, shaped.meta, s.truncateContent, s.maxOutputBytes);
      MatchedCountIsUniversal(s, universe, c, ctx);
    }
  }

  lemma NamesDiffer(scope: CountScope)
    ensures scope.Name() == "matched" <==> scope == MatchedCount
  {
    assert |"page"| == 4 && |"emitted"| == 7 && |"matched"| == 7 && "emitted"[0] == 'e' && "matched"[0] == 'm';
  }
}
