/** What the surface promises about the envelope it emits, end to end. */
module Promises {
  import opened Wrappers
  import opened Json
  import opened Filter
  import opened StableSort
  import opened Budget
  import opened Universe
  import opened Gate
  import opened Finalize
  import opened Surface
  import Request
  import Shape
  import Texts
  import Reservation

  // ------------------------------------------------------------- the record

  /** Members the counts and the cut record live under. */
  predicate Reserved(k: string) {
    k == "input_count" || k == "output_count" || k == "output_truncated" || k == "dropped" || k == "max_output_bytes"
  }

  predicate Unreserved(ms: seq<Member>) {
    forall i | 0 <= i < |ms| :: !Reserved(ms[i].key)
  }

  predicate Counts(meta: seq<Member>, input: nat, output: nat) {
    && Get(meta, "input_count") == Some(Int(input)) && Get(meta, "output_count") == Some(Int(output))
    && Get(meta, "output_truncated").None? && Get(meta, "dropped").None? && Get(meta, "max_output_bytes").None?
  }

  lemma RecordCounts(input: nat, output: nat, more: seq<Member>)
    requires Unreserved(more)
    ensures Counts(Record(input, output, more), input, output)
  {
    var base := [Member("input_count", Int(input)), Member("output_count", Int(output))];
    FindIs(base, "output_count", 1);
    FindIs(base, "output_truncated", 2);
    FindIs(base, "dropped", 2);
    FindIs(base, "max_output_bytes", 2);
    PutAllKeeps(base, more, "input_count");
    PutAllKeeps(base, more, "output_count");
    PutAllKeeps(base, more, "output_truncated");
    PutAllKeeps(base, more, "dropped");
    PutAllKeeps(base, more, "max_output_bytes");
  }

  lemma UnreservedConcat(a: seq<Member>, b: seq<Member>)
    requires Unreserved(a) && Unreserved(b)
    ensures Unreserved(a + b)
  {
  }

  lemma ContentMetaCounts(meta: seq<Member>, hit: bool, limit: nat, input: nat, output: nat)
    requires Counts(meta, input, output)
    ensures Counts(ContentMeta(meta, hit, limit), input, output)
  {
    if hit {
      var more := [Member("content_truncated", Bool(true)), Member("truncate_content", Int(limit))];
      assert more[1..] == [more[1]] && [more[1]][1..] == [];
      assert PutAll(Put(meta, more[0].key, more[0].value), [more[1]]) ==
             PutAll(Put(Put(meta, more[0].key, more[0].value), more[1].key, more[1].value), []);
      assert ContentMeta(meta, hit, limit) == PutAll(meta, more);
      PutAllKeeps(meta, more, "input_count");
      PutAllKeeps(meta, more, "output_count");
      PutAllKeeps(meta, more, "output_truncated");
      PutAllKeeps(meta, more, "dropped");
      PutAllKeeps(meta, more, "max_output_bytes");
    }
  }

  lemma CeilingMembersUnreserved(ceiling: Option<QueryCeiling>)
    ensures Unreserved(CeilingMembers(ceiling))
  {
  }

  lemma RequestMembersUnreserved(s: Request.Surface, ceiling: Option<QueryCeiling>)
    ensures Unreserved(RequestMembers(s, ceiling))
  {
    hide CeilingMembers, TextList;
    var select := MemberIf(s.select != [], "select", TextList(s.select));
    var filters := MemberIf(s.filters != [], "filters", Int(|s.filters|));
    var sort := if s.sort.Some? then [Member("sort", Str(s.sort.value))] else [];
    var dedupe := if s.dedupeBy.Some? then [Member("dedupe_by", Str(s.dedupeBy.value))] else [];
    var items := MemberIf(s.maxItems > 0, "max_items", Int(s.maxItems));
    CeilingMembersUnreserved(ceiling);
    UnreservedConcat(select, filters);
    UnreservedConcat(select + filters, sort);
    UnreservedConcat(select + filters + sort, dedupe);
    UnreservedConcat(select + filters + sort + dedupe, items);
    UnreservedConcat(select + filters + sort + dedupe + items, CeilingMembers(ceiling));
  }

  lemma AmbientMembersUnreserved(ambient: Ambient, removed: seq<string>, findings: Findings, key: Option<string>, declared: bool)
    requires Unreserved(ambient.target)
    ensures Unreserved(AmbientMembers(ambient, removed, findings, key, declared))
  {
    hide TextList;
    var aliases := MemberIf(removed != [], "aliases_removed", TextList(removed));
    var keys := if findings.unresolved == [] then [] else
      [Member("unresolved_keys", TextList(findings.unresolved)), Member("resolved_keys", TextList(findings.resolved)),
       Member("key_resolution", Str("partial"))]
      + MemberIf(ambient.suggestions != [], "key_suggestions", TextList(ambient.suggestions))
      + MemberIf(ambient.vocabularyPartial, "vocabulary_partial", Bool(true));
    assert Unreserved(keys);
    UnreservedConcat(ambient.target, aliases);
    UnreservedConcat(ambient.target + aliases, keys);
    UnreservedConcat(ambient.target + aliases + keys,
                     MemberIf(key.Some?, "result_array_source", Str(if declared then "declared" else "fallback")));
  }

  // ----------------------------------------------------------- the elements

  lemma {:induction false} DedupedShrinks<T>(items: seq<T>, key: T -> Option<string>, seen: set<string>)
    ensures |Shape.DedupedFrom(items, key, seen)| <= |items|
    decreases |items|
  {
    if items != [] {
      match key(items[0]) {
        case None => DedupedShrinks(items[1..], key, seen);
        case Some(text) =>
          DedupedShrinks(items[1..], key, if text in seen then seen else seen + {text});
      }
    }
  }

  lemma EmittedShrinks(s: Request.Surface, items: seq<Value>, ctx: Context)
    ensures |Emitted(s, items, ctx)| <= |Matched(s, items, ctx)| <= |items|
  {
    var kept := Shape.Kept(items, s.filters, ctx);
    if s.sort.Some? {
      Shape.SortedContents(kept, s.sort.value, ctx);
    }
    if s.dedupeBy.Some? {
      var sorted := if s.sort.Some? then Shape.Sorted(kept, s.sort.value, ctx) else kept;
      DedupedShrinks(sorted, Shape.TextAt(Texts.Split(s.dedupeBy.value), ctx.groups), {});
    }
  }

  /** The projected image of everything that matched, before any cap. */
  function Image(s: Request.Surface, items: seq<Value>, ctx: Context): seq<Value> {
    var projected := Shape.Projected(Matched(s, items, ctx), s.select, ctx.groups);
    if s.truncateContent == 0 then projected else Shape.TruncatedItems(projected, s.truncateContent)
  }

  function Shortened(items: seq<Value>, limit: nat): (r: seq<Value>)
    ensures |r| == |items|
  {
    if limit == 0 then items else Shape.TruncatedItems(items, limit)
  }

  lemma EmittedIsPrefix(s: Request.Surface, items: seq<Value>, ctx: Context)
    ensures Shortened(Emitted(s, items, ctx), s.truncateContent) <= Image(s, items, ctx)
  {
    var matched := Matched(s, items, ctx);
    var limited := Shape.Limited(matched, s.maxItems);
    Shape.ProjectedPrefix(matched, s.select, ctx.groups, |limited|);
    assert limited == matched[..|limited|];
  }

  // ----------------------------------------------------------- the envelope

  lemma ArrayAtGet(ms: seq<Member>, k: string, items: seq<Value>)
    ensures ArrayAt(Obj(ms), Some(k)) == Some(items) <==> Get(ms, k) == Some(Arr(items))
    ensures ArrayAt(Obj(ms), Some(k)).Some? <==> Get(ms, k).Some? && Get(ms, k).value.Arr?
  {
  }

  lemma TruncatedGet(ms: seq<Member>, limit: nat, k: string)
    ensures Get(Shape.TruncatedMembers(ms, limit), k) ==
            match Get(ms, k) case Some(v) => Some(Shape.Truncated(v, limit)) case None => None
  {
    FindSameKeys(ms, Shape.TruncatedMembers(ms, limit), k);
  }

  /** An array that the annotation does not overwrite. */
  predicate Free(k: string) {
    k != META_KEY && k != TRUNCATED_KEY
  }

  /** The envelope handed to the ceiling: record attached, primary array in place. */
  lemma RecordedEnvelope(ms: seq<Member>, k: string, items: seq<Value>, meta: seq<Member>, limit: nat)
    requires Free(k) && Get(ms, k) == Some(Arr(items))
    ensures var p := Recorded(Obj(ms), meta, limit);
            && p.Obj?
            && ArrayAt(p, Some(k)) == Some(Shortened(items, limit))
            && Get(p.members, META_KEY) == Some(Obj(ContentMeta(meta, CutContent(Obj(ms), limit), limit)))
    ensures FlagIsBoolean(Obj(ms)) ==> FlagIsBoolean(Recorded(Obj(ms), meta, limit))
  {
    var hit := CutContent(Obj(ms), limit);
    var cut := if limit == 0 then ms else Shape.TruncatedMembers(ms, limit);
    TruncatedGet(ms, limit, k);
    TruncatedGet(ms, limit, TRUNCATED_KEY);
    AttachGet(cut, ContentMeta(meta, hit, limit), hit, k);
    ArrayAtGet(Recorded(Obj(ms), meta, limit).members, k, Shortened(items, limit));
  }

  /** What the emitted envelope says about its own array. */
  predicate Tells(r: Value, k: string, input: nat, image: seq<Value>) {
    && r.Obj? && ArrayAt(r, Some(k)).Some?
    && ItemsAt(r, Some(k)) <= image
    && match Get(r.members, META_KEY)
       case Some(Obj(meta)) =>
         && Get(meta, "input_count") == Some(Int(input))
         && Get(meta, "output_count") == Some(Int(|ItemsAt(r, Some(k))|))
       case _ => false
  }

  lemma CutRecordTells(meta: seq<Member>, key: Option<string>, cut: Value, o: Outcome, max: nat, input: nat, output: nat)
    requires Counts(meta, input, output) && ArrayAt(cut, key).Some?
    ensures Get(CutRecord(meta, key, cut, o, max), "input_count") == Some(Int(input))
    ensures Get(CutRecord(meta, key, cut, o, max), "output_count") == Some(Int(|ItemsAt(cut, key)|))
  {
    var recorded := RecordCut(meta, o.dropped, max);
    RecordCutGet(meta, o.dropped, max, "input_count");
    GetPut(recorded, "output_count", Int(|ItemsAt(cut, key)|), "input_count");
    GetPut(recorded, "output_count", Int(|ItemsAt(cut, key)|), "output_count");
  }

  /** Whatever the ceiling cuts, the record still tells the truth about what is left. */
  lemma CeilingTells(p: Value, k: string, meta: seq<Member>, max: nat, input: nat)
    requires Free(k) && p.Obj? && ArrayAt(p, Some(k)).Some?
    requires Get(p.members, META_KEY) == Some(Obj(meta)) && Counts(meta, input, |ItemsAt(p, Some(k))|)
    requires !Enforced(p, Some(k), EffectiveMax(p, meta, max)).1.stub
    ensures Tells(WithCeiling(p, Some(k), meta, max), k, input, ItemsAt(p, Some(k)))
  {
    var key := Some(k);
    var eff := EffectiveMax(p, meta, max);
    var (cut, o) := Enforced(p, key, eff);
    if o.truncated {
      CutKeepsAddress(p, key, eff);
      Reservation.CutAddress(p, key, eff);
      var record := CutRecord(meta, key, cut, o, max);
      CutRecordTells(meta, key, cut, o, max, input, |ItemsAt(p, key)|);
      AttachGet(cut.members, record, true, k);
      ArrayAtGet(cut.members, k, ItemsAt(cut, key));
      ArrayAtGet(Attach(cut, record, true).members, k, ItemsAt(cut, key));
    }
  }

  // ------------------------------------------------------ the shaping stages

  lemma CappedGet(ms: seq<Member>, max: nat, k: string)
    ensures Find(CapMembers(ms, max), k) == Find(ms, k)
  {
    FindSameKeys(ms, CapMembers(ms, max), k);
  }

  lemma ExtendedRecord(input: nat, output: nat, a: seq<Member>, b: seq<Member>, c: seq<Member>)
    requires Unreserved(a) && Unreserved(b) && Unreserved(c)
    ensures Counts(Record(input, output, a + b + c), input, output)
  {
    UnreservedConcat(a, b);
    UnreservedConcat(a + b, c);
    RecordCounts(input, output, a + b + c);
  }

  lemma ShapedRecord(s: Request.Surface, envelope: Value, key: Option<string>, items: seq<Value>,
                     ceiling: Option<QueryCeiling>, ctx: Context, more: seq<Member>)
    requires Unreserved(more)
    ensures Counts(ShapeItems(s, envelope, key, items, ceiling, ctx, more).meta, |items|, |Emitted(s, items, ctx)|)
  {
    hide Counts, Record, Emitted, Matched, RequestMembers, CappedNames, Capped;
    var n := |Emitted(s, items, ctx)|;
    RequestMembersUnreserved(s, ceiling);
    if s.countOnly && !s.writesReceipt {
      var scope := ScopeOfCount(n, |Matched(s, items, ctx)|, ceiling).Name();
      ExtendedRecord(|items|, n, RequestMembers(s, ceiling),
                     [Member("count_only", Bool(true)), Member("count_scope", Str(scope))], more);
    } else {
      var capped := CappedNames(envelope, s.maxItems);
      var suppressed := MemberIf(s.countOnly, "count_only_suppressed", Bool(true));
      UnreservedConcat(RequestMembers(s, ceiling), suppressed);
      ExtendedRecord(|items|, n, RequestMembers(s, ceiling) + suppressed,
                     MemberIf(capped != [], "secondary_capped", TextList(capped)), more);
    }
  }

  lemma ShapedPayload(s: Request.Surface, envelope: Value, k: string, items: seq<Value>,
                      ceiling: Option<QueryCeiling>, ctx: Context, more: seq<Member>)
    requires envelope.Obj? && !(s.countOnly && !s.writesReceipt)
    ensures var p := ShapeItems(s, envelope, Some(k), items, ceiling, ctx, more).payload;
            && p.Obj? && Get(p.members, k) == Some(Arr(Emitted(s, items, ctx)))
            && (k != TRUNCATED_KEY && FlagIsBoolean(envelope) ==> FlagIsBoolean(p))
  {
    hide Emitted, Matched, Record, RequestMembers, CappedNames, TextList, MemberIf, Put;
    var e := Capped(envelope, s.maxItems);
    CappedGet(envelope.members, s.maxItems, TRUNCATED_KEY);
    GetPut(e.members, k, Arr(Emitted(s, items, ctx)), k);
    GetPut(e.members, k, Arr(Emitted(s, items, ctx)), TRUNCATED_KEY);
  }

  /** The array branch of the surface on an object envelope, with its record. */
  predicate Reshapes(tables: Tables, s: Request.Surface, v: Value, ambient: Ambient, ceiling: Option<QueryCeiling>, k: string) {
    && v.Obj? && !IsPassthrough(v) && !s.IsNoop() && Unreserved(ambient.target)
    && Locate(v, tables.resultKeys) == Some(k)
    && ArrayAt(LocateIn(tables, s, v).value, Some(k)).Some?
    && Reshaped(tables, s, v, ambient, ceiling).Ok?
  }

  function InputItems(tables: Tables, s: Request.Surface, v: Value): seq<Value> {
    ItemsAt(LocateIn(tables, s, v).value, Locate(v, tables.resultKeys))
  }

  /** The payload and record just before the byte ceiling. */
  function BeforeCeiling(tables: Tables, s: Request.Surface, v: Value, ambient: Ambient, ceiling: Option<QueryCeiling>): Shaped
    requires Reshaped(tables, s, v, ambient, ceiling).Ok?
  {
    var shaped := Reshaped(tables, s, v, ambient, ceiling).value;
    Shaped(Recorded(shaped.payload, shaped.meta, s.truncateContent),
           ContentMeta(shaped.meta, CutContent(shaped.payload, s.truncateContent), s.truncateContent))
  }

  predicate Stubs(p: Value, key: Option<string>, meta: seq<Member>, max: nat) {
    Enforced(p, key, EffectiveMax(p, meta, max)).1.stub
  }

  lemma WithoutAliasesIsObject(v: Value, derived: seq<string>, key: Option<string>)
    requires v.Obj?
    ensures WithArray(WithoutAliases(v, derived), key, []).Obj?
  {
  }

  /** Before the ceiling: the record counts what was read and what is emitted, and holds nothing else under those keys. */
  lemma BeforeCeilingTells(tables: Tables, s: Request.Surface, v: Value, ambient: Ambient, ceiling: Option<QueryCeiling>, k: string)
    requires Reshapes(tables, s, v, ambient, ceiling, k) && Free(k) && !(s.countOnly && !s.writesReceipt)
    ensures var before := BeforeCeiling(tables, s, v, ambient, ceiling);
            var items := InputItems(tables, s, v);
            var ctx := tables.Context(s);
            && before.payload.Obj?
            && ArrayAt(before.payload, Some(k)) == Some(Shortened(Emitted(s, items, ctx), s.truncateContent))
            && Get(before.payload.members, META_KEY) == Some(Obj(before.meta))
            && Counts(before.meta, |items|, |Emitted(s, items, ctx)|)
  {
    var located := LocateIn(tables, s, v);
    var ctx := tables.Context(s);
    var items := InputItems(tables, s, v);
    var rest := WithArray(located.value, Some(k), []);
    var declared := Declared(tables, Some(k));
    var findings := Evaluate(s, Scope(items, rest, ctx.groups), declared, true, ceiling).value;
    var more := AmbientMembers(ambient, located.removed, findings, Some(k), declared);
    AmbientMembersUnreserved(ambient, located.removed, findings, Some(k), declared);
    WithoutAliasesIsObject(v, DerivedFor(tables.aliases, s.command, Some(k)), Some(k));
    var shaped := ShapeItems(s, rest, Some(k), items, ceiling, ctx, more);
    assert Reshaped(tables, s, v, ambient, ceiling) == Ok(shaped);
    ShapedRecord(s, rest, Some(k), items, ceiling, ctx, more);
    ShapedPayload(s, rest, k, items, ceiling, ctx, more);
    RecordedEnvelope(shaped.payload.members, k, Emitted(s, items, ctx), shaped.meta, s.truncateContent);
    ContentMetaCounts(shaped.meta, CutContent(shaped.payload, s.truncateContent), s.truncateContent,
                      |items|, |Emitted(s, items, ctx)|);
  }

  /** Every emitted, uncounted envelope: its array is a prefix of the projected and truncated image of
      the matched elements, and its record counts the original elements and the ones really there. */
  lemma EmittedEnvelopeTells(tables: Tables, s: Request.Surface, v: Value, ambient: Ambient, ceiling: Option<QueryCeiling>, k: string)
    requires Reshapes(tables, s, v, ambient, ceiling, k) && Free(k) && !(s.countOnly && !s.writesReceipt)
    requires var before := BeforeCeiling(tables, s, v, ambient, ceiling);
             !Stubs(before.payload, Some(k), before.meta, s.maxOutputBytes)
    ensures Apply(tables, s, v, ambient, ceiling).Ok?
    ensures Tells(Apply(tables, s, v, ambient, ceiling).value, k,
                  |InputItems(tables, s, v)|, Image(s, InputItems(tables, s, v), tables.Context(s)))
  {
    var before := BeforeCeiling(tables, s, v, ambient, ceiling);
    var items := InputItems(tables, s, v);
    BeforeCeilingTells(tables, s, v, ambient, ceiling, k);
    CeilingTells(before.payload, k, before.meta, s.maxOutputBytes, |items|);
    EmittedIsPrefix(s, items, tables.Context(s));
  }

  // -------------------------------------------------------- the byte ceiling

  lemma {:induction false} RemoveArraysGet(ms: seq<Member>, keys: seq<string>, k: string)
    requires !HoldsArray(ms, k)
    ensures Get(RemoveArrays(ms, keys), k) == Get(ms, k)
    decreases |keys|
  {
    if keys != [] {
      if HoldsArray(ms, keys[0]) {
        RemoveGet(ms, keys[0], k);
        RemoveArraysGet(Remove(ms, keys[0]), keys[1..], k);
      } else {
        RemoveArraysGet(ms, keys[1..], k);
      }
    }
  }

  /** Removing aliases and lifting the array out leaves a boolean flag alone. */
  lemma FlagSurvivesLocating(tables: Tables, s: Request.Surface, v: Value, key: Option<string>)
    requires v.Obj? && FlagIsBoolean(v)
    ensures FlagIsBoolean(WithArray(LocateIn(tables, s, v).value, key, []))
  {
    var located := LocateIn(tables, s, v).value;
    RemoveArraysGet(v.members, DerivedFor(tables.aliases, s.command, Locate(v, tables.resultKeys)), TRUNCATED_KEY);
    OtherMembersSurvive(located, key, [], TRUNCATED_KEY);
  }

  lemma ReadyFrom(p: Value, k: string, meta: seq<Member>, input: nat)
    requires p.Obj? && FlagIsBoolean(p) && Get(p.members, META_KEY) == Some(Obj(meta))
    requires ArrayAt(p, Some(k)).Some? && |ItemsAt(p, Some(k))| <= input && Counts(meta, input, |ItemsAt(p, Some(k))|)
    ensures Reservation.Ready(p, Some(k), meta) && WidestDropped(meta) == input
  {
  }

  /** The pipeline hands the ceiling an envelope the reservation analysis applies to. */
  lemma BeforeCeilingIsReady(tables: Tables, s: Request.Surface, v: Value, ambient: Ambient, ceiling: Option<QueryCeiling>, k: string)
    requires Reshapes(tables, s, v, ambient, ceiling, k) && Free(k) && !(s.countOnly && !s.writesReceipt)
    requires FlagIsBoolean(v)
    ensures var before := BeforeCeiling(tables, s, v, ambient, ceiling);
            && Reservation.Ready(before.payload, Some(k), before.meta)
            && WidestDropped(before.meta) == |InputItems(tables, s, v)|
  {
    var before := BeforeCeiling(tables, s, v, ambient, ceiling);
    hide BeforeCeiling, InputItems, Emitted, Matched, LocateIn, Reshaped, EncodedLen, Counts, ArrayAt, Get, FlagIsBoolean,
         Reservation.Ready, WidestDropped;
    BeforeCeilingTells(tables, s, v, ambient, ceiling, k);
    BeforeCeilingFlag(tables, s, v, ambient, ceiling, k);
    EmittedShrinks(s, InputItems(tables, s, v), tables.Context(s));
    ReadyFrom(before.payload, k, before.meta, |InputItems(tables, s, v)|);
  }

  lemma BeforeCeilingFlag(tables: Tables, s: Request.Surface, v: Value, ambient: Ambient, ceiling: Option<QueryCeiling>, k: string)
    requires Reshapes(tables, s, v, ambient, ceiling, k) && Free(k) && !(s.countOnly && !s.writesReceipt)
    requires FlagIsBoolean(v)
    ensures FlagIsBoolean(BeforeCeiling(tables, s, v, ambient, ceiling).payload)
  {
    var located := LocateIn(tables, s, v);
    var ctx := tables.Context(s);
    var items := InputItems(tables, s, v);
    var rest := WithArray(located.value, Some(k), []);
    var declared := Declared(tables, Some(k));
    var findings := Evaluate(s, Scope(items, rest, ctx.groups), declared, true, ceiling).value;
    var more := AmbientMembers(ambient, located.removed, findings, Some(k), declared);
    WithoutAliasesIsObject(v, DerivedFor(tables.aliases, s.command, Some(k)), Some(k));
    FlagSurvivesLocating(tables, s, v, Some(k));
    var shaped := ShapeItems(s, rest, Some(k), items, ceiling, ctx, more);
    assert Reshaped(tables, s, v, ambient, ceiling) == Ok(shaped);
    ShapedPayload(s, rest, k, items, ceiling, ctx, more);
    RecordedEnvelope(shaped.payload.members, k, Emitted(s, items, ctx), shaped.meta, s.truncateContent);
  }

  // ---------------------------------------------------------- counting rows

  /** The rows a count is about, whatever order they were asked in. */
  function Selection(s: Request.Surface, rows: seq<Value>, ctx: Context): seq<Value> {
    var kept := Shape.Kept(rows, s.filters, ctx);
    if s.dedupeBy.Some? then Shape.Deduped(kept, s.dedupeBy.value, ctx.groups) else kept
  }

  /** Sorting changes which duplicates survive, never how many. */
  lemma SortingKeepsTheCount(s: Request.Surface, items: seq<Value>, ctx: Context)
    ensures |Matched(s, items, ctx)| == |Selection(s, items, ctx)|
  {
    var kept := Shape.Kept(items, s.filters, ctx);
    if s.sort.Some? {
      Shape.SortedContents(kept, s.sort.value, ctx);
      if s.dedupeBy.Some? {
        Shape.DedupeCountPermuted(Shape.Sorted(kept, s.sort.value, ctx), kept,
                                  Shape.TextAt(Texts.Split(s.dedupeBy.value), ctx.groups));
      }
    }
  }

  /** A count labelled `matched` over a page with a known total is the count over the whole universe. */
  lemma MatchedCountIsUniversal(s: Request.Surface, universe: seq<Value>, c: QueryCeiling, ctx: Context)
    requires c.kind == Pagination && c.universeTotal == Some(|universe|)
    requires var items := PageOf(universe, c);
             ScopeOfCount(|Emitted(s, items, ctx)|, |Matched(s, items, ctx)|, Some(c)) == MatchedCount
    ensures |Emitted(s, PageOf(universe, c), ctx)| == |Selection(s, universe, ctx)|
  {
    var items := PageOf(universe, c);
    PageIsUniverse(universe, c);
    EmittedShrinks(s, items, ctx);
    SortingKeepsTheCount(s, universe, ctx);
  }

  /** The record of a count names its scope, unless something after it writes the same member. */
  lemma CountRecordNamesScope(input: nat, output: nat, a: seq<Member>, scope: Value, b: seq<Member>)
    requires forall i | 0 <= i < |b| :: b[i].key != "count_scope"
    ensures Get(Record(input, output, a + [Member("count_only", Bool(true)), Member("count_scope", scope)] + b), "count_scope")
            == Some(scope)
  {
    var base := [Member("input_count", Int(input)), Member("output_count", Int(output))];
    var head := a + [Member("count_only", Bool(true))];
    var last := [Member("count_scope", scope)];
    assert a + [Member("count_only", Bool(true)), Member("count_scope", scope)] + b == head + last + b;
    PutAllConcat(base, head + last, b);
    PutAllConcat(base, head, last);
    assert last[1..] == [];
    GetPut(PutAll(base, head), "count_scope", scope, "count_scope");
    PutAllKeeps(PutAll(base, head + last), b, "count_scope");
  }

  /** The count reaches the caller untouched by every later stage that does not replace it by the stub. */
  lemma CountSurvives(n: nat, key: Option<string>, meta: seq<Member>, limit: nat, max: nat)
    requires var payload := Obj([Member("count", Int(n))]);
             var m := ContentMeta(meta, CutContent(payload, limit), limit);
             !Stubs(Recorded(payload, meta, limit), key, m, max)
    ensures Finalized(Obj([Member("count", Int(n))]), key, meta, limit, max).Obj?
    ensures Get(Finalized(Obj([Member("count", Int(n))]), key, meta, limit, max).members, "count") == Some(Int(n))
  {
    var ms := [Member("count", Int(n))];
    var hit := CutContent(Obj(ms), limit);
    var cutMs := if limit == 0 then ms else Shape.TruncatedMembers(ms, limit);
    var m := ContentMeta(meta, hit, limit);
    TruncatedGet(ms, limit, "count");
    AttachGet(cutMs, m, hit, "count");
    var p := Recorded(Obj(ms), meta, limit);
    var eff := EffectiveMax(p, m, max);
    ScalarsSurvive(p, key, eff, "count");
    var (cut, o) := Enforced(p, key, eff);
    if o.truncated {
      AttachGet(cut.members, CutRecord(m, key, cut, o, max), true, "count");
    }
  }
}
