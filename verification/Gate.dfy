/** Which requests are turned down, and with what finding. */
module Gate {
  import opened Wrappers
  import opened Json
  import opened Texts
  import opened Filter
  import opened Vocabulary
  import opened Universe
  import opened Request
  import Shape

  datatype Flag = FilterFlag | SortFlag | DedupeFlag | SelectFlag | CountFlag | BytesFlag | ItemsFlag

  datatype Refusal =
    | NeedsWholeSet(flags: seq<Flag>)
    | FilterOnStream
    | Inert(flags: seq<Flag>)
    | FilterOverPage
    | CountOverPage
    | KeyEnvelopeOnly(flag: Flag, key: string)
    | KeyAbsent(flag: Flag, key: string)
    | SelectUnresolved

  datatype Findings = Findings(resolved: seq<string>, unresolved: seq<string>)

  /** What the request is resolved against. */
  datatype Scope = Scope(elements: seq<Value>, envelope: Value, groups: seq<seq<string>>) {
    function Classify(key: string): KeyOrigin {
      Vocabulary.Classify(elements, envelope, key, groups)
    }

    /** Some element answers to `key` when a shaping knob walks it. */
    predicate Addressed(key: string) {
      exists e :: e in elements && Lookup(e, Split(key), groups).Some?
    }
  }

  function FlagIf(given: bool, flag: Flag): seq<Flag> {
    if given then [flag] else []
  }

  function WholeSetFlags(s: Surface): seq<Flag> {
    FlagIf(s.countOnly, CountFlag) + FlagIf(s.sort.Some?, SortFlag) + FlagIf(s.dedupeBy.Some?, DedupeFlag)
    + FlagIf(s.maxOutputBytes > 0, BytesFlag) + FlagIf(s.maxItems > 0, ItemsFlag)
  }

  function InertFlags(s: Surface): seq<Flag> {
    FlagIf(s.filters != [], FilterFlag) + FlagIf(s.sort.Some?, SortFlag) + FlagIf(s.dedupeBy.Some?, DedupeFlag)
  }

  /** A limit of the query left rows out, and the request does not settle for the page. */
  predicate ATruncatedPage(s: Surface, ceiling: Option<QueryCeiling>) {
    && ceiling.Some? && ceiling.value.kind == Pagination && ceiling.value.TruncatedTheUniverse()
    && s.filterScope != Some(Page)
  }

  datatype Use = Use(flag: Flag, key: string)

  function FilterUses(filters: seq<FilterExpr>): (r: seq<Use>)
    ensures |r| == |filters|
    ensures forall i | 0 <= i < |r| :: r[i] == Use(FilterFlag, filters[i].Key())
  {
    if filters == [] then [] else [Use(FilterFlag, filters[0].Key())] + FilterUses(filters[1..])
  }

  /** The keys a predicate, an order or a deduplication will walk, in the order they are judged. */
  function PredicateUses(s: Surface): seq<Use> {
    FilterUses(s.filters)
    + (if s.sort.Some? then [Use(SortFlag, s.sort.value)] else [])
    + (if s.dedupeBy.Some? then [Use(DedupeFlag, s.dedupeBy.value)] else [])
  }

  function RefuseUnusable(scope: Scope, uses: seq<Use>): (r: Option<Refusal>)
    ensures r.None? <==> forall i | 0 <= i < |uses| :: scope.Classify(uses[i].key) == Element
    ensures r.Some? && r.value.KeyAbsent? ==> scope.Classify(r.value.key) == Absent
    ensures r.Some? && r.value.KeyEnvelopeOnly? ==> scope.Classify(r.value.key) == EnvelopeOnly
    ensures r.Some? ==> r.value.KeyAbsent? || r.value.KeyEnvelopeOnly?
    decreases |uses|
  {
    if uses == [] then None
    else
      match scope.Classify(uses[0].key)
      case Element => RefuseUnusable(scope, uses[1..])
      case EnvelopeOnly => Some(KeyEnvelopeOnly(uses[0].flag, uses[0].key))
      case Absent => Some(KeyAbsent(uses[0].flag, uses[0].key))
  }

  function KeysOf(keys: seq<string>, scope: Scope, origin: KeyOrigin, wanted: bool): (r: seq<string>)
    ensures forall k :: k in r <==> k in keys && (scope.Classify(k) == origin) == wanted
  {
    if keys == [] then []
    else
      assert forall k :: k in keys <==> k == keys[0] || k in keys[1..];
      (if (scope.Classify(keys[0]) == origin) == wanted then [keys[0]] else [])
      + KeysOf(keys[1..], scope, origin, wanted)
  }

  /** Projection targets declared elements, and the envelope otherwise. */
  function ResolveProjection(s: Surface, scope: Scope, onElements: bool): Result<Findings, Refusal> {
    var origin := if onElements then Element else EnvelopeOnly;
    var resolved := KeysOf(s.select, scope, origin, true);
    if s.select == [] then Ok(Findings([], []))
    else if resolved == [] then Err(SelectUnresolved)
    else Ok(Findings(resolved, KeysOf(s.select, scope, origin, false)))
  }

  /** Refusals that no key is to blame for. */
  function RefuseShape(s: Surface, hasArray: bool, ceiling: Option<QueryCeiling>): Option<Refusal> {
    if s.streamed && WholeSetFlags(s) != [] then Some(NeedsWholeSet(WholeSetFlags(s)))
    else if s.streamed && s.filters != [] then Some(FilterOnStream)
    else if !hasArray && InertFlags(s) != [] then Some(Inert(InertFlags(s)))
    else if s.filters != [] && ATruncatedPage(s, ceiling) then Some(FilterOverPage)
    else if s.countOnly && ATruncatedPage(s, ceiling) then Some(CountOverPage)
    else None
  }

  function Evaluate(s: Surface, scope: Scope, declared: bool, hasArray: bool, ceiling: Option<QueryCeiling>)
    : Result<Findings, Refusal>
  {
    if s.mutates then Ok(Findings([], []))
    else if RefuseShape(s, hasArray, ceiling).Some? then Err(RefuseShape(s, hasArray, ceiling).value)
    else if s.allowUnknownKeys || (hasArray && scope.elements == []) then Ok(Findings([], []))
    else if RefuseUnusable(scope, PredicateUses(s)).Some? then Err(RefuseUnusable(scope, PredicateUses(s)).value)
    else ResolveProjection(s, scope, hasArray && declared)
  }

  /** The verdict for a stream of records: no envelope, no ceiling, records judged once. */
  function EvaluateStream(s: Surface, scope: Scope): Result<Findings, Refusal> {
    if s.mutates then Ok(Findings([], []))
    else if WholeSetFlags(s) != [] then Err(NeedsWholeSet(WholeSetFlags(s)))
    else if s.filters != [] then Err(FilterOnStream)
    else if s.allowUnknownKeys || scope.elements == [] then Ok(Findings([], []))
    else ResolveProjection(s, scope, true)
  }

  // ------------------------------------------------------------- soundness

  lemma AddressedIff(scope: Scope, key: string)
    requires NoDots(scope.groups)
    ensures scope.Classify(key) == Element <==> scope.Addressed(key)
  {
    GateAndWalkAgree(scope.elements, scope.envelope, key, scope.groups);
  }

  /** The predicate a filter expression walks is the key the gate judged. */
  lemma FilterPathIsKey(s: Surface, i: nat)
    requires s.Parsed() && i < |s.filters|
    ensures Split(s.filters[i].Key()) == s.filters[i].path
  {
    SplitJoin(s.filters[i].path);
  }

  // ------------------------------------------------------- refusals of shape

  /** A knob that acts on all elements at once. */
  predicate WantsWholeSet(s: Surface) {
    s.countOnly || s.sort.Some? || s.dedupeBy.Some? || s.maxOutputBytes > 0 || s.maxItems > 0
  }

  /** A knob that needs elements at all. */
  predicate WantsElements(s: Surface) {
    s.filters != [] || s.sort.Some? || s.dedupeBy.Some?
  }

  /** The rows are a page of more, and the request did not say that a page will do. */
  predicate MissesRows(s: Surface, ceiling: Option<QueryCeiling>) {
    && ceiling.Some? && ceiling.value.kind == Pagination && s.filterScope != Some(Page)
    && (ceiling.value.offset > 0
        || (ceiling.value.universeTotal.Some? && ceiling.value.applied < ceiling.value.universeTotal.value))
  }

  /** The request cannot be honoured, whatever its keys are. */
  predicate Misshapen(s: Surface, hasArray: bool, ceiling: Option<QueryCeiling>) {
    || (s.streamed && (WantsWholeSet(s) || s.filters != []))
    || (!hasArray && WantsElements(s))
    || (MissesRows(s, ceiling) && (s.filters != [] || s.countOnly))
  }

  /** The flags reported are the ones given. */
  predicate NamesWholeSet(s: Surface, flags: seq<Flag>) {
    && (CountFlag in flags <==> s.countOnly) && (SortFlag in flags <==> s.sort.Some?)
    && (DedupeFlag in flags <==> s.dedupeBy.Some?) && (BytesFlag in flags <==> s.maxOutputBytes > 0)
    && (ItemsFlag in flags <==> s.maxItems > 0) && FilterFlag !in flags && SelectFlag !in flags
  }

  predicate NamesElements(s: Surface, flags: seq<Flag>) {
    && (FilterFlag in flags <==> s.filters != []) && (SortFlag in flags <==> s.sort.Some?)
    && (DedupeFlag in flags <==> s.dedupeBy.Some?)
    && CountFlag !in flags && BytesFlag !in flags && ItemsFlag !in flags && SelectFlag !in flags
  }

  predicate AboutKeys(r: Refusal) {
    r.KeyAbsent? || r.KeyEnvelopeOnly? || r.SelectUnresolved?
  }

  /** Which refusal a request meets first. Under the write fence there is none at all. */
  lemma FirstRefusal(s: Surface, scope: Scope, declared: bool, hasArray: bool, ceiling: Option<QueryCeiling>)
    ensures var verdict := Evaluate(s, scope, declared, hasArray, ceiling);
            if s.mutates then verdict == Ok(Findings([], []))
            else if s.streamed && WantsWholeSet(s) then
              verdict.Err? && verdict.error.NeedsWholeSet? && NamesWholeSet(s, verdict.error.flags)
            else if s.streamed && s.filters != [] then verdict == Err(FilterOnStream)
            else if !hasArray && WantsElements(s) then
              verdict.Err? && verdict.error.Inert? && NamesElements(s, verdict.error.flags)
            else if s.filters != [] && MissesRows(s, ceiling) then verdict == Err(FilterOverPage)
            else if s.countOnly && MissesRows(s, ceiling) then verdict == Err(CountOverPage)
            else if !Judged(s, scope, hasArray) then verdict == Ok(Findings([], []))
            else verdict.Err? ==> AboutKeys(verdict.error)
  {
    WholeSetIsNamed(s);
    ElementsAreNamed(s);
    hide WholeSetFlags, InertFlags, NamesWholeSet, NamesElements;
  }

  lemma WholeSetIsNamed(s: Surface)
    ensures NamesWholeSet(s, WholeSetFlags(s)) && (WholeSetFlags(s) != [] <==> WantsWholeSet(s))
  {
    var flags := WholeSetFlags(s);
    assert flags != [] ==> flags[0] in flags;
  }

  lemma ElementsAreNamed(s: Surface)
    ensures NamesElements(s, InertFlags(s)) && (InertFlags(s) != [] <==> WantsElements(s))
  {
    var flags := InertFlags(s);
    assert flags != [] ==> flags[0] in flags;
  }

  lemma MisshapenIff(s: Surface, hasArray: bool, ceiling: Option<QueryCeiling>)
    ensures RefuseShape(s, hasArray, ceiling).Some? <==> Misshapen(s, hasArray, ceiling)
  {
    WholeSetIsNamed(s);
    ElementsAreNamed(s);
    hide WholeSetFlags, InertFlags, NamesWholeSet, NamesElements;
  }

  /** The fence is down and the request was judged against real elements. */
  predicate Judged(s: Surface, scope: Scope, hasArray: bool) {
    !s.mutates && !s.allowUnknownKeys && !(hasArray && scope.elements == [])
  }

  /** A request passes the gate exactly when its shape is allowed, every predicate key is
      answered by some element under the walk that will use it, and some projected key resolves. */
  lemma VerdictIff(s: Surface, scope: Scope, declared: bool, hasArray: bool, ceiling: Option<QueryCeiling>)
    requires NoDots(scope.groups) && Judged(s, scope, hasArray)
    ensures Evaluate(s, scope, declared, hasArray, ceiling).Ok? <==>
            && !Misshapen(s, hasArray, ceiling)
            && (forall u | u in PredicateUses(s) :: scope.Addressed(u.key))
            && (s.select == [] ||
                exists k | k in s.select :: scope.Classify(k) == if hasArray && declared then Element else EnvelopeOnly)
  {
    hide RefuseShape, Misshapen;
    MisshapenIff(s, hasArray, ceiling);
    var uses := PredicateUses(s);
    forall u | u in uses ensures scope.Classify(u.key) == Element <==> scope.Addressed(u.key) {
      AddressedIff(scope, u.key);
    }
    assert RefuseUnusable(scope, uses).None? <==> forall u | u in uses :: scope.Addressed(u.key);
    var origin := if hasArray && declared then Element else EnvelopeOnly;
    var resolved := KeysOf(s.select, scope, origin, true);
    if resolved != [] {
      assert resolved[0] in s.select;
    }
  }

  /** Expressions that parsing produced have paths the gate and the walk agree on. */
  lemma ReadIsParsed(s: Surface, raws: seq<string>)
    requires s.ReadFrom(raws)
    ensures s.Parsed()
  {
    forall i | 0 <= i < |s.filters|
      ensures s.filters[i].path != [] && forall j | 0 <= j < |s.filters[i].path| :: '.' !in s.filters[i].path[j]
    {
      ParsedPathIsDotless(raws[i]);
    }
  }

  /** An admitted predicate addresses at least one element through its own parsed path. */
  lemma AdmittedPredicateAddresses(s: Surface, raws: seq<string>, scope: Scope, declared: bool, hasArray: bool,
                                   ceiling: Option<QueryCeiling>, i: nat)
    requires NoDots(scope.groups) && Judged(s, scope, hasArray) && s.ReadFrom(raws) && i < |s.filters|
    requires Evaluate(s, scope, declared, hasArray, ceiling).Ok?
    ensures exists e :: e in scope.elements && Lookup(e, s.filters[i].path, scope.groups).Some?
  {
    VerdictIff(s, scope, declared, hasArray, ceiling);
    ReadIsParsed(s, raws);
    FilterPathIsKey(s, i);
    assert FilterUses(s.filters)[i] in PredicateUses(s);
  }

  /** A refused key is really out of reach of every element, and an absent one of the envelope too. */
  lemma RefusedKeyIsUnreachable(s: Surface, scope: Scope, declared: bool, hasArray: bool, ceiling: Option<QueryCeiling>)
    requires NoDots(scope.groups)
    requires Evaluate(s, scope, declared, hasArray, ceiling).Err?
    ensures match Evaluate(s, scope, declared, hasArray, ceiling).error
            case KeyAbsent(_, key) => !scope.Addressed(key) && Lookup(scope.envelope, Split(key), scope.groups).None?
            case KeyEnvelopeOnly(_, key) => !scope.Addressed(key) && Lookup(scope.envelope, Split(key), scope.groups).Some?
            case _ => true
  {
    var e := Evaluate(s, scope, declared, hasArray, ceiling).error;
    if e.KeyAbsent? || e.KeyEnvelopeOnly? {
      GateAndWalkAgree(scope.elements, scope.envelope, e.key, scope.groups);
    }
  }

  /** The first use whose key no element answers is the one refused, by its own flag and key,
      and for whether the envelope answers it. */
  lemma FirstUnusableIsRefused(s: Surface, scope: Scope, declared: bool, hasArray: bool, ceiling: Option<QueryCeiling>, i: nat)
    requires NoDots(scope.groups) && Judged(s, scope, hasArray) && !Misshapen(s, hasArray, ceiling)
    requires i < |PredicateUses(s)| && !scope.Addressed(PredicateUses(s)[i].key)
    requires forall j | 0 <= j < i :: scope.Addressed(PredicateUses(s)[j].key)
    ensures var u := PredicateUses(s)[i];
            Evaluate(s, scope, declared, hasArray, ceiling) ==
            Err(if Lookup(scope.envelope, Split(u.key), scope.groups).Some? then KeyEnvelopeOnly(u.flag, u.key)
                else KeyAbsent(u.flag, u.key))
  {
    hide RefuseShape, Misshapen, PredicateUses;
    MisshapenIff(s, hasArray, ceiling);
    var uses := PredicateUses(s);
    forall j | 0 <= j < i ensures scope.Classify(uses[j].key) == Element {
      AddressedIff(scope, uses[j].key);
    }
    GateAndWalkAgree(scope.elements, scope.envelope, uses[i].key, scope.groups);
    UnusableAt(scope, uses, i);
  }

  lemma {:induction false} UnusableAt(scope: Scope, uses: seq<Use>, i: nat)
    requires i < |uses| && scope.Classify(uses[i].key) != Element
    requires forall j | 0 <= j < i :: scope.Classify(uses[j].key) == Element
    ensures RefuseUnusable(scope, uses) ==
            Some(if scope.Classify(uses[i].key) == Absent then KeyAbsent(uses[i].flag, uses[i].key)
                 else KeyEnvelopeOnly(uses[i].flag, uses[i].key))
    decreases i
  {
    if i > 0 {
      assert uses[1..][i - 1] == uses[i];
      UnusableAt(scope, uses[1..], i - 1);
    }
  }

  /** The keys judged: those of the filters in order, then the one sorted on, then the one deduplicated on. */
  lemma UsesInOrder(s: Surface)
    ensures var uses, n := PredicateUses(s), |s.filters|;
            && (forall i | 0 <= i < n :: i < |uses| && uses[i] == Use(FilterFlag, Join(s.filters[i].path)))
            && (s.sort.Some? ==> n < |uses| && uses[n] == Use(SortFlag, s.sort.value))
            && (s.dedupeBy.Some? ==> n < |uses| && uses[|uses| - 1] == Use(DedupeFlag, s.dedupeBy.value))
            && |uses| == n + (if s.sort.Some? then 1 else 0) + (if s.dedupeBy.Some? then 1 else 0)
  {
  }

  /** What an accepted request is told about its projection: each key resolved or not, by elements of a declared
      array, and else by the envelope alone; nothing when nothing was judged. */
  lemma FindingsTell(s: Surface, scope: Scope, declared: bool, hasArray: bool, ceiling: Option<QueryCeiling>, k: string)
    requires NoDots(scope.groups) && Evaluate(s, scope, declared, hasArray, ceiling).Ok?
    ensures var findings := Evaluate(s, scope, declared, hasArray, ceiling).value;
            var found := if hasArray && declared then scope.Addressed(k)
                         else !scope.Addressed(k) && Lookup(scope.envelope, Split(k), scope.groups).Some?;
            if Judged(s, scope, hasArray) then
              && (k in findings.resolved <==> k in s.select && found)
              && (k in findings.unresolved <==> k in s.select && !found)
            else findings == Findings([], [])
  {
    hide RefuseShape, PredicateUses, RefuseUnusable;
    GateAndWalkAgree(scope.elements, scope.envelope, k, scope.groups);
  }

  /** A projection over a fallback array is judged on the envelope, so a key it resolved is in no element
      it emits; when every key resolved, each object among the elements comes out empty. */
  lemma FallbackEmptiesElements(s: Surface, scope: Scope, hasArray: bool, ceiling: Option<QueryCeiling>, e: Value)
    requires NoDots(scope.groups) && e in scope.elements && e.Obj?
    requires Evaluate(s, scope, false, hasArray, ceiling).Ok? && Evaluate(s, scope, false, hasArray, ceiling).value.resolved != []
    ensures var findings := Evaluate(s, scope, false, hasArray, ceiling).value;
            var emitted := Shape.ProjectOne(e, s.select, scope.groups);
            && emitted.Obj?
            && (forall k | k in findings.resolved :: !scope.Addressed(k) && Get(emitted.members, k).None?)
            && (findings.unresolved == [] ==> emitted == Obj([]))
  {
    var findings := Evaluate(s, scope, false, hasArray, ceiling).value;
    assert findings.resolved[0] in findings.resolved;
    forall k | k in findings.resolved
      ensures k in s.select && !scope.Addressed(k) && Get(Shape.ProjectOne(e, s.select, scope.groups).members, k).None?
    {
      AddressedIff(scope, k);
      Shape.ProjectionPromise(e, s.select, scope.groups, k);
    }
    if findings.unresolved == [] {
      forall k | k in s.select ensures Lookup(e, Split(k), scope.groups).None? {
        assert k !in findings.unresolved;
      }
      Shape.NothingProjected([], e, s.select, scope.groups);
    }
  }

  /** Over a declared array the opposite: a resolved key addresses some element. */
  lemma DeclaredKeyAddresses(s: Surface, scope: Scope, ceiling: Option<QueryCeiling>, k: string)
    requires NoDots(scope.groups)
    requires Evaluate(s, scope, true, true, ceiling).Ok?
    requires k in Evaluate(s, scope, true, true, ceiling).value.resolved
    ensures scope.Addressed(k)
  {
    AddressedIff(scope, k);
  }
}
