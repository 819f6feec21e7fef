# Verified model of sqlite-graphrag

A Dafny model of the parts of the command line tool whose correctness cannot be
seen from one function: the surface that reshapes every JSON answer, the lock
files through which processes agree on who may run, the splitters that cut
bodies into chunks and partitions, and the loops that rank vectors and talk to
a chat server. `dafny verify dfyconfig.toml` checks everything.

## Reading order

**The output surface.** `Json` holds values, their compact text (sections 4, 5
and 7 of RFC 8259) and the byte length of that text; `Reading` reads that text
back. `Filter`, `Vocabulary`,
`Shape`, `StableSort` and `Universe` are the primitives; `Gate` decides what
cannot be honoured; `Budget` and `Finalize` enforce and record the byte
ceiling; `Surface` composes them as functions, `Shaping` as the program does,
step by step on an envelope and its record; `Stream` is the process that opens a
record stream, emits lines and writes trailers, in any order. The end-to-end
results are in `Promises`, `Answers`, `Reservation` and `Overruns`; `Pipeline`
and `Reports` say what an answer holds on the elements and members themselves,
without the functions that compute it.

**Locks.** `LlmSlots` and `FileLocks` are step relations over files, handles
and processes; results hold for every interleaving.

**Text.** `Utf8`, `Chunking`, `Sections`, `Tokens`, `Urls`.

**Numbers and retries.** `Similarity` over the reals, `ChatApi` against an
arbitrary server.

## What the proofs found

- The reservation for the cut record falls short. The comments at
  src/agent_surface/mod.rs:644-650 and 682-684 say it never can, because
  `dropped` is measured at its widest value. It is measured at the width of
  `input_count`, and drained secondary arrays count into `dropped` as well.
  `Finalize.CeilingPromise` bounds the overrun by the difference in digits;
  `Overruns.SurfaceHonouredIff` says which requests honour every ceiling they
  could be given. `Overruns.SurfaceOverruns` follows a family of envelopes through the
  whole surface (fewer than ten results, ten or more elements in other arrays):
  each answers over some requested ceiling. `Overruns.TenEdgesOverrun` is the
  member `{"edges":[ten zeros],"nodes":[]}`.
- `split_into_chunks` need not end. `Chunking.TerminatesIff` gives the exact
  condition and `Chunking.ShortWordThenLongWordLoops` a family of bodies (a
  short word, a space, a long word) on which it loops.
- Finding a stale LLM slot and removing its file are separate steps.
  `LlmSlots.ScanAndReapRace` is a run in which a ceiling of one yields two live
  guards; `LlmSlots.RemovalSafeIff` says exactly which removals are safe.
- A slot left by a dead process comes back by itself exactly when its file has a
  pid line, or another process had read or found an earlier file there
  (`LlmSlots.ComesBackIff`). A process that dies between creating its file and
  writing its pid therefore loses the slot for good, unless such a scan was under
  way (`LlmSlots.CrashBeforePidLeaksIff`).
- `--force` on a singleton lock is safe exactly when nobody has the file open,
  locked or not (`FileLocks.ForceSafeIff`).
- `sort` compares two numbers numerically and anything else as text, which is
  not transitive on every mixture: 10, "5", 9 goes round in a circle, and the
  standard library may then panic or return any order.
  `Shape.ConsistentIff` is the exact condition on the values: no value other than
  a number lies, as text, between two numbers whose texts and values disagree.
- `complete` documents an error when the last answer is still truncated. The
  code raises one exactly when the content is missing, blank, beyond repair or
  no object, truncated or not (`ChatApi.ErrorIff`).
- The trailer of a stream is to report how many records were cut.
  `ingest --enrich-after` emits records after its trailer
  (src/commands/ingest/run.rs:96-99), so the count falls short
  (`Stream.EnrichAfterIsUndercounted`); `Stream.TrailerCountsAllIff` says exactly
  when a trailer counts every cut record of its run.
- A stream that was never opened is documented to pass records on untouched
  (src/agent_surface/stream.rs:97-112). It cuts their strings to the content
  limit all the same, and under `--select` it empties every object;
  `Stream.UnopenedPassesIff` is the exact condition for a line to be its record.
- The gate resolves a key as text and the knobs walk it as a path. They agree on
  every payload if and only if no synonym of its last segment has a dot
  (`Vocabulary.AgreementIff`); the shipped table has none.
- A configured `cli.max_instances` of zero makes the clamp of the requested
  concurrency panic (`FileLocks.SlotLimit` has no value there).
- A projection over an array elected by fallback is judged on the envelope, so
  a key it accepted is in no element; when it accepted every key, each element
  that is an object comes out empty (`Gate.FallbackEmptiesElements`).

## Model

| member | source | states |
|---|---|---|
| `Json.ObjLen` | src/agent_surface/mod.rs:713-715 | an object costs its members and two braces |
| `Json.ItemsLenConcat` | src/agent_surface/budget.rs:26-28 | joined element lists cost their parts and one comma when both are nonempty |
| `Json.PutLen` | src/agent_surface/mod.rs:685-711 | a map insertion costs the difference of two values, or a whole member and its comma |
| `Json.GetPut` | src/agent_surface/mod.rs:732-740 | reading after inserting: the new value under that key, everything else as before |
| `Json.PutKeepsOrder` | src/agent_surface/mod.rs:516-522 | insertion keeps keys ascending and unique, as a B-tree map does |
| `Json.DigitsMonotone` | src/agent_surface/mod.rs:644-648 | a smaller number never has more digits |
| `Reading.DigitsRead` | src/agent_surface/mod.rs:644-648 | the digits written read back as the number |
| `Reading.UnescapeEscape` | src/agent_surface/budget.rs:26-28 | an escaped string reads back as itself, for every string |
| `Reading.EscapeIsClean` | src/agent_surface/budget.rs:26-28 | its text has no control character and no bare quote |
| `Reading.TextLessIff` | src/agent_surface/mod.rs:516-522 | keys are ordered by their first difference, a proper prefix first |
| `Budget.WithArrayLen` | src/agent_surface/budget.rs:62-75 | putting an array back costs exactly the text of its elements over the emptied envelope |
| `Budget.DrainSecondaryArrays` | src/agent_surface/budget.rs:78-90 | every array but the addressed one is emptied, and the count is what they held |
| `Budget.SecondaryArrayKeys` | src/agent_surface/budget.rs:48-58 | names exactly the arrays other than the addressed one; naming none means draining would change and drop nothing |
| `Budget.ScanPrefix` | src/agent_surface/budget.rs:121-142 | the running-cost scan stops at the longest prefix that fits when re-serialized |
| `Budget.TakeSkeleton` | src/agent_surface/budget.rs:101-120 | secondary arrays are drained only when emptying the primary one is not enough |
| `Budget.CutToFit` | src/agent_surface/budget.rs:121-167 | the cut is the naive one: longest fitting prefix, empty array, or stub |
| `Budget.Enforce` | src/agent_surface/budget.rs:96-167 | the one-pass ceiling equals the definition that re-serializes every prefix |
| `Budget.FitsOrStub` | src/agent_surface/budget.rs:96-167 | a result that is not the stub fits; nothing is cut exactly when the value fit |
| `Budget.KeepsLongestPrefix` | src/agent_surface/budget.rs:121-150 | what survives is a prefix, and no longer prefix would have fit in that envelope |
| `Budget.SecondariesGoLast` | src/agent_surface/budget.rs:104-120 | if the emptied envelope fits, secondary arrays are untouched and `dropped` counts primary elements only |
| `Budget.StubIsLastResort` | src/agent_surface/budget.rs:96-167 | the stub exactly when the value, the value without its elements and that with all other arrays emptied are over the ceiling |
| `Budget.DroppedIsWhatIsMissing` | src/agent_surface/budget.rs:112-167 | conservation: elements left plus `dropped` are the elements there were, stub included |
| `Budget.CutIsReported` | src/agent_surface/budget.rs:96-167 | an envelope that was cut reports at least one element gone |
| `Budget.Idempotent` | src/agent_surface/budget.rs:96-167 | enforcing the same ceiling again changes nothing, stub or not |
| `Budget.ScalarsSurvive` | src/agent_surface/budget.rs:96-167 | members that are not arrays come through under the same keys |
| `Finalize.AttachGet` | src/agent_surface/mod.rs:732-740 | attaching writes the record, raises the flag if asked, and touches nothing else |
| `Finalize.Finish` | src/agent_surface/mod.rs:614-667 | the stepwise stage equals truncate, attach, enforce, record, in one function; the next rows say what comes out of it |
| `Reports.CutIsOnRecord` | src/agent_surface/mod.rs:638-667 | the stub, or the envelope as it was, or shorter; and then its record holds `output_truncated`, the requested ceiling, and as `dropped` exactly the elements that are missing |
| `Reports.AnswerReportsItsCut` | src/agent_surface/mod.rs:614-667 | the same over the whole surface, for every answer that carries a record |
| `Finalize.CutLength` | src/agent_surface/mod.rs:614-667 | the length of a cut envelope with its record, to the byte |
| `Finalize.CutFits` | src/agent_surface/mod.rs:614-715 | a cut object envelope exceeds the ceiling by at most the digits `dropped` gained over `input_count` |
| `Finalize.CeilingPromise` | src/agent_surface/mod.rs:614-715 | every payload with a boolean flag: the stub, or within the ceiling up to that overrun |
| `Finalize.RequestedStubReports` | src/agent_surface/mod.rs:653-665 | the stub names the requested ceiling, not the discounted one |
| `Finalize.StubReads` | src/agent_surface/budget.rs:152-167 | the stub holds the flag, the reason and the ceiling, and no more |
| `Reservation.EmittedLength` | src/agent_surface/mod.rs:614-715 | emitted length = ceiling - slack + digits missed - digits and flag bytes saved |
| `Reservation.CeilingFor` | src/agent_surface/mod.rs:633-637 | every positive effective ceiling is reached by some requested one |
| `Reservation.DeficitShows` | src/agent_surface/mod.rs:685-711 | a ceiling that drains exactly is missed by the whole deficit |
| `Reservation.CeilingHonouredIff` | src/agent_surface/mod.rs:685-711 | all ceilings are honoured if and only if every reachable drain has no digit deficit |
| `Overruns.SurfaceHonouredIff` | src/agent_surface/mod.rs:614-715 | the same over the whole surface: a request is answered by the stub or within the ceiling, for every ceiling, if and only if what it shapes has no such deficit |
| `Reservation.NarrowIsHonoured` | src/agent_surface/mod.rs:685-711 | enough by inspection: all array elements together no wider than `input_count` |
| `Reservation.WideSecondariesOverrun` | src/agent_surface/mod.rs:685-711 | fewer than ten elements on record, ten or more in other arrays, no lowered flag: some ceiling is exceeded by an envelope that is not the stub |
| `Overruns.SurfaceOverruns` | src/agent_surface/mod.rs:614-715 | the same from the envelope the surface receives: every request that leaves the other arrays alone, given some ceiling, is answered over it, record and all |
| `Overruns.TenEdgesOverrun` | src/agent_surface/mod.rs:614-715 | one such input, under the shipped result keys and a byte ceiling alone |
| `Reservation.WidthReaches` | src/agent_surface/mod.rs:685-711 | every difference between a number and its own width is attained |
| `Filter.Parse` | src/agent_surface/filter.rs:57-87 | trying four separators for the earliest and longest equals cutting at the first operator |
| `Filter.ParseInvertsPrint` | src/agent_surface/filter.rs:44-96 | parsing `key op value` gives them back if and only if key and value are printable |
| `Filter.ParsedPathIsDotless` | src/agent_surface/filter.rs:57-96 | whatever is parsed has a path of at least one segment, none with a dot |
| `Filter.ExpressionKeeps` | src/agent_surface/filter.rs:57-127 | from raw text: `k=w`, `k==w`, `k!=w` and `k~w` keep an element where `k` reads as `t` exactly when equal, equal, different, containing up to case; where it has no text only `!=` does |
| `Filter.MemberIsFound` | src/agent_surface/filter.rs:147-174 | a dotless key in no synonym group is the member of that name, or nothing |
| `Filter.LookupIs` | src/agent_surface/filter.rs:147-164 | a key is answered under its own spelling, else under the first synonym that resolves, else not |
| `Filter.Walk` | src/agent_surface/filter.rs:167-174 | the cursor loop follows the path one member at a time |
| `Filter.SynonymsOf` | src/agent_surface/filter.rs:184-200 | the siblings of a leaf: exactly the other names in the groups that hold it, each once |
| `Filter.SynonymsIff` | src/agent_surface/filter.rs:184-200 | the same of the function the walks use |
| `Shape.SynonymsInOrder` | src/agent_surface/filter.rs:184-200 | they come in table order, each at its first place |
| `Shape.GroupsInOrder` | src/constants/search.rs:183-206 | the groups in force stand in table order |
| `Filter.GroupsFor` | src/constants/search.rs:183-206 | a group is in force when it names no command or names this one |
| `Filter.FirstWalkedSome` | src/agent_surface/filter.rs:147-164 | the fallback finds something exactly when some sibling spelling resolves |
| `Filter.EqualsNegatesNotEquals` | src/agent_surface/filter.rs:114-127 | `=` and `!=` partition every payload, missing values included |
| `Texts.JoinSplit` | src/agent_surface/filter.rs:94-96 | splitting a key at dots and joining it gives it back |
| `Texts.SplitJoin` | src/agent_surface/filter.rs:94-96 | joining dotless segments and splitting gives them back |
| `Texts.TrimShrinks` | src/agent_surface/filter.rs:77-80 | a key is trimmed exactly when it has no whitespace at either end |
| `Texts.TrimIs` | src/agent_surface/filter.rs:77-80 | trimming takes the whitespace at both ends, all of it, and nothing else |
| `Vocabulary.SpellingsOf` | src/agent_surface/vocabulary.rs:61-79 | the key first, then exactly its respellings under the same prefix, each once |
| `Vocabulary.SpellingsIff` | src/agent_surface/vocabulary.rs:61-79 | a text is a spelling of a key if and only if it is the key or replaces its last segment by a sibling |
| `Vocabulary.SpellingsAreSynonyms` | src/agent_surface/vocabulary.rs:61-79 | the gate's spellings are the key and the walk's synonyms under its prefix, in order |
| `Vocabulary.ResolversAgree` | src/agent_surface/vocabulary.rs:144-165 | on one value the text resolver and the path walk agree, for a key whose synonyms have no dots |
| `Vocabulary.GateAndWalkAgree` | src/agent_surface/vocabulary.rs:144-165 | `Element` exactly when some element answers the walk; `Absent` exactly when neither elements nor envelope do |
| `Vocabulary.ShippedSynonymsHaveNoDots` | src/constants/search.rs:183-206 | the shipped table has no dotted spelling, so the agreement holds for every command |
| `Vocabulary.ParsedKeyIsItsPath` | src/agent_surface/filter.rs:57-96 | the key the gate judges splits to the path the predicate walks |
| `Vocabulary.AgreementIff` | src/agent_surface/vocabulary.rs:61-165 | the two resolvers agree on every value if and only if no synonym of the last segment has a dot |
| `Vocabulary.EffectiveKeyExists` | src/agent_surface/vocabulary.rs:187-201 | a spelling in use exists exactly when the key is not absent |
| `Vocabulary.EffectiveKeyIsFirst` | src/agent_surface/vocabulary.rs:187-201 | it is the first spelling some element carries |
| `Gate.VerdictIff` | src/agent_surface/gate.rs:110-168 | a request passes if and only if it is not misshapen, by its own fields and those of the query limit, every predicate key is answered by some element, and some projected key resolves |
| `Gate.FirstRefusal` | src/agent_surface/gate.rs:110-283 | which refusal comes first and with which flags: whole-set knobs and predicates on a stream, element knobs without an array, a filter and then a count over a page that misses rows; none under the write fence |
| `Gate.UsesInOrder` | src/agent_surface/gate.rs:149-157 | the keys judged are those of the filters in order, the sort, the deduplication |
| `Gate.FindingsTell` | src/agent_surface/gate.rs:448-470 | each projected key is reported resolved or unresolved as the walk finds it; nothing when nothing was judged |
| `Gate.AdmittedPredicateAddresses` | src/agent_surface/gate.rs:423-440 | every predicate that was parsed and admitted addresses at least one element through its own path |
| `Gate.RefusedKeyIsUnreachable` | src/agent_surface/gate.rs:423-440 | a refused key is in no element, and an absent one not in the envelope either |
| `Gate.FallbackEmptiesElements` | src/agent_surface/gate.rs:159-166 | over a fallback array no emitted element has a resolved key, and objects come out empty when every key resolved |
| `Gate.DeclaredKeyAddresses` | src/agent_surface/gate.rs:448-470 | over a declared array a resolved projection key is in some element |
| `Gate.RefuseUnusable` | src/agent_surface/gate.rs:149-157 | refuses exactly when some key is not an element's, with a key of the kind it says |
| `Gate.FirstUnusableIsRefused` | src/agent_surface/gate.rs:110-168 | the first use no element answers is the one refused, by its own flag and key, as envelope-only exactly when the envelope answers it |
| `StableSort.SortIsStable` | src/agent_surface/shape.rs:32-45 | a permutation, ascending, ties in their original order |
| `StableSort.StableSortIsUnique` | src/agent_surface/shape.rs:32-45 | those three facts leave one result, whatever the algorithm |
| `Shape.SortedContents` | src/agent_surface/shape.rs:32-45 | whatever the keys and the algorithm, sorting rearranges |
| `Shape.Kept` | src/agent_surface/shape.rs:17-24 | exactly the elements that satisfy every filter |
| `Shape.KeptInOrder` | src/agent_surface/shape.rs:17-24 | they stand at exactly the matching positions, in their order, duplicates included |
| `Shape.SortPromise` | src/agent_surface/shape.rs:32-58 | wherever `compare` is an order on the keys: the one stable sort, with keyless elements last, in order |
| `Shape.SortedReads` | src/agent_surface/shape.rs:32-58 | numbers ascend by value, other scalars by text, containers after scalars, missing keys last |
| `Shape.ConsistentIff` | src/agent_surface/shape.rs:48-58 | `compare` is a total preorder on the values if and only if no value other than a number lies, as text, between two numbers whose texts and values disagree |
| `Shape.KeyedOrderIff` | src/agent_surface/shape.rs:32-58 | elements are consistently ordered by a key exactly when the values under it are |
| `Shape.TenFiveNine` | src/agent_surface/shape.rs:48-58 | 10, "5", 9 goes round in a circle |
| `Shape.TenZzNine` | src/agent_surface/shape.rs:48-58 | 10, "zz", 9 is a mixture that sorts well |
| `Shape.Dedupe` | src/agent_surface/shape.rs:64-79 | the loop keeps the first element of each text and all without one |
| `Shape.DedupedInOrder` | src/agent_surface/shape.rs:64-79 | the survivors stand at ascending positions, exactly those whose text is missing or occurs at no earlier one |
| `Shape.DedupeCount` | src/agent_surface/shape.rs:64-79 | survivors are the distinct texts plus the keyless elements |
| `Shape.DedupeCountPermuted` | src/agent_surface/shape.rs:64-79 | how many survive does not depend on order |
| `Shape.ProjectionPromise` | src/agent_surface/shape.rs:101-145 | a projection answers exactly the requested keys as the walk does |
| `Shape.TruncateStrings` | src/agent_surface/shape.rs:163-192 | every string cut to the limit at any depth; the flag says whether one was longer |
| `Shape.TruncationPromise` | src/agent_surface/shape.rs:158-192 | the flag is up exactly when something changed, and nothing is too long after |
| `Shape.TruncatedAt` | src/agent_surface/shape.rs:163-192 | at every place of the value the string there keeps its first characters up to the limit, and all else is as it was |
| `Universe.PageIsUniverse` | src/agent_surface/universe.rs:131-137 | with the total known, the ceiling is silent exactly when the page is everything |
| `Universe.ScopeIff` | src/agent_surface/universe.rs:186-198 | a count is labelled `page` exactly when the query left rows out, else `emitted` exactly when a cap left matches out |
| `Surface.CapSecondaryArrays` | src/agent_surface/mod.rs:523-540 | the loop equals capping every member |
| `Surface.CapTells` | src/agent_surface/mod.rs:523-540 | an array over the cap keeps its first elements and is named, every other member is as it was |
| `Surface.LocateIs` | src/agent_surface/mod.rs:390-402 | the array reshaped is the first declared name that holds one, else the first array among the members |
| `Surface.DerivedIs` | src/agent_surface/mod.rs:339-357 | the derived names are those of the first table entry for this command and array |
| `Surface.SuppressionIff` | src/agent_surface/mod.rs:339-367 | a member is gone if and only if it is derived and held an array; those names, each once, are reported |
| `Surface.SuppressionInOrder` | src/agent_surface/mod.rs:334-367 | reported in declaration order |
| `Shaping.SuppressAliases` | src/agent_surface/mod.rs:339-367 | the loop: removes and names exactly the derived arrays, every other member as before |
| `Shaping.BaseMeta` | src/agent_surface/mod.rs:581-611 | the record built by insertions holds the counts, the request and the query ceiling |
| `Shaping.RunPipeline` | src/agent_surface/mod.rs:442-458 | the stepwise pipeline emits the capped projection of what matched, and counts the matches |
| `Shaping.ShapeElements` | src/agent_surface/mod.rs:435-499 | the array branch: count, or capped envelope with the elements put back, and its record |
| `Shaping.ShapeScalarEnvelope` | src/agent_surface/mod.rs:559-578 | the branch without an array |
| `Shaping.ApplyWithPremises` | src/agent_surface/mod.rs:236-318 | the whole surface, step by step, equals the composition the promises are about |
| `Pipeline.MatchesAreWanted` | src/agent_surface/mod.rs:442-455 | matches are elements every filter keeps, and without deduplication all of them |
| `Pipeline.MatchesAreOrdered` | src/agent_surface/mod.rs:442-455 | on orderly keys they come in the order of what they are sorted on |
| `Pipeline.MatchesAreDistinct` | src/agent_surface/mod.rs:442-455 | no two share a text they are deduplicated on |
| `Pipeline.BestSurvives` | src/agent_surface/mod.rs:442-455 | every wanted element is there, or one with its text that sorts no later: sorting comes before deduplication |
| `Pipeline.UnsortedInOrder` | src/agent_surface/mod.rs:442-455 | without sorting they keep the order of the input |
| `Reports.AnswerElements` | src/agent_surface/mod.rs:435-499 | element `i` of an answer is the `i`-th match, projected and shortened; no more than the cap, without a byte ceiling no fewer, and `output_count` is their number |
| `Reports.AnswerRecordReads` | src/agent_surface/mod.rs:236-318 | every other member of the record, by name: content limit, aliases, key resolution, array source, counting, caps, request and query limit |
| `Reports.FlagTells` | src/agent_surface/mod.rs:614-667 | `truncated` is raised for lost text and for lost elements, and else is as it was |
| `Reports.MemberIsAnswered` | src/agent_surface/mod.rs:435-499 | members that are no arrays are in the answer as they were read, shortened |
| `Reports.ScalarIsAnswered` | src/agent_surface/mod.rs:559-578 | an envelope without an array is projected member by member |
| `Reports.CountIsAnswered` | src/agent_surface/mod.rs:460-473 | a counting request is answered by the number of elements it would have emitted, one for a scalar envelope, or by the stub |
| `Reports.UntouchedIs` | src/agent_surface/mod.rs:236-384 | schema documents and failures pass whatever is asked, everything passes when nothing is asked but for its target, and everything else is shaped or refused |
| `Promises.EmittedEnvelopeTells` | src/agent_surface/mod.rs:435-499 | for every sorting function with the library's promises: the emitted array is a prefix of the truncated, projected, deduplicated, sorted, filtered input; `input_count` is the original length and `output_count` the one really there |
| `Promises.BeforeCeilingTells` | src/agent_surface/mod.rs:435-499 | the same before the ceiling, with nothing else under the record's own keys |
| `Promises.CeilingTells` | src/agent_surface/mod.rs:614-678 | whatever the ceiling cuts, the record tells what is left |
| `Answers.SurfaceHonoursCeiling` | src/agent_surface/mod.rs:614-715 | every answer to a request with a ceiling, array, scalar or count: the stub naming it, or within it up to the overrun of `dropped` |
| `Promises.SortingKeepsTheCount` | src/agent_surface/mod.rs:447-455 | sorting never changes how many elements deduplication keeps |
| `Answers.MatchedAnswerIsUniversal` | src/agent_surface/mod.rs:465-473 | an answer whose own record calls its count `matched`, over a page of known total, holds the count over the whole universe |
| `Answers.LabelSurvives` | src/agent_surface/mod.rs:614-667 | the label of a count passes every later stage but the stub, which has none |
| `Promises.MatchedCountIsUniversal` | src/agent_surface/universe.rs:186-198 | the arithmetic behind it: page, emitted and matched lengths agree with the universe |
| `Answers.CountShaped` | src/agent_surface/mod.rs:465-473 | a counting request is answered by the count of what it would have emitted, with its scope on record |
| `Promises.CountSurvives` | src/agent_surface/mod.rs:614-667 | the count reaches the caller through every later stage but the stub |
| `Stream.Process.OpenStream` | src/agent_surface/stream.rs:131-247 | refuses by the verdict on the sample and changes nothing else; the first success fills the cell, later ones do not |
| `Stream.StreamState.ShapeRecord` | src/agent_surface/stream.rs:164-181 | the line is the projected, truncated record; the counter moves exactly when a string was cut |
| `Stream.StreamState.Annotate` | src/agent_surface/stream.rs:189-233 | the record built by insertions counts the cut records so far, flags them, and leaves every other member of the trailer |
| `Stream.TrailerTells` | src/agent_surface/stream.rs:189-233 | the same of the function the runs are about |
| `Stream.TrailerRecordReads` | src/agent_surface/stream.rs:189-233 | every member of a trailer's record, by name |
| `Stream.SampleIsOwnedUp` | src/agent_surface/stream.rs:131-157 | the record says the keys were judged on a sample exactly when one failed on a sample, or a projection met more records than were sampled |
| `Stream.Process.EmitRecord` | src/output/stream.rs:58-75 | one line, shaped by the opened stream or its stand-in, and one step of the run |
| `Stream.Process.EmitTrailer` | src/output/stream.rs:86-96 | one annotated line, whether or not the stream was opened or goes on |
| `Stream.Export` | src/commands/export.rs:138-149 | `export` is the run open, rows, summary; a refusal ends it with nothing written |
| `Stream.TrailerCountsWhatCameBefore` | src/agent_surface/stream.rs:189-233 | every run, steps in any order: a trailer reports the records cut since the opening, or since the start, and no others |
| `Stream.TrailerCountsAllIff` | src/agent_surface/stream.rs:189-233 | it reports all cut records of the run if and only if none was cut before that opening or after the trailer |
| `Stream.LastTrailerCountsAll` | src/commands/export.rs:138-149 | so a trailer that comes last after one opening counts them all |
| `Stream.EnrichAfterIsUndercounted` | src/commands/ingest/run.rs:96-99 | `ingest --enrich-after` under a limit below twenty: the summary counts too few, whatever was ingested |
| `Stream.FirstOpeningWins` | src/agent_surface/stream.rs:236-247 | every run: what the first accepted opening settled holds to the end |
| `Stream.RefusedIff` | src/agent_surface/gate.rs:198-218 | an opening is refused exactly for a whole-set knob, a predicate, or a projection no sampled record answers; never under the write fence |
| `Stream.RefusalFindsNothingWrittenIff` | src/agent_surface/stream.rs:127-130 | a refusal finds nothing written if and only if only openings came before it |
| `Stream.RefusalPrecedesRecords` | src/agent_surface/stream.rs:127-130 | a command that opens first is refused, if at all, before any of its lines |
| `Stream.LineHoldsOnlyTheRecord` | src/agent_surface/stream.rs:164-181 | opened or not, a line has no member beyond the projected keys of its record |
| `Stream.OpenedProjects` | src/agent_surface/stream.rs:164-173 | an opened stream projects a record as the envelope surface would |
| `Stream.UnopenedPassesIff` | src/agent_surface/stream.rs:97-181 | an unopened stream emits a record as it is if and only if nothing is projected away and no string is over the content limit; a projected object comes out empty |
| `Stream.CutMeansChanged` | src/agent_surface/stream.rs:175-179 | a record counts as cut exactly when its line differs from its projection |
| `LlmSlots.OneGuardPerSlot` | src/llm_slots.rs:73-130 | every interleaving with careful removals: one live attempt per slot |
| `LlmSlots.TakeAndDrop` | src/llm_slots.rs:49-130 | taking a free slot and dropping the guard leaves paths, guards and processes as they were |
| `LlmSlots.HeldSlotIsClosed` | src/llm_slots.rs:99-168 | a held slot is open to nobody until an operator releases it |
| `LlmSlots.AtMostMaxConcurrent` | src/llm_slots.rs:73-130 | so never more guards than the largest ceiling asked for |
| `LlmSlots.StepKeeps` | src/llm_slots.rs:49-130 | each step keeps every live attempt behind the path of its slot |
| `LlmSlots.RemovalSafeIff` | src/llm_slots.rs:168-179 | removing a path is safe for all careful continuations if and only if its file belongs to no live attempt |
| `LlmSlots.LostPathDoubles` | src/llm_slots.rs:49-63 | a live guard that lost its path is one step from a second guard |
| `LlmSlots.ScanAndReapRace` | src/llm_slots.rs:87-91 | two scans before one reap: two live guards under a ceiling of one |
| `LlmSlots.NoPidLineIsNeverReaped` | src/llm_slots.rs:182-199 | every run: an orphaned file without a pid line stays, and its slot unheld, until an operator releases it |
| `LlmSlots.ComesBackIff` | src/llm_slots.rs:83-199 | an abandoned slot is freed by some run without an operator if and only if its file has a pid line, or somebody found or read an earlier file there |
| `LlmSlots.CrashBeforePidLeaksIff` | src/llm_slots.rs:87-111 | after a death between creation and the pid line that slot comes back if and only if another process had read or found an earlier file there |
| `FileLocks.SlotLimit` | src/lock.rs:212-217 | the request itself within one and the ceiling, the nearer bound outside, undefined when the ceiling is zero |
| `FileLocks.OneHolderPerPath` | src/lock.rs:266-331 | every run without `force` on a path: at most one holder |
| `FileLocks.ForceSafeIff` | src/lock.rs:276-297 | forcing is safe for every later run if and only if nobody has the path open |
| `FileLocks.AtMostCeiling` | src/lock.rs:204-251 | scans with any mixture of requests: holders on distinct slots of their own range, never more than the largest limit a scan had after clamping |
| `FileLocks.LowestFreeSlotIsTaken` | src/lock.rs:204-251 | an undisturbed scan takes the lowest free slot of its range, and closing it leaves every handle as it was |
| `FileLocks.FullMeansEverySlotWasHeld` | src/lock.rs:443-452 | `AllSlotsFull` only from a pass in which each slot was held when tried |
| `FileLocks.SharedPathIff` | src/lock.rs:102-132 | two singletons share a lock exactly when kind, hash and namespace slug coincide |
| `Pigeonhole.InjectiveBelow` | src/lock.rs:443-452 | distinct slots below a bound are at most that many |
| `Utf8.EncodeIsWellFormed` | src/chunking.rs:219-233 | every string encodes to bytes whose characters are at most four long, as section 3 of RFC 3629 has it |
| `Utf8.DecodedIs` | src/chunking.rs:219-233 | the bytes of a character decode to it |
| `Utf8.EncodeSlice` | src/extraction.rs:84-124 | the bytes between the offsets of two characters are those of the text between them |
| `Utf8.FindPrevBoundary` | src/chunking.rs:219-225 | the loop stops at the last character boundary |
| `Utf8.FindNextBoundary` | src/chunking.rs:227-233 | the loop stops at the first character boundary |
| `Utf8.PrevBoundaryIsNear` | src/chunking.rs:219-225 | a boundary is never more than three bytes back |
| `Chunking.LastBreakIs` | src/chunking.rs:205-217 | the break found is the last occurrence in the window |
| `Chunking.EndBounds` | src/chunking.rs:60-78 | a chunk is not empty, at most `size` bytes, and ends on a boundary; the fallback branch is never taken |
| `Chunking.ProgressIff` | src/chunking.rs:91-92 | the loop moves on exactly when the chunk is longer than the overlap |
| `Chunking.CutChunk` | src/chunking.rs:61-85 | one chunk: to the end of the body if the size reaches it, else just past the last blank line of the window, else the last sentence, else the last space, else at the limit |
| `Chunking.EndIsWell` | src/chunking.rs:60-78 | the same of every start, with positions of the three patterns |
| `Chunking.SplitIntoChunks` | src/chunking.rs:48-96 | where it ends: from 0 to the end of the body, no gaps, on boundaries, bounded, every chunk ending at that preferred break and the next beginning at the first boundary within the overlap |
| `Chunking.CharCountIsLength` | src/chunking.rs:80-85 | the characters counted in a chunk are those of its text |
| `Chunking.EveryByteIsCovered` | src/chunking.rs:48-96 | no byte of the body is left out |
| `Chunking.StuckNeverEnds` | src/chunking.rs:91-92 | one chunk no longer than the overlap and the loop never ends |
| `Chunking.TerminatesIff` | src/chunking.rs:60-93 | the loop ends if and only if every chunk but the last is longer than the overlap |
| `Chunking.EarlyBreakRepeats` | src/chunking.rs:91-92 | a first break within the overlap sends start 0 back to 0 for ever |
| `Chunking.ShortWordThenLongWordLoops` | src/chunking.rs:48-96 | a family of ordinary bodies on which it loops |
| `Sections.SplitSections` | src/chunking.rs:366-382 | the line loop equals gathering lines up to each header |
| `Sections.LinesEndAtNewlines` | src/chunking.rs:366-382 | the lines it loops over end at newlines and nowhere else; only the last may lack one |
| `Sections.SectionHeaders` | src/chunking.rs:366-394 | each section has a header only at its start, and all but the first have one |
| `Sections.AtxHeaderIff` | src/chunking.rs:384-394 | a header is spaces, one to six hashes, and then the end, a space, a tab or a newline |
| `Sections.SectionsFlatten` | src/chunking.rs:366-382 | sections joined are the body |
| `Sections.Pack` | src/chunking.rs:334-344 | the string-joining loop equals greedy grouping of sections |
| `Sections.PackedIsGreedy` | src/chunking.rs:334-344 | no group had room for the section that opens the next, and only a lone section exceeds the budget |
| `Sections.HardSlice` | src/chunking.rs:400-413 | the slicing loop equals cutting at the last boundary within the budget |
| `Sections.SlicesFit` | src/chunking.rs:400-413 | slices stay within any budget of four bytes or more |
| `Sections.SlicesAreLongest` | src/chunking.rs:400-413 | slices follow each other on boundaries, each as long as the budget lets it be, one character if it reaches no further |
| `Sections.SplitBySections` | src/chunking.rs:326-360 | the whole function, against the composition the next rows are about |
| `Sections.SplitIsLossless` | src/chunking.rs:316-360 | every body and budget: the partitions joined are the body |
| `Sections.FittingStaysWhole` | src/chunking.rs:326-360 | a body that fits is one partition, and so is every packed group that fits; only the others are sliced |
| `Sections.PartitionsWithinBudget` | src/chunking.rs:316-360 | every text: no partition over the byte budget |
| `Sections.UnslicedStartsAtHeaders` | src/chunking.rs:326-360 | without hard slicing, partitions after the first begin at a header, packed greedily |
| `Tokens.PassageTokenOffsets` | src/tokenizer.rs:36-56 | one pass yields the byte ranges of the words |
| `Tokens.WordsIff` | src/tokenizer.rs:36-56 | the words are exactly the maximal runs without whitespace, in order |
| `Tokens.TokenOffsetsAreOrdered` | src/tokenizer.rs:36-56 | byte ranges are nonempty, ordered and apart |
| `Tokens.SplitByTokens` | src/chunking.rs:103-148 | it ends; chunk `k` is tokens from `k * stride`, and the count is the rounded-up quotient |
| `Tokens.EveryTokenIsWhole` | src/chunking.rs:103-148 | every token lies whole in some chunk, none holds more than `size` tokens |
| `Tokens.TokenIsInChunkIff` | src/chunking.rs:103-148 | token `t` lies whole in chunk `k` if and only if `k * stride <= t < k * stride + size` |
| `Tokens.EveryByteIsCovered` | src/chunking.rs:103-148 | every byte of the body is in some chunk |
| `Urls.ExtractUrls` | src/extraction.rs:86-124 | the scan ends with the addresses found by repeated search |
| `Urls.SpansAreAddresses` | src/extraction.rs:86-124 | each range of characters is a scheme up to the first delimiter or the end; ranges are ordered and disjoint |
| `Urls.OffsetsDelimitAddresses` | src/extraction.rs:84-124 | the emitted byte offsets are ordered and disjoint, and the bytes between them are the bytes of the address |
| `Urls.SchemeIsInOneSpan` | src/extraction.rs:86-124 | every occurrence of a scheme starts inside exactly one range |
| `Similarity.CosineSimilarity` | src/similarity.rs:16-34 | the accumulating loop computes the cosine |
| `Similarity.DotIsBounded` | src/similarity.rs:23-27 | Cauchy-Schwarz, coordinate by coordinate, in any dimension |
| `Similarity.CosineInRange` | src/similarity.rs:14-42 | similarity in [-1, 1], distance in [0, 2] |
| `Similarity.CosineOfItself` | src/similarity.rs:14-34 | one for a vector with a norm and itself |
| `Similarity.CosineSymmetric` | src/similarity.rs:14-34 | the order of the vectors does not matter |
| `Similarity.CosineIsRatio` | src/similarity.rs:14-42 | the similarity in units of the two norms is the inner product; zero without a norm or a common dimension |
| `Similarity.DotAxis` | src/similarity.rs:23-27 | the inner product with an axis is the coordinate |
| `Similarity.DotAdds` | src/similarity.rs:23-27 | and it is linear |
| `Similarity.TopKPromise` | src/similarity.rs:44-54 | the best `k`, ranked, earlier index first among ties, above everything dropped |
| `Similarity.AggregateEmbeddings` | src/chunking.rs:240-267 | the in-place sums and divisions give the normalized mean |
| `Similarity.AggregateIsUnit` | src/chunking.rs:240-267 | the aggregate has unit norm when the mean norm exceeds the threshold |
| `Similarity.AggregateIsMean` | src/chunking.rs:240-267 | each coordinate, in units of the norm above the threshold and times the number of vectors, is the sum of theirs; one vector is its own aggregate |
| `Similarity.ColumnSumAdds` | src/chunking.rs:246-252 | the sum over one vector is its coordinate, and lists of vectors add up |
| `Similarity.MeanOfSwapped` | src/chunking.rs:240-267 | the order of the vectors does not matter |
| `Similarity.MeanOfEqual` | src/chunking.rs:240-267 | equal vectors average to themselves |
| `ChatApi.BudgetIsGeometric` | src/chat_api/completion.rs:134-138 | budgets are min(seed * g^i, ceiling) from the first retry on, and from the start exactly for a seed within the ceiling |
| `ChatApi.CompleteOneAttempt` | src/chat_api/client.rs:178-223 | one call, and one fallback only after a rejected reasoning switch |
| `ChatApi.Complete` | src/chat_api/client.rs:105-172 | the loop always returns from inside, with the recursive definition's answer; the next rows say what that is |
| `ChatApi.EveryCallHasItsReason` | src/chat_api/client.rs:105-223 | every server: another attempt follows only an answer cut for length, a fallback only an insistence on reasoning, and the run ends no earlier; an invalid schema sends nothing |
| `ChatApi.AnswerIsWhatWasSaid` | src/chat_api/completion.rs:50-125 | every server: the answer is the last response's own text read as an object, with its cost and diagnostics, or the error that names what was missing |
| `ChatApi.EveryRunKeeps` | src/chat_api/client.rs:105-223 | every server: bounded attempts and calls, each with its budget; success is an object with the last response's diagnostics |
| `ChatApi.TruncatedMeansExhausted` | src/chat_api/client.rs:105-152 | every server: a run that ends on a truncated answer has used every retry |
| `ChatApi.ErrorIff` | src/chat_api/client.rs:105-172 | every server: a last answer ends in an error if and only if its content is missing, blank, beyond repair or no object; truncation plays no part |
| `ChatApi.TruncatedAnswerCompletes` | src/chat_api/client.rs:153-168 | for every readable text and number of retries, a server that always truncates and a run that succeeds |

## Left out

- SQLite storage, embedding backends, configuration, namespaces, exit codes and localized messages: outside the modelled components.
- Suggestions for failed keys and the resolved target record: parameters (`Ambient`, `Advice`), because nothing but reporting depends on them; an empty target list stands for no target.
- Lower-casing for `~` filters: a parameter `fold`, because Unicode case tables are not modelled.
- A panic of the standard library's sort on an inconsistent comparison: such a run has no answer. Any answer it does give is covered, because the sorting function is a parameter (`Filter.Sorter`) of which only a rearrangement is asked, and a stable sort where the comparison is an order.
- `Shape.AsReal`: integers compare exactly, because rounding is not modelled; `as_f64` makes distinct integers beyond 2^53 equal, and they then keep their order.
- Numbers beyond their text and their real reading: `Dec` carries both, because float formatting is not modelled; `Similarity` is over reals, without rounding or NaN.
- `Json` text of characters: escapes are those the compact writer emits; decoding JSON text is not modelled.
- The polling delays, deadlines and timeouts of the lock and chat loops: runs may stop or continue at any poll.
- `LlmSlots`: liveness of waiting processes, and the pid check on systems that always report a pid alive; the scan order of slots is left open, which only adds runs.
- Contents of a half-written pid line: a file has a pid line or has none.
- `Chunking.SplitIntoChunks`: requires that the loop ends, by the exact condition of `Chunking.TerminatesIff`, because the program does not end otherwise; sizes are assumed to exceed the overlap by more than three bytes, as the shipped 800 and 100 do.
- `Sections.PartitionsWithinBudget`: the chunk and token budgets are an arbitrary predicate `fits` that implies the byte budget, because the Markdown splitter and the tokenizer behind them are foreign code.
- Header detection accepts any number of leading spaces, as the code does; section 4.2 of CommonMark allows three.
- The Markdown chunker, cl100k token counts, HTTP transport with its backoff, JSON repair and BLAKE3: foreign code, parameters where needed.
- `Tokens` chunking assumes an overlap between one and the size, as the shipped 50 and 400.
- src/retry.rs, src/preservation.rs and the process plumbing: short arguments that would add easy members only.
- Process-wide cells holding the surface and the query ceiling: passed as arguments. Writing to standard output: the log of a `Stream.Process`.
- `Answers.SurfaceHonoursCeiling`: an envelope whose own `truncated` member is no boolean is left out, because no command emits one; tables that list an array as its own copy, or a synonym of `truncated`, are left out, and `Answers.ShippedAliasesSpareTheirOwn` and `Answers.ShippedFlagHasNoSynonym` show the shipped ones do neither.
