/**
 The record stream of one process: opening, records and trailers, in any order.

 Opening judges the request once; each record is projected and shortened on its
 own and counted when it lost text; a trailer reports the count so far. Nothing
 in the program forces an order on these calls, so neither does the model: what
 a trailer tells is stated for every run, and then for the runs commands make.
 */
module Stream {
  import opened Wrappers
  import opened Json
  import opened Texts
  import opened Filter
  import opened Request
  import opened Gate
  import opened Finalize
  import opened Surface
  import Shape
  import StableSort
  import Vocabulary

  /** What the vocabulary says beyond the verdict: advice on failed keys, and whether it was sampled. */
  datatype Advice = Advice(suggestions: seq<string>, sampled: bool)

  /** The request and the synonym groups a process runs under. */
  datatype Env = Env(surface: Request.Surface, groups: seq<seq<string>>)

  /** What opening a stream settles: the verdict, and the compiled paths of the projection. */
  datatype Resolved = Resolved(findings: Findings, suggestions: seq<string>, partial: bool, paths: seq<seq<string>>)

  /** The state before any opening: nothing to project onto. */
  const INERT := Resolved(Findings([], []), [], false, [])

  // ----------------------------------------------------------- one record

  function Compiled(keys: seq<string>): (r: seq<seq<string>>)
    ensures |r| == |keys| && forall i | 0 <= i < |keys| :: r[i] == Split(keys[i])
  {
    if keys == [] then [] else [Split(keys[0])] + Compiled(keys[1..])
  }

  /** Keys and paths are taken in pairs, as far as both go. */
  function AddZipped(out: seq<Member>, item: Value, keys: seq<string>, paths: seq<seq<string>>, groups: seq<seq<string>>): seq<Member>
    decreases |keys|
  {
    if keys == [] || paths == [] then out
    else
      var found := Lookup(item, paths[0], groups);
      AddZipped(if found.Some? then Put(out, keys[0], found.value) else out, item, keys[1..], paths[1..], groups)
  }

  function ProjectWith(item: Value, keys: seq<string>, paths: seq<seq<string>>, groups: seq<seq<string>>): Value {
    if !item.Obj? then item else Obj(AddZipped([], item, keys, paths, groups))
  }

  /** The record as the projection leaves it. */
  function Projection(env: Env, stream: Resolved, record: Value): Value {
    if env.surface.select == [] then record else ProjectWith(record, env.surface.select, stream.paths, env.groups)
  }

  /** Some string of the projected record is longer than the limit. */
  predicate Shortens(env: Env, stream: Resolved, record: Value) {
    env.surface.truncateContent > 0 && Shape.HasLong(Projection(env, stream, record), env.surface.truncateContent)
  }

  /** The line emitted for `record`. */
  function Line(env: Env, stream: Resolved, record: Value): Value {
    var limit := env.surface.truncateContent;
    if limit == 0 then Projection(env, stream, record) else Shape.Truncated(Projection(env, stream, record), limit)
  }

  // ---------------------------------------------------------- the trailer

  /** What a trailer's record says about the stream. */
  function TrailerMeta(s: Request.Surface, shortened: nat, stream: Resolved, target: seq<Member>): seq<Member> {
    PutAll([Member("stream", Bool(true))],
           MemberIf(s.select != [], "select", TextList(s.select))
           + MemberIf(shortened > 0, "records_truncated", Int(shortened))
           + AfterCount(stream, target))
  }

  function PartialMembers(stream: Resolved): seq<Member> {
    if stream.findings.unresolved == [] then [] else
      [Member("unresolved_keys", TextList(stream.findings.unresolved)),
       Member("resolved_keys", TextList(stream.findings.resolved)), Member("key_resolution", Str("partial"))]
      + MemberIf(stream.suggestions != [], "key_suggestions", TextList(stream.suggestions))
  }

  function AfterCount(stream: Resolved, target: seq<Member>): seq<Member> {
    PartialMembers(stream) + MemberIf(stream.partial, "vocabulary_partial", Bool(true)) + target
  }

  function TrailerFor(env: Env, stream: Resolved, shortened: nat, target: seq<Member>, value: Value): Value {
    Attach(value, TrailerMeta(env.surface, shortened, stream, target), shortened > 0)
  }

  // -------------------------------------------------------- the state machine

  datatype Step =
    | Open(sample: seq<Value>, total: nat, advice: Advice)
    | Record(record: Value)
    | Trailer(target: seq<Member>, value: Value)

  /** What a step left behind; an accepted opening writes nothing. */
  datatype Event =
    | Accepted
    | Refused(refusal: Refusal)
    | RecordLine(line: Value, cut: bool)
    | TrailerLine(line: Value, count: nat)

  /** `own` counts under the opened stream, `inert` before there is one. */
  datatype State = State(stream: Option<Resolved>, own: nat, inert: nat, log: seq<Event>) {
    function Current(): Resolved {
      if stream.Some? then stream.value else INERT
    }

    function Counter(): nat {
      if stream.Some? then own else inert
    }
  }

  const START := State(None, 0, 0, [])

  /** Whether a trailer owns up to having judged the keys on a sample. */
  predicate DeclaresSample(s: Request.Surface, sample: seq<Value>, total: nat, advice: Advice, findings: Findings) {
    (findings.unresolved != [] && advice.sampled) || (s.select != [] && total > |sample|)
  }

  function Verdict(env: Env, sample: seq<Value>): Result<Findings, Refusal> {
    EvaluateStream(env.surface, Scope(sample, Null, env.groups))
  }

  function Resolve(env: Env, sample: seq<Value>, total: nat, advice: Advice, findings: Findings): Resolved {
    Resolved(findings, if findings.unresolved == [] then [] else advice.suggestions,
             DeclaresSample(env.surface, sample, total, advice, findings), Compiled(env.surface.select))
  }

  /** The first opening wins; a refused one changes nothing but is reported. */
  function Next(env: Env, st: State, step: Step): State {
    match step
    case Open(sample, total, advice) =>
      (match Verdict(env, sample)
       case Err(refusal) => st.(log := st.log + [Refused(refusal)])
       case Ok(findings) =>
         st.(stream := if st.stream.Some? then st.stream else Some(Resolve(env, sample, total, advice, findings)),
             log := st.log + [Accepted]))
    case Record(record) =>
      var cut := Shortens(env, st.Current(), record);
      var n := if cut then 1 else 0;
      st.(own := if st.stream.Some? then st.own + n else st.own,
          inert := if st.stream.Some? then st.inert else st.inert + n,
          log := st.log + [RecordLine(Line(env, st.Current(), record), cut)])
    case Trailer(target, value) =>
      st.(log := st.log + [TrailerLine(TrailerFor(env, st.Current(), st.Counter(), target, value), st.Counter())])
  }

  function After(env: Env, st: State, steps: seq<Step>): State
    decreases |steps|
  {
    if steps == [] then st else After(env, Next(env, st, steps[0]), steps[1..])
  }

  // -------------------------------------------------------------- the program

  /** One stream's settled facts and its counter, which emissions move. */
  class StreamState {
    const resolved: Resolved
    var shortened: nat

    constructor (resolved: Resolved)
      ensures this.resolved == resolved && shortened == 0
    {
      this.resolved := resolved;
      shortened := 0;
    }

    /** Projects and shortens one record; a record is never annotated. */
    method ShapeRecord(env: Env, record: Value) returns (line: Value)
      modifies this`shortened
      ensures line == Line(env, resolved, record)
      ensures shortened == old(shortened) + if Shortens(env, resolved, record) then 1 else 0
    {
      var value := if env.surface.select == [] then record
                   else ProjectWith(record, env.surface.select, resolved.paths, env.groups);
      var hit;
      line, hit := Shape.TruncateStrings(value, env.surface.truncateContent);
      if hit {
        shortened := shortened + 1;
      }
    }

    /** Builds the record member by member and attaches it; whatever the record, it counts the cut
        records so far, and every other member of the trailer stays. */
    method Annotate(env: Env, target: seq<Member>, value: Value) returns (line: Value)
      ensures line == TrailerFor(env, resolved, shortened, target, value)
      ensures value.Obj? && Lacks(target, "records_truncated") ==> Tells(value.members, line, shortened)
    {
      var s := env.surface;
      var base := [Member("stream", Bool(true))];
      hide TextList, Put, PutAll;
      ghost var select := MemberIf(s.select != [], "select", TextList(s.select));
      ghost var count := MemberIf(shortened > 0, "records_truncated", Int(shortened));
      InsertIf(base, [], s.select != [], "select", TextList(s.select));
      InsertIf(base, select, shortened > 0, "records_truncated", Int(shortened));
      PutAllConcat(base, select + count, AfterCount(resolved, target));
      assert [] + select == select;
      PutNone(base);
      var meta := base;
      if s.select != [] {
        meta := Put(meta, "select", TextList(s.select));
      }
      if shortened > 0 {
        meta := Put(meta, "records_truncated", Int(shortened));
      }
      meta := InsertRest(meta, resolved, target);
      line := Attach(value, meta, shortened > 0);
      if value.Obj? && Lacks(target, "records_truncated") {
        TrailerTells(env, resolved, shortened, target, value);
      }
    }
  }

  /** The process-wide cell, its stand-in, and what has been written. */
  class Process {
    var stream: StreamState?
    const inert: StreamState
    var log: seq<Event>

    ghost predicate Valid()
      reads this
    {
      stream != inert && inert.resolved == INERT
    }

    function View(): State
      reads this, stream, inert
    {
      State(if stream == null then None else Some(stream.resolved), if stream == null then 0 else stream.shortened,
            inert.shortened, log)
    }

    constructor ()
      ensures Valid() && fresh(inert) && stream == null && View() == START
    {
      stream, log := null, [];
      inert := new StreamState(INERT);
    }

    /** Judges the request before anything is written; the first success fills the cell. */
    method OpenStream(env: Env, sample: seq<Value>, total: nat, advice: Advice) returns (refusal: Option<Refusal>)
      requires Valid()
      modifies this
      ensures Valid() && View() == Next(env, old(View()), Open(sample, total, advice))
      ensures stream == old(stream) || fresh(stream)
      ensures refusal == match Verdict(env, sample) case Err(e) => Some(e) case Ok(_) => None
    {
      var verdict := EvaluateStream(env.surface, Scope(sample, Null, env.groups));
      if verdict.Err? {
        log := log + [Refused(verdict.error)];
        return Some(verdict.error);
      }
      if stream == null {
        stream := new StreamState(Resolve(env, sample, total, advice, verdict.value));
      }
      log := log + [Accepted];
      return None;
    }

    method EmitRecord(env: Env, record: Value)
      requires Valid()
      modifies this, stream, inert
      ensures Valid() && View() == Next(env, old(View()), Record(record)) && stream == old(stream)
    {
      var state := if stream == null then inert else stream;
      var line := state.ShapeRecord(env, record);
      log := log + [RecordLine(line, Shortens(env, state.resolved, record))];
    }

    method EmitTrailer(env: Env, target: seq<Member>, value: Value)
      requires Valid()
      modifies this
      ensures Valid() && View() == Next(env, old(View()), Trailer(target, value)) && stream == old(stream)
    {
      var state := if stream == null then inert else stream;
      var line := state.Annotate(env, target, value);
      log := log + [TrailerLine(line, state.shortened)];
    }
  }

  lemma PutThree(base: seq<Member>, ms: seq<Member>)
    requires |ms| == 3
    ensures PutAll(base, ms) == Put(Put(Put(base, ms[0].key, ms[0].value), ms[1].key, ms[1].value), ms[2].key, ms[2].value)
  {
    hide Put;
    assert ms[1..][1..] == [ms[2]] && [ms[2]][1..] == [];
    PutNone(Put(Put(Put(base, ms[0].key, ms[0].value), ms[1].key, ms[1].value), ms[2].key, ms[2].value));
    assert PutAll(Put(Put(base, ms[0].key, ms[0].value), ms[1].key, ms[1].value), [ms[2]]) ==
           PutAll(Put(Put(Put(base, ms[0].key, ms[0].value), ms[1].key, ms[1].value), ms[2].key, ms[2].value), []);
  }

  /** The insertions after the count: partial resolution, sampling, and the target's own members. */
  method InsertRest(base: seq<Member>, stream: Resolved, target: seq<Member>) returns (meta: seq<Member>)
    ensures meta == PutAll(base, AfterCount(stream, target))
  {
    ghost var some := PartialMembers(stream);
    ghost var sampled := MemberIf(stream.partial, "vocabulary_partial", Bool(true));
    PutAllConcat(base, some + sampled, target);
    InsertIf(base, some, stream.partial, "vocabulary_partial", Bool(true));
    meta := InsertPartial(base, stream);
    hide PutAll, Put, PartialMembers;
    if stream.partial {
      meta := Put(meta, "vocabulary_partial", Bool(true));
    }
    meta := PutAll(meta, target);
  }

  method InsertPartial(base: seq<Member>, stream: Resolved) returns (meta: seq<Member>)
    ensures meta == PutAll(base, PartialMembers(stream))
  {
    meta := base;
    PutNone(base);
    if stream.findings.unresolved != [] {
      hide TextList, Put;
      ghost var three := [Member("unresolved_keys", TextList(stream.findings.unresolved)),
                          Member("resolved_keys", TextList(stream.findings.resolved)), Member("key_resolution", Str("partial"))];
      InsertIf(base, three, stream.suggestions != [], "key_suggestions", TextList(stream.suggestions));
      PutThree(base, three);
      meta := Put(meta, "unresolved_keys", TextList(stream.findings.unresolved));
      meta := Put(meta, "resolved_keys", TextList(stream.findings.resolved));
      meta := Put(meta, "key_resolution", Str("partial"));
      if stream.suggestions != [] {
        meta := Put(meta, "key_suggestions", TextList(stream.suggestions));
      }
    }
  }

  // --------------------------------------------------- what a trailer tells

  /** What the record of a trailer says, member by member. */
  function ToldOfStream(s: Request.Surface, shortened: nat, stream: Resolved, k: string): Option<Value> {
    var partial := stream.findings.unresolved != [];
    if k == "stream" then Some(Bool(true))
    else if k == "select" then ListIf(s.select)
    else if k == "records_truncated" then NumberIf(shortened)
    else if k == "unresolved_keys" then ListIf(stream.findings.unresolved)
    else if k == "resolved_keys" then (if partial then Some(TextList(stream.findings.resolved)) else None)
    else if k == "key_resolution" then (if partial then Some(Str("partial")) else None)
    else if k == "key_suggestions" then (if partial then ListIf(stream.suggestions) else None)
    else if k == "vocabulary_partial" then FlagOnly(stream.partial)
    else None
  }

  lemma PartialReads(stream: Resolved, k: string)
    ensures LastOf(PartialMembers(stream), k) ==
            if stream.findings.unresolved == [] then None
            else if k == "unresolved_keys" then Some(TextList(stream.findings.unresolved))
            else if k == "resolved_keys" then Some(TextList(stream.findings.resolved))
            else if k == "key_resolution" then Some(Str("partial"))
            else if k == "key_suggestions" then ListIf(stream.suggestions)
            else None
  {
    hide TextList, LastOf, MemberIf;
    NoMember(k);
    if stream.findings.unresolved != [] {
      var three := [Member("unresolved_keys", TextList(stream.findings.unresolved)),
                    Member("resolved_keys", TextList(stream.findings.resolved)), Member("key_resolution", Str("partial"))];
      LastOfConcat(three, MemberIf(stream.suggestions != [], "key_suggestions", TextList(stream.suggestions)), k);
      LastOfIf(stream.suggestions != [], "key_suggestions", TextList(stream.suggestions), k);
      ThreeMembers(three, k);
    }
  }

  /** A trailer's record: what was asked, what was cut, what was resolved, and whether on a sample. */
  lemma TrailerRecordReads(s: Request.Surface, shortened: nat, stream: Resolved, target: seq<Member>, k: string)
    requires Lacks(target, k)
    ensures Get(TrailerMeta(s, shortened, stream, target), k) == ToldOfStream(s, shortened, stream, k)
  {
    hide TextList, LastOf, MemberIf, PartialMembers, Get, Lacks, PutAll;
    var base := [Member("stream", Bool(true))];
    var select := MemberIf(s.select != [], "select", TextList(s.select));
    var count := MemberIf(shortened > 0, "records_truncated", Int(shortened));
    var sampled := MemberIf(stream.partial, "vocabulary_partial", Bool(true));
    GetPutAll(base, select + count + AfterCount(stream, target), k);
    StreamMember(k);
    LastOfConcat(select + count, PartialMembers(stream) + sampled + target, k);
    LastOfConcat(select, count, k);
    LastOfConcat(PartialMembers(stream) + sampled, target, k);
    LastOfConcat(PartialMembers(stream), sampled, k);
    LastOfIf(s.select != [], "select", TextList(s.select), k);
    LastOfIf(shortened > 0, "records_truncated", Int(shortened), k);
    LastOfIf(stream.partial, "vocabulary_partial", Bool(true), k);
    LastOfLacking(target, k);
    PartialReads(stream, k);
  }

  lemma StreamMember(k: string)
    ensures Get([Member("stream", Bool(true))], k) == if k == "stream" then Some(Bool(true)) else None
  {
    FindIs([Member("stream", Bool(true))], k, if k == "stream" then 0 else 1);
  }

  /** An opened stream says its keys were judged on a sample exactly when a key failed on one, or when there are
      more records than were looked at and something is projected. */
  lemma SampleIsOwnedUp(env: Env, sample: seq<Value>, total: nat, advice: Advice, findings: Findings, shortened: nat, target: seq<Member>)
    requires Lacks(target, "vocabulary_partial")
    ensures Get(TrailerMeta(env.surface, shortened, Resolve(env, sample, total, advice, findings), target), "vocabulary_partial") ==
            if (findings.unresolved != [] && advice.sampled) || (env.surface.select != [] && total > |sample|)
            then Some(Bool(true)) else None
  {
    hide TrailerMeta, Get;
    TrailerRecordReads(env.surface, shortened, Resolve(env, sample, total, advice, findings), target, "vocabulary_partial");
  }

  /** The count the record of a line carries; an absent member is zero. */
  function CountIn(line: Value): nat {
    if !line.Obj? then 0
    else
      match Get(line.members, META_KEY)
      case Some(Obj(meta)) =>
        (match Get(meta, "records_truncated") case Some(Int(n)) => if n > 0 then n else 0 case _ => 0)
      case _ => 0
  }

  /** The line counts `n` cut records, flags them, and has every other member of `was` untouched. */
  ghost predicate Tells(was: seq<Member>, line: Value, n: nat) {
    && line.Obj? && CountIn(line) == n
    && Get(line.members, TRUNCATED_KEY) == (if n > 0 then Some(Bool(true)) else Get(was, TRUNCATED_KEY))
    && forall k | k != META_KEY && k != TRUNCATED_KEY :: Get(line.members, k) == Get(was, k)
  }

  lemma TrailerTells(env: Env, stream: Resolved, shortened: nat, target: seq<Member>, value: Value)
    requires value.Obj? && Lacks(target, "records_truncated")
    ensures Tells(value.members, TrailerFor(env, stream, shortened, target, value), shortened)
  {
    hide TrailerMeta, Attach, Get, Lacks;
    var meta := TrailerMeta(env.surface, shortened, stream, target);
    TrailerRecordReads(env.surface, shortened, stream, target, "records_truncated");
    AttachGet(value.members, meta, shortened > 0, META_KEY);
    forall k | k != META_KEY && k != TRUNCATED_KEY
      ensures Get(TrailerFor(env, stream, shortened, target, value).members, k) == Get(value.members, k)
    {
      AttachGet(value.members, meta, shortened > 0, k);
    }
  }

  // ------------------------------------------------------- what a run leaves

  predicate IsCut(e: Event) {
    e.RecordLine? && e.cut
  }

  function CutLines(log: seq<Event>): nat {
    StableSort.Count(IsCut, log)
  }

  /** The position after the first accepted opening, or the start when there is none. */
  function Since(log: seq<Event>): (n: nat)
    ensures n <= |log|
  {
    if Accepted !in log then 0
    else if log[0] == Accepted then 1
    else assert log == [log[0]] + log[1..]; 1 + Since(log[1..])
  }

  lemma {:induction false} SinceSnoc(log: seq<Event>, e: Event)
    ensures Since(log + [e]) == if Accepted in log then Since(log) else if e == Accepted then |log| + 1 else 0
    decreases |log|
  {
    var longer := log + [e];
    if log != [] && log[0] != Accepted {
      assert log == [log[0]] + log[1..] && longer[1..] == log[1..] + [e];
      assert longer == [log[0]] + (log[1..] + [e]);
      SinceSnoc(log[1..], e);
    } else if log != [] {
      assert Accepted in log && Accepted in longer;
    } else {
      assert longer == [e] && [e][1..] == [];
    }
  }

  /** Where the counters stand: each counts the cut records of its own stretch of the log. */
  ghost predicate Counts(st: State) {
    && (st.stream.Some? <==> Accepted in st.log)
    && st.Counter() == Recent(st.log)
    && (st.stream.None? ==> st.own == 0)
  }

  lemma CutSnoc(log: seq<Event>, e: Event)
    ensures CutLines(log + [e]) == CutLines(log) + if IsCut(e) then 1 else 0
  {
    StableSort.CountConcat(IsCut, log, [e]);
    assert [e][1..] == [];
  }

  /** Cut records since the stream was opened, or since the start. */
  function Recent(log: seq<Event>): nat {
    CutLines(log[Since(log)..])
  }

  lemma RecentSnoc(log: seq<Event>, e: Event)
    ensures Recent(log + [e]) ==
            if e == Accepted && Accepted !in log then 0 else Recent(log) + if IsCut(e) then 1 else 0
  {
    var longer := log + [e];
    SinceSnoc(log, e);
    CutSnoc(log[Since(log)..], e);
    hide Since;
    if Accepted in log || e != Accepted {
      assert longer[Since(longer)..] == log[Since(log)..] + [e];
    } else {
      assert longer[Since(longer)..] == [];
    }
  }

  /** What a step appends. */
  function EventAfter(env: Env, st: State, step: Step): Event {
    match step
    case Open(sample, _, _) => (match Verdict(env, sample) case Err(refusal) => Refused(refusal) case Ok(_) => Accepted)
    case Record(record) => RecordLine(Line(env, st.Current(), record), Shortens(env, st.Current(), record))
    case Trailer(target, value) => TrailerLine(TrailerFor(env, st.Current(), st.Counter(), target, value), st.Counter())
  }

  lemma StepCounts(env: Env, st: State, step: Step)
    requires Counts(st)
    ensures Counts(Next(env, st, step)) && Next(env, st, step).log == st.log + [EventAfter(env, st, step)]
  {
    hide Verdict, Shortens, Line, TrailerFor, Resolve, Since, CutLines;
    RecentSnoc(st.log, EventAfter(env, st, step));
  }

  lemma {:induction false} RunCounts(env: Env, st: State, steps: seq<Step>)
    requires Counts(st)
    ensures Counts(After(env, st, steps)) && |After(env, st, steps).log| == |st.log| + |steps|
    ensures st.log <= After(env, st, steps).log
    decreases |steps|
  {
    if steps != [] {
      hide Next, Counts;
      StepCounts(env, st, steps[0]);
      RunCounts(env, Next(env, st, steps[0]), steps[1..]);
    }
  }

  lemma {:induction false} AfterSplit(env: Env, st: State, steps: seq<Step>, i: nat)
    requires i <= |steps|
    ensures After(env, st, steps) == After(env, After(env, st, steps[..i]), steps[i..])
    decreases |steps|
  {
    if i == 0 {
      assert steps[..0] == [] && steps[0..] == steps;
    } else {
      hide Next;
      AfterSplit(env, Next(env, st, steps[0]), steps[1..], i - 1);
      assert steps[..i][1..] == steps[1..][..i - 1] && steps[1..][i - 1..] == steps[i..];
      assert steps[..i][0] == steps[0];
    }
  }

  /** What step `i` of a run does, seen in its log. */
  lemma EventOf(env: Env, steps: seq<Step>, i: nat) returns (before: State)
    requires i < |steps|
    ensures before == After(env, START, steps[..i]) && Counts(before) && |before.log| == i
    ensures var log := After(env, START, steps).log;
            && |log| == |steps| && before.log == log[..i]
            && Next(env, before, steps[i]).log == before.log + [log[i]]
  {
    before := After(env, START, steps[..i]);
    assert Counts(START) by {
      assert START.log[0..] == [];
    }
    AfterSplit(env, START, steps, i);
    RunCounts(env, START, steps[..i]);
    StepCounts(env, before, steps[i]);
    var next := Next(env, before, steps[i]);
    RunCounts(env, next, steps[i + 1..]);
    assert steps[i..][1..] == steps[i + 1..] && steps[i..][0] == steps[i];
    hide Next, Counts;
    assert After(env, before, steps[i..]) == After(env, next, steps[i + 1..]);
  }

  /** Every run, in any order: a trailer reports the cut records since the stream was opened,
      or since the start when it was not, and no others. */
  lemma TrailerCountsWhatCameBefore(env: Env, steps: seq<Step>, i: nat)
    requires i < |steps| && steps[i].Trailer?
    ensures var log := After(env, START, steps).log;
            && i < |log| && log[i].TrailerLine? && log[i].count == CutLines(log[Since(log[..i])..i])
            && (steps[i].value.Obj? && Lacks(steps[i].target, "records_truncated") ==>
                  Tells(steps[i].value.members, log[i].line, log[i].count))
  {
    var before := EventOf(env, steps, i);
    var log := After(env, START, steps).log;
    hide After;
    assert log[i] == (before.log + [log[i]])[i];
    assert before.log[Since(before.log)..] == log[Since(log[..i])..i];
    if steps[i].value.Obj? && Lacks(steps[i].target, "records_truncated") {
      TrailerTells(env, before.Current(), before.Counter(), steps[i].target, steps[i].value);
    }
  }

  lemma {:induction false} NoneCut(log: seq<Event>)
    ensures CutLines(log) == 0 <==> forall j | 0 <= j < |log| :: !IsCut(log[j])
  {
    if log != [] {
      NoneCut(log[1..]);
      assert forall j | 0 <= j < |log[1..]| :: log[1..][j] == log[j + 1];
      assert log == [log[0]] + log[1..];
    }
  }

  lemma Apart(log: seq<Event>, a: nat, b: nat)
    requires a <= b <= |log|
    ensures CutLines(log) == CutLines(log[..a]) + CutLines(log[a..b]) + CutLines(log[b..])
  {
    assert log == log[..a] + log[a..b] + log[b..];
    StableSort.CountConcat(IsCut, log[..a] + log[a..b], log[b..]);
    StableSort.CountConcat(IsCut, log[..a], log[a..b]);
  }

  /** A stretch of a log holds all its cut lines exactly when there are none outside. */
  lemma StretchIff(log: seq<Event>, a: nat, i: nat)
    requires a <= i < |log| && !IsCut(log[i])
    ensures CutLines(log[a..i]) == CutLines(log) <==> forall j | 0 <= j < |log| && !(a <= j <= i) :: !IsCut(log[j])
  {
    Apart(log, a, i);
    NoneCut(log[..a]);
    NoneCut(log[i..]);
    hide CutLines, IsCut;
    assert (forall j | 0 <= j < |log[..a]| :: !IsCut(log[..a][j])) <==> forall j | 0 <= j < a :: !IsCut(log[j]);
    assert (forall j | 0 <= j < |log[i..]| :: !IsCut(log[i..][j])) <==> forall j | i <= j < |log| :: !IsCut(log[j]) by {
      assert forall j | i <= j < |log| :: log[i..][j - i] == log[j];
    }
  }

  /** Every run: a trailer's count is the number of all cut records of the run if and only if none
      was cut before the opening it counts from, and none after the trailer. */
  lemma TrailerCountsAllIff(env: Env, steps: seq<Step>, i: nat)
    requires i < |steps| && steps[i].Trailer?
    ensures var log := After(env, START, steps).log;
            && |log| == |steps| && log[i].TrailerLine?
            && (log[i].count == CutLines(log) <==>
                forall j | 0 <= j < |log| && !(Since(log[..i]) <= j <= i) :: !IsCut(log[j]))
  {
    var log := After(env, START, steps).log;
    TrailerCountsWhatCameBefore(env, steps, i);
    var before := EventOf(env, steps, i);
    hide After, Since, CutLines, Next;
    StretchIff(log, Since(log[..i]), i);
  }

  lemma {:induction false} OpenedStays(env: Env, st: State, steps: seq<Step>)
    requires st.stream.Some?
    ensures After(env, st, steps).stream == st.stream
    decreases |steps|
  {
    hide Verdict, Shortens, Line, TrailerFor, Resolve;
    if steps != [] {
      OpenedStays(env, Next(env, st, steps[0]), steps[1..]);
    }
  }

  predicate Accepts(env: Env, step: Step) {
    step.Open? && Verdict(env, step.sample).Ok?
  }

  lemma {:induction false} UnopenedStays(env: Env, st: State, steps: seq<Step>)
    requires st.stream.None? && forall i | 0 <= i < |steps| :: !Accepts(env, steps[i])
    ensures After(env, st, steps).stream.None?
    decreases |steps|
  {
    hide Verdict, Shortens, Line, TrailerFor, Resolve;
    if steps != [] {
      assert !Accepts(env, steps[0]);
      forall i | 0 <= i < |steps[1..]| ensures !Accepts(env, steps[1..][i]) {
        assert steps[1..][i] == steps[i + 1];
      }
      UnopenedStays(env, Next(env, st, steps[0]), steps[1..]);
    }
  }

  /** Every run: what the first accepted opening settled holds to the end, whatever is opened later. */
  lemma FirstOpeningWins(env: Env, steps: seq<Step>, i: nat)
    requires i < |steps| && Accepts(env, steps[i]) && forall j | 0 <= j < i :: !Accepts(env, steps[j])
    ensures After(env, START, steps).stream ==
            Some(Resolve(env, steps[i].sample, steps[i].total, steps[i].advice, Verdict(env, steps[i].sample).value))
  {
    hide Verdict, Resolve, Shortens, Line, TrailerFor, After;
    var before := After(env, START, steps[..i]);
    UnopenedStays(env, START, steps[..i]);
    AfterSplit(env, START, steps, i);
    AfterSplit(env, before, steps[i..], 1);
    assert steps[i..][..1] == [steps[i]] && steps[i..][1..] == steps[i + 1..];
    AfterOne(env, before, steps[i]);
    OpenedStays(env, Next(env, before, steps[i]), steps[i + 1..]);
  }

  // ----------------------------------------------------------------- refusals

  /** An opening is refused for an order, a count or a ceiling, for a predicate, or because no sampled
      record answers any projected key; never under the write fence, and never on an empty sample. */
  lemma RefusedIff(env: Env, sample: seq<Value>)
    ensures var s := env.surface;
            Verdict(env, sample).Err? <==>
            !s.mutates && (WantsWholeSet(s) || s.filters != []
                           || (!s.allowUnknownKeys && sample != [] && s.select != []
                               && forall k | k in s.select :: Scope(sample, Null, env.groups).Classify(k) != Vocabulary.Element))
  {
    hide WholeSetFlags;
    WholeSetIsNamed(env.surface);
    var scope := Scope(sample, Null, env.groups);
    var resolved := KeysOf(env.surface.select, scope, Vocabulary.Element, true);
    if resolved != [] {
      assert resolved[0] in env.surface.select && scope.Classify(resolved[0]) == Vocabulary.Element;
    }
  }

  predicate Written(e: Event) {
    e.RecordLine? || e.TrailerLine?
  }

  /** Every opening comes before every line, as in `export`, `graph` and `ingest`. */
  predicate OpensFirst(steps: seq<Step>) {
    forall j, k | 0 <= j < k < |steps| && steps[k].Open? :: steps[j].Open?
  }

  /** A refusal finds nothing written if and only if no record or trailer was emitted before that opening. */
  lemma RefusalFindsNothingWrittenIff(env: Env, steps: seq<Step>, i: nat)
    requires i < |steps| && steps[i].Open? && Verdict(env, steps[i].sample).Err?
    ensures var log := After(env, START, steps).log;
            && |log| == |steps| && log[i] == Refused(Verdict(env, steps[i].sample).error)
            && ((forall j | 0 <= j < i :: !Written(log[j])) <==> forall j | 0 <= j < i :: steps[j].Open?)
  {
    var log := After(env, START, steps).log;
    var before := EventOf(env, steps, i);
    assert log[i] == (before.log + [log[i]])[i];
    hide After;
    forall j | 0 <= j < i ensures Written(log[j]) <==> !steps[j].Open? {
      EventKind(env, steps, j);
    }
  }

  lemma EventKind(env: Env, steps: seq<Step>, j: nat)
    requires j < |steps|
    ensures var log := After(env, START, steps).log; |log| == |steps| && (Written(log[j]) <==> !steps[j].Open?)
  {
    var before := EventOf(env, steps, j);
    var log := After(env, START, steps).log;
    hide After, Verdict;
    assert log[j] == (before.log + [log[j]])[j];
  }

  /** So a command that opens first is refused, if at all, before any of its lines. */
  lemma RefusalPrecedesRecords(env: Env, steps: seq<Step>, i: nat)
    requires OpensFirst(steps) && i < |steps|
    ensures var log := After(env, START, steps).log;
            |log| == |steps| && (log[i].Refused? ==> forall j | 0 <= j < i :: !Written(log[j]))
  {
    var log := After(env, START, steps).log;
    EventKind(env, steps, i);
    hide After;
    if log[i].Refused? {
      forall j | 0 <= j < i ensures !Written(log[j]) {
        EventKind(env, steps, j);
      }
    }
  }

  // ------------------------------------------------------------------- lines

  lemma {:induction false} AddZippedGet(out: seq<Member>, item: Value, keys: seq<string>, paths: seq<seq<string>>,
                                        groups: seq<seq<string>>, k: string)
    requires Get(AddZipped(out, item, keys, paths, groups), k).Some?
    ensures Get(out, k).Some? || k in keys
    decreases |keys|
  {
    if keys != [] && paths != [] {
      var found := Lookup(item, paths[0], groups);
      var next := if found.Some? then Put(out, keys[0], found.value) else out;
      if found.Some? {
        GetPut(out, keys[0], found.value, k);
      }
      AddZippedGet(next, item, keys[1..], paths[1..], groups, k);
      assert forall x :: x in keys[1..] ==> x in keys;
    }
  }

  lemma TruncatedKeepsKeys(v: Value, limit: nat, k: string)
    requires v.Obj?
    ensures Has(Shape.Truncated(v, limit).members, k) <==> Has(v.members, k)
  {
    FindSameKeys(v.members, Shape.TruncatedMembers(v.members, limit), k);
  }

  /** Opened or not: a line has no member beyond the projected keys, or beyond its record's own when
      nothing is projected. In particular no record is annotated. */
  lemma LineHoldsOnlyTheRecord(env: Env, stream: Resolved, record: Value, k: string)
    requires record.Obj?
    ensures Line(env, stream, record).Obj?
    ensures Has(Line(env, stream, record).members, k) ==>
              if env.surface.select == [] then Has(record.members, k) else k in env.surface.select
  {
    var projected := Projection(env, stream, record);
    if env.surface.truncateContent > 0 {
      TruncatedKeepsKeys(projected, env.surface.truncateContent, k);
    }
    if env.surface.select != [] && Has(projected.members, k) {
      AddZippedGet([], record, env.surface.select, stream.paths, env.groups, k);
    }
  }

  lemma {:induction false} ZippedIsProjected(out: seq<Member>, item: Value, keys: seq<string>, groups: seq<seq<string>>)
    ensures AddZipped(out, item, keys, Compiled(keys), groups) == Shape.AddProjected(out, item, keys, groups)
    decreases |keys|
  {
    if keys != [] {
      var found := Lookup(item, Split(keys[0]), groups);
      ZippedIsProjected(if found.Some? then Put(out, keys[0], found.value) else out, item, keys[1..], groups);
      assert Compiled(keys)[1..] == Compiled(keys[1..]);
    }
  }

  /** Under an opened stream the projection is the one the envelope surface makes. */
  lemma OpenedProjects(env: Env, sample: seq<Value>, total: nat, advice: Advice, findings: Findings, record: Value)
    ensures Projection(env, Resolve(env, sample, total, advice, findings), record) ==
            Shape.ProjectOne(record, env.surface.select, env.groups)
  {
    ZippedIsProjected([], record, env.surface.select, env.groups);
  }

  /** A stream nobody opened is documented to pass records on as they are. It does so exactly when
      nothing is projected away and no string is over the content limit; a projection, having no
      paths, leaves every object empty. */
  lemma UnopenedPassesIff(env: Env, record: Value)
    ensures Line(env, INERT, record) == record <==>
            && (env.surface.select == [] || !record.Obj? || record.members == [])
            && !(env.surface.truncateContent > 0 && Shape.HasLong(record, env.surface.truncateContent))
    ensures record.Obj? && env.surface.select != [] ==> Line(env, INERT, record) == Obj([])
  {
    var limit := env.surface.truncateContent;
    Shape.TruncationPromise(record, limit);
    if record.Obj? && env.surface.select != [] {
      assert Projection(env, INERT, record) == Obj([]);
      assert Shape.Truncated(Obj([]), limit) == Obj([]);
    }
  }

  /** A record counts as cut exactly when its line differs from its projection. */
  lemma CutMeansChanged(env: Env, stream: Resolved, record: Value)
    ensures Shortens(env, stream, record) <==> Line(env, stream, record) != Projection(env, stream, record)
  {
    Shape.TruncationPromise(Projection(env, stream, record), env.surface.truncateContent);
  }

  // ------------------------------------------------------------ two commands

  function Records(rows: seq<Value>): (r: seq<Step>)
    ensures |r| == |rows| && forall i | 0 <= i < |rows| :: r[i] == Record(rows[i])
  {
    if rows == [] then [] else [Record(rows[0])] + Records(rows[1..])
  }

  /** `export`: open, every row, the summary last; `rest` is whatever is emitted after it. */
  function CommandSteps(open: Step, rows: seq<Value>, trailer: Step, rest: seq<Value>): seq<Step> {
    [open] + Records(rows) + [trailer] + Records(rest)
  }

  lemma CommandLog(env: Env, open: Step, rows: seq<Value>, trailer: Step, rest: seq<Value>)
    requires open.Open? && trailer.Trailer? && Verdict(env, open.sample).Ok?
    ensures var log := After(env, START, CommandSteps(open, rows, trailer, rest)).log;
            && |log| == |rows| + |rest| + 2 && log[0] == Accepted && log[|rows| + 1].TrailerLine?
            && Since(log[..|rows| + 1]) == 1
            && (log[|rows| + 1].count == CutLines(log) <==> forall j | |rows| + 1 < j < |log| :: !IsCut(log[j]))
  {
    var steps := CommandSteps(open, rows, trailer, rest);
    var i := |rows| + 1;
    assert steps[0] == open && steps[i] == trailer;
    var log := After(env, START, steps).log;
    TrailerCountsAllIff(env, steps, i);
    var before := EventOf(env, steps, 0);
    assert log[0] == (before.log + [log[0]])[0];
    hide After, CommandSteps;
    assert log[..i][0] == Accepted;
  }

  /** A trailer that comes last counts every cut record of its run. */
  lemma LastTrailerCountsAll(env: Env, open: Step, rows: seq<Value>, trailer: Step)
    requires open.Open? && trailer.Trailer? && Verdict(env, open.sample).Ok?
    ensures var log := After(env, START, CommandSteps(open, rows, trailer, [])).log;
            |log| == |rows| + 2 && log[|rows| + 1].TrailerLine? && log[|rows| + 1].count == CutLines(log)
  {
    hide After, CommandSteps;
    CommandLog(env, open, rows, trailer, []);
  }

  /** The record `ingest --enrich-after` emits once its summary is out. */
  const ENRICH_STARTED := Obj([Member("event", Str("enrich_phase_started")), Member("operation", Str("memory-bindings"))])

  lemma StartedIsLong(limit: nat)
    requires 0 < limit < 20
    ensures Shape.HasLong(ENRICH_STARTED, limit)
  {
    var members := ENRICH_STARTED.members;
    assert |"enrich_phase_started"| == 20;
    assert Shape.HasLong(members[0].value, limit);
  }

  /** `ingest --enrich-after` under a short content limit: whatever was ingested and whatever follows, the
      summary has already been written when more records are cut, so it counts too few. */
  lemma EnrichAfterIsUndercounted(env: Env, advice: Advice, rows: seq<Value>, target: seq<Member>, summary: Value, last: seq<Value>)
    requires env.surface.mutates && env.surface.select == [] && 0 < env.surface.truncateContent < 20
    ensures var log := After(env, START, CommandSteps(Open([], 0, advice), rows, Trailer(target, summary), [ENRICH_STARTED] + last)).log;
            |log| > |rows| + 2 && log[|rows| + 1].TrailerLine? && log[|rows| + 1].count < CutLines(log)
  {
    var open, trailer, rest := Open([], 0, advice), Trailer(target, summary), [ENRICH_STARTED] + last;
    var steps := CommandSteps(open, rows, trailer, rest);
    var i, j := |rows| + 1, |rows| + 2;
    CommandLog(env, open, rows, trailer, rest);
    TrailerCountsWhatCameBefore(env, steps, i);
    var log := After(env, START, steps).log;
    var before := EventOf(env, steps, j);
    assert steps[j] == Record(ENRICH_STARTED);
    assert log[j] == (before.log + [log[j]])[j];
    StartedIsLong(env.surface.truncateContent);
    assert IsCut(log[j]);
    Apart(log, Since(log[..i]), i);
  }

  /** `export`: open, one line per row, the summary; a refusal ends the run. */
  method Export(env: Env, sample: seq<Value>, advice: Advice, rows: seq<Value>, target: seq<Member>, summary: Value)
    returns (log: seq<Event>)
    ensures var open := Open(sample, |rows|, advice);
            log == After(env, START, if Verdict(env, sample).Ok? then CommandSteps(open, rows, Trailer(target, summary), [])
                                     else [open]).log
  {
    var open, trailer := Open(sample, |rows|, advice), Trailer(target, summary);
    var process := new Process();
    var refusal := process.OpenStream(env, sample, |rows|, advice);
    AfterOne(env, START, open);
    if refusal.Some? {
      return process.log;
    }
    hide Next, After;
    for i := 0 to |rows|
      invariant process.Valid() && fresh(process) && fresh(process.inert) && (process.stream != null ==> fresh(process.stream))
      invariant process.View() == After(env, START, [open] + Records(rows[..i]))
    {
      AfterSnoc(env, START, [open] + Records(rows[..i]), Record(rows[i]));
      RecordsSnoc(open, rows, i);
      process.EmitRecord(env, rows[i]);
    }
    assert rows[..|rows|] == rows;
    AfterSnoc(env, START, [open] + Records(rows), trailer);
    assert CommandSteps(open, rows, trailer, []) == [open] + Records(rows) + [trailer];
    process.EmitTrailer(env, target, summary);
    return process.log;
  }

  lemma RecordsSnoc(open: Step, rows: seq<Value>, i: nat)
    requires i < |rows|
    ensures [open] + Records(rows[..i + 1]) == [open] + Records(rows[..i]) + [Record(rows[i])]
  {
    assert Records(rows[..i + 1]) == Records(rows[..i]) + [Record(rows[i])];
  }

  lemma AfterOne(env: Env, st: State, step: Step)
    ensures After(env, st, [step]) == Next(env, st, step)
    ensures [step] + Records([]) == [step]
  {
    hide Next;
    assert [step][1..] == [];
    assert After(env, Next(env, st, step), []) == Next(env, st, step);
  }

  lemma AfterSnoc(env: Env, st: State, steps: seq<Step>, step: Step)
    ensures After(env, st, steps + [step]) == Next(env, After(env, st, steps), step)
  {
    hide Next;
    AfterSplit(env, st, steps + [step], |steps|);
    assert (steps + [step])[..|steps|] == steps && (steps + [step])[|steps|..] == [step];
    AfterOne(env, After(env, st, steps), step);
  }
}
