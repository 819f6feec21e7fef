/**
 Advisory file locks: the counting semaphore of CLI invocations and the
 singleton locks of heavy jobs, under every interleaving of processes.

 A process opens a path, creating the file if need be, and then tries to lock
 the file it opened; the two are separate steps. A lock lives as long as the
 handle that took it. Only `force` removes a path, and only a singleton's.
 */
module FileLocks {
  import opened Wrappers
  import Pigeonhole

  /** A lock path: a numbered CLI slot, or the file name of a singleton. */
  datatype Path = CliSlot(n: nat) | Singleton(name: string)

  /** An open file; `max` is the ceiling of the scan that opened it, if one did. */
  datatype Handle = Handle(path: Path, file: nat, locked: bool, max: nat)

  // --------------------------------------------------------- the file system

  /** `origin[f]` is the path file `f` was created under. */
  datatype Files = Files(paths: map<Path, nat>, handles: map<nat, Handle>, origin: seq<Path>)

  ghost predicate LockedFile(fs: Files, file: nat) {
    exists h | h in fs.handles :: fs.handles[h].file == file && fs.handles[h].locked
  }

  /** Opening with `create`: the path gets a file unless it has one. */
  function Touched(fs: Files, path: Path): (r: Files)
    ensures path in r.paths
  {
    if path in fs.paths then fs
    else fs.(paths := fs.paths[path := |fs.origin|], origin := fs.origin + [path])
  }

  /** A handle on the file now behind `path`. */
  function Handled(fs: Files, h: nat, path: Path, locked: bool, max: nat): Files
    requires path in fs.paths
  {
    fs.(handles := fs.handles[h := Handle(path, fs.paths[path], locked, max)])
  }

  /** `try_lock_exclusive` on an open handle. */
  ghost function Tried(fs: Files, h: nat): Files
    requires h in fs.handles
  {
    if LockedFile(fs, fs.handles[h].file) then fs
    else fs.(handles := fs.handles[h := fs.handles[h].(locked := true)])
  }

  function Closed(fs: Files, h: nat): Files {
    fs.(handles := fs.handles - {h})
  }

  /** `remove_file`: the path goes, open handles and their locks stay. */
  function Removed(fs: Files, path: Path): Files {
    fs.(paths := fs.paths - {path})
  }

  /** Files stay with the path they were created under, and have at most one lock. */
  ghost predicate Sound(fs: Files) {
    && (forall p | p in fs.paths :: fs.paths[p] < |fs.origin| && fs.origin[fs.paths[p]] == p)
    && (forall h | h in fs.handles :: fs.handles[h].file < |fs.origin| && fs.origin[fs.handles[h].file] == fs.handles[h].path)
    && OneLock(fs)
  }

  ghost predicate OneLock(fs: Files) {
    forall h, g | h in fs.handles && g in fs.handles && fs.handles[h].locked && fs.handles[g].locked
                  && fs.handles[h].file == fs.handles[g].file :: h == g
  }

  /** Every open handle on `path` is on the file now behind it. */
  ghost predicate Attached(fs: Files, path: Path) {
    forall h | h in fs.handles && fs.handles[h].path == path ::
      path in fs.paths && fs.handles[h].file == fs.paths[path]
  }

  ghost predicate OneHolder(fs: Files, path: Path) {
    forall h, g | h in fs.handles && g in fs.handles && fs.handles[h].locked && fs.handles[g].locked
                  && fs.handles[h].path == path && fs.handles[g].path == path :: h == g
  }

  lemma TouchKeeps(fs: Files, path: Path)
    requires Sound(fs)
    ensures Sound(Touched(fs, path))
    ensures forall p | Attached(fs, p) :: Attached(Touched(fs, path), p)
  {
    var r := Touched(fs, path);
    forall p | Attached(fs, p) ensures Attached(r, p) {
      assert path !in fs.paths ==> forall h | h in fs.handles :: fs.handles[h].path == p ==> p != path;
    }
  }

  lemma HandleKeeps(fs: Files, h: nat, path: Path, locked: bool, max: nat)
    requires Sound(fs) && h !in fs.handles && path in fs.paths
    requires locked ==> !LockedFile(fs, fs.paths[path])
    ensures Sound(Handled(fs, h, path, locked, max))
    ensures forall p | Attached(fs, p) :: Attached(Handled(fs, h, path, locked, max), p)
  {
  }

  lemma TryKeeps(fs: Files, h: nat)
    requires Sound(fs) && h in fs.handles
    ensures Sound(Tried(fs, h))
    ensures forall p | Attached(fs, p) :: Attached(Tried(fs, h), p)
  {
  }

  lemma CloseKeeps(fs: Files, h: nat)
    requires Sound(fs)
    ensures Sound(Closed(fs, h))
    ensures forall p | Attached(fs, p) :: Attached(Closed(fs, h), p)
  {
  }

  lemma RemoveKeeps(fs: Files, path: Path)
    requires Sound(fs)
    ensures Sound(Removed(fs, path))
    ensures forall p | Attached(fs, p) && p != path :: Attached(Removed(fs, path), p)
  {
  }

  lemma AttachedIsExclusive(fs: Files, path: Path)
    requires Sound(fs) && Attached(fs, path)
    ensures OneHolder(fs, path)
  {
  }

  // --------------------------------------------------------------- the steps

  /** One `acquire_cli_slot` in progress: in the pass begun at `since`, the slots below `next`
      were found held; `trying` is the file opened behind slot `next`. */
  datatype Scan = Scan(max: nat, next: nat, since: nat, trying: Option<nat>, full: bool)

  datatype State = State(files: Files, scans: map<nat, Scan>, clock: nat)

  datatype Step =
    | Open(h: nat, path: Path)
    | TryLock(h: nat)
    | Close(h: nat)
    | Begin(scan: nat, requested: nat, ceiling: nat)
    | Probe(scan: nat)
    | Settle(scan: nat, h: nat)
    | Abort(scan: nat)
    | ReportFull(scan: nat)
    | Poll(scan: nat)
    | Force(path: Path)

  /** The requested concurrency clamped to `[1, ceiling]`; clamping to an empty range panics. */
  function SlotLimit(requested: nat, ceiling: nat): (r: Option<nat>)
    ensures r.None? <==> ceiling == 0
    ensures r.Some? ==> 1 <= r.value <= ceiling
    ensures r.Some? && 1 <= requested <= ceiling ==> r.value == requested
    ensures r.Some? && requested > ceiling ==> r.value == ceiling
    ensures r.Some? && requested == 0 ==> r.value == 1
  {
    if ceiling == 0 then None
    else if requested < 1 then Some(1)
    else if requested > ceiling then Some(ceiling)
    else Some(requested)
  }

  predicate Scanning(st: State, scan: nat) {
    scan in st.scans && !st.scans[scan].full
  }

  predicate Trying(st: State, scan: nat) {
    Scanning(st, scan) && st.scans[scan].trying.Some?
  }

  /** Every slot up to `max` was tried in this pass. */
  predicate Exhausted(st: State, scan: nat) {
    Scanning(st, scan) && st.scans[scan].trying.None? && st.scans[scan].next > st.scans[scan].max
  }

  predicate Enabled(st: State, step: Step) {
    match step
    case Open(h, path) => h !in st.files.handles && path.Singleton?
    case TryLock(h) => h in st.files.handles
    case Close(h) => h in st.files.handles
    case Begin(scan, requested, ceiling) => scan !in st.scans && SlotLimit(requested, ceiling).Some?
    case Probe(scan) => Scanning(st, scan) && st.scans[scan].trying.None? && st.scans[scan].next <= st.scans[scan].max
    case Settle(scan, h) => Trying(st, scan) && h !in st.files.handles
    case Abort(scan) => Trying(st, scan)
    case ReportFull(scan) => Exhausted(st, scan)
    case Poll(scan) => Exhausted(st, scan)
    case Force(path) => path.Singleton?
  }

  function SlotOf(st: State, scan: nat): Path
    requires scan in st.scans
  {
    CliSlot(st.scans[scan].next)
  }

  /** The file opened behind the slot being tried is locked by someone. */
  ghost predicate Contended(st: State, scan: nat)
    requires Trying(st, scan)
  {
    LockedFile(st.files, st.scans[scan].trying.value)
  }

  /** What a step does to the files. */
  ghost function FilesAfter(st: State, step: Step): Files
    requires Enabled(st, step)
  {
    match step
    case Open(h, path) => Handled(Touched(st.files, path), h, path, false, 0)
    case TryLock(h) => Tried(st.files, h)
    case Close(h) => Closed(st.files, h)
    case Probe(scan) => Touched(st.files, SlotOf(st, scan))
    case Settle(scan, h) =>
      if Contended(st, scan) then st.files
      else st.files.(handles := st.files.handles[h := Handle(SlotOf(st, scan), st.scans[scan].trying.value, true, st.scans[scan].max)])
    case Force(path) => Removed(st.files, path)
    case _ => st.files
  }

  /** What a step does to the scans: a slot taken ends one, a slot seen held moves it on. */
  ghost function ScansAfter(st: State, step: Step): map<nat, Scan>
    requires Enabled(st, step)
  {
    match step
    case Begin(scan, requested, ceiling) =>
      st.scans[scan := Scan(SlotLimit(requested, ceiling).value, 1, st.clock, None, false)]
    case Probe(scan) =>
      st.scans[scan := st.scans[scan].(trying := Some(Touched(st.files, SlotOf(st, scan)).paths[SlotOf(st, scan)]))]
    case Settle(scan, _) =>
      if Contended(st, scan) then st.scans[scan := st.scans[scan].(next := st.scans[scan].next + 1, trying := None)]
      else st.scans - {scan}
    case Abort(scan) => st.scans - {scan}
    case ReportFull(scan) => st.scans[scan := st.scans[scan].(full := true)]
    case Poll(scan) => st.scans[scan := st.scans[scan].(next := 1, since := st.clock)]
    case _ => st.scans
  }

  ghost function Next(st: State, step: Step): State
    requires Enabled(st, step)
  {
    State(FilesAfter(st, step), ScansAfter(st, step), st.clock + 1)
  }

  ghost predicate Trace(states: seq<State>, steps: seq<Step>) {
    && |states| == |steps| + 1
    && forall i | 0 <= i < |steps| :: Enabled(states[i], steps[i]) && states[i + 1] == Next(states[i], steps[i])
  }

  /** Any lock files of earlier runs, nobody running. */
  ghost predicate Initial(st: State) {
    st.files.handles == map[] && st.scans == map[] && st.clock == 0 && Sound(st.files)
  }

  /** A scan is on a slot of its own range, and what it opened is the file behind that slot. */
  predicate OnTrack(st: State, s: Scan) {
    && 1 <= s.max && 1 <= s.next <= s.max + 1 && s.since <= st.clock
    && (s.trying.Some? ==>
          s.next <= s.max && CliSlot(s.next) in st.files.paths && st.files.paths[CliSlot(s.next)] == s.trying.value)
  }

  ghost predicate Inv(st: State) {
    && Sound(st.files)
    && (forall scan | scan in st.scans :: OnTrack(st, st.scans[scan]))
    && (forall h | h in st.files.handles && st.files.handles[h].path.CliSlot? ::
          1 <= st.files.handles[h].path.n <= st.files.handles[h].max)
  }

  lemma StepKeepsFiles(st: State, step: Step)
    requires Inv(st) && Enabled(st, step)
    ensures Sound(FilesAfter(st, step))
    ensures forall p | Attached(st.files, p) && step != Force(p) :: Attached(FilesAfter(st, step), p)
  {
    hide Sound, Attached, Tried, Closed, Removed;
    match step {
      case Open(h, path) =>
        TouchKeeps(st.files, path);
        HandleKeeps(Touched(st.files, path), h, path, false, 0);
      case TryLock(h) => TryKeeps(st.files, h);
      case Close(h) => CloseKeeps(st.files, h);
      case Probe(scan) => TouchKeeps(st.files, SlotOf(st, scan));
      case Settle(scan, h) =>
        if !Contended(st, scan) {
          HandleKeeps(st.files, h, SlotOf(st, scan), true, st.scans[scan].max);
        }
      case Force(path) => RemoveKeeps(st.files, path);
      case _ =>
    }
  }

  /** CLI slot files only ever come, so what a scan opened stays behind its slot. */
  lemma SlotFilesStay(st: State, step: Step, n: nat)
    requires Enabled(st, step) && CliSlot(n) in st.files.paths
    ensures CliSlot(n) in FilesAfter(st, step).paths && FilesAfter(st, step).paths[CliSlot(n)] == st.files.paths[CliSlot(n)]
  {
  }

  lemma StepKeeps(st: State, step: Step)
    requires Inv(st) && Enabled(st, step)
    ensures Inv(Next(st, step))
  {
    var r := Next(st, step);
    StepKeepsFiles(st, step);
    forall scan | scan in r.scans ensures OnTrack(r, r.scans[scan]) {
      StepKeepsOnTrack(st, step, scan);
    }
  }

  lemma StepKeepsOnTrack(st: State, step: Step, scan: nat)
    requires Inv(st) && Enabled(st, step) && scan in ScansAfter(st, step)
    ensures OnTrack(Next(st, step), ScansAfter(st, step)[scan])
  {
    if scan in st.scans {
      assert OnTrack(st, st.scans[scan]);
      if CliSlot(st.scans[scan].next) in st.files.paths {
        SlotFilesStay(st, step, st.scans[scan].next);
      }
    }
  }

  lemma {:induction false} TraceKeeps(states: seq<State>, steps: seq<Step>, i: nat)
    requires Trace(states, steps) && i <= |steps| && Inv(states[0])
    ensures Inv(states[i])
    ensures forall p | Attached(states[0].files, p) && Force(p) !in steps :: Attached(states[i].files, p)
  {
    if i > 0 {
      hide Inv, Attached, FilesAfter, ScansAfter;
      TraceKeeps(states, steps, i - 1);
      assert states[i - 1 + 1] == Next(states[i - 1], steps[i - 1]);
      StepKeepsFiles(states[i - 1], steps[i - 1]);
      StepKeeps(states[i - 1], steps[i - 1]);
      assert steps[i - 1] in steps;
    }
  }

  // ---------------------------------------------------------------- exclusion

  /** Every run in which nobody forces `path`: at most one process holds its lock. */
  lemma OneHolderPerPath(states: seq<State>, steps: seq<Step>, path: Path, i: nat)
    requires Trace(states, steps) && Initial(states[0]) && Force(path) !in steps && i <= |steps|
    ensures OneHolder(states[i].files, path)
  {
    TraceKeeps(states, steps, i);
    AttachedIsExclusive(states[i].files, path);
  }

  predicate Unopened(fs: Files, path: Path) {
    forall h | h in fs.handles :: fs.handles[h].path != path
  }

  lemma {:induction false} FreshHandle(used: set<nat>) returns (g: nat)
    ensures g !in used && forall x | x in used :: x < g
    decreases used
  {
    if used == {} {
      g := 0;
    } else {
      var x :| x in used;
      var rest := FreshHandle(used - {x});
      g := if x < rest then rest else x + 1;
      assert forall y | y in used :: y == x || y in used - {x};
    }
  }

  /** Whoever had the path open before it was forced can end up holding beside a newcomer. */
  lemma NewcomerHolds(fs: Files, path: Path, h: nat, g: nat)
    requires Sound(fs) && path !in fs.paths && h in fs.handles && fs.handles[h].path == path && g !in fs.handles
    ensures var fs1 := Tried(fs, h);
            var fs2 := Handled(Touched(fs1, path), g, path, false, 0);
            !OneHolder(Tried(fs2, g), path)
  {
    TryKeeps(fs, h);
    var fs1 := Tried(fs, h);
    var file := fs.handles[h].file;
    assert LockedFile(fs1, file) by {
      if !LockedFile(fs, file) {
        assert fs1.handles[h].locked && h in fs1.handles;
      }
    }
    var k :| k in fs1.handles && fs1.handles[k].file == file && fs1.handles[k].locked;
    var fs2 := Handled(Touched(fs1, path), g, path, false, 0);
    var fs3 := Tried(fs2, g);
    assert !LockedFile(fs2, |fs1.origin|);
    assert k in fs3.handles && g in fs3.handles && fs3.handles[k].locked && fs3.handles[g].locked;
  }

  lemma TraceOfThree(st: State, a: Step, b: Step, c: Step) returns (states: seq<State>)
    requires Enabled(st, a) && Enabled(Next(st, a), b) && Enabled(Next(Next(st, a), b), c)
    ensures Trace(states, [a, b, c]) && states[0] == st && states[3] == Next(Next(Next(st, a), b), c)
  {
    hide Next, Enabled;
    states := [st, Next(st, a), Next(Next(st, a), b), Next(Next(Next(st, a), b), c)];
  }

  lemma TriedHandles(fs: Files, h: nat)
    requires h in fs.handles
    ensures Tried(fs, h).handles.Keys == fs.handles.Keys && Tried(fs, h).paths == fs.paths
  {
  }

  /** After a force, the old handle tries, a newcomer opens and tries: three steps that are all possible. */
  lemma ForcedSteps(st: State, path: Path, h: nat, g: nat) returns (states: seq<State>)
    requires path.Singleton? && h in st.files.handles && g !in st.files.handles
    ensures Trace(states, [TryLock(h), Open(g, path), TryLock(g)]) && states[0] == Next(st, Force(path))
    ensures states[3].files == Tried(Handled(Touched(Tried(Removed(st.files, path), h), path), g, path, false, 0), g)
  {
    hide LockedFile, Trace, ScansAfter, Tried;
    var s0 := Next(st, Force(path));
    TriedHandles(s0.files, h);
    var s1 := Next(s0, TryLock(h));
    var s2 := Next(s1, Open(g, path));
    TriedHandles(s2.files, g);
    states := TraceOfThree(s0, TryLock(h), Open(g, path), TryLock(g));
  }

  lemma ForcedSecondHolder(st: State, path: Path, h: nat) returns (states: seq<State>, steps: seq<Step>)
    requires Inv(st) && path.Singleton? && h in st.files.handles && st.files.handles[h].path == path
    ensures Trace(states, steps) && states[0] == Next(st, Force(path)) && Force(path) !in steps
    ensures !OneHolder(states[|steps|].files, path)
  {
    var g := FreshHandle(st.files.handles.Keys);
    RemoveKeeps(st.files, path);
    var fs := Removed(st.files, path);
    assert path !in fs.paths && g !in fs.handles;
    hide Sound, OneHolder, Trace, Next, Removed, Tried;
    NewcomerHolds(fs, path, h, g);
    steps := [TryLock(h), Open(g, path), TryLock(g)];
    states := ForcedSteps(st, path, h, g);
  }

  /** `--force` is safe for every later run exactly when nobody has the path open. */
  lemma ForceSafeIff(st: State, path: Path)
    requires Inv(st) && path.Singleton?
    ensures Unopened(st.files, path) <==>
            forall states: seq<State>, steps: seq<Step>
              | Trace(states, steps) && states[0] == Next(st, Force(path)) && Force(path) !in steps ::
              OneHolder(states[|steps|].files, path)
  {
    if Unopened(st.files, path) {
      StepKeeps(st, Force(path));
      forall states: seq<State>, steps: seq<Step> | Trace(states, steps) && states[0] == Next(st, Force(path)) && Force(path) !in steps
        ensures OneHolder(states[|steps|].files, path)
      {
        assert Attached(states[0].files, path);
        TraceKeeps(states, steps, |steps|);
        AttachedIsExclusive(states[|steps|].files, path);
      }
    } else {
      var h :| h in st.files.handles && st.files.handles[h].path == path;
      var states, steps := ForcedSecondHolder(st, path, h);
    }
  }

  // ----------------------------------------------------------------- counting

  /** The slots held, by handle, numbered from zero. */
  function HeldSlots(fs: Files): map<nat, nat> {
    map h | h in fs.handles && fs.handles[h].locked && fs.handles[h].path.CliSlot? ::
      if fs.handles[h].path.n > 0 then fs.handles[h].path.n - 1 else 0
  }

  ghost predicate Within(st: State, bound: nat) {
    && (forall h | h in st.files.handles && st.files.handles[h].path.CliSlot? :: st.files.handles[h].max <= bound)
    && (forall scan | scan in st.scans :: st.scans[scan].max <= bound)
  }

  /** No scan begins with a limit of its own above `bound`, whatever the machine allows. */
  ghost predicate AsksAtMost(steps: seq<Step>, bound: nat) {
    forall i | 0 <= i < |steps| && steps[i].Begin? ::
      match SlotLimit(steps[i].requested, steps[i].ceiling) case Some(max) => max <= bound case None => true
  }

  lemma {:induction false} TraceStaysWithin(states: seq<State>, steps: seq<Step>, bound: nat, i: nat)
    requires Trace(states, steps) && i <= |steps| && Within(states[0], bound) && AsksAtMost(steps, bound)
    ensures Within(states[i], bound)
  {
    if i > 0 {
      TraceStaysWithin(states, steps, bound, i - 1);
      assert states[i - 1 + 1] == Next(states[i - 1], steps[i - 1]);
    }
  }

  lemma SlotsAreNeverForced(states: seq<State>, steps: seq<Step>)
    requires Trace(states, steps)
    ensures forall n :: Force(CliSlot(n)) !in steps
  {
    assert forall i | 0 <= i < |steps| && steps[i].Force? :: Enabled(states[i], steps[i]);
  }

  /** Scans with any mixture of limits: each holder is on a slot of its own range, holders are
      on distinct slots, and there are never more than the largest limit any scan had. */
  lemma AtMostCeiling(states: seq<State>, steps: seq<Step>, bound: nat, i: nat)
    requires Trace(states, steps) && Initial(states[0]) && AsksAtMost(steps, bound) && i <= |steps|
    ensures forall h | h in HeldSlots(states[i].files) ::
              1 <= states[i].files.handles[h].path.n <= states[i].files.handles[h].max <= bound
    ensures forall n :: OneHolder(states[i].files, CliSlot(n))
    ensures |HeldSlots(states[i].files)| <= bound
  {
    SlotsAreNeverForced(states, steps);
    TraceKeeps(states, steps, i);
    TraceStaysWithin(states, steps, bound, i);
    forall n ensures OneHolder(states[i].files, CliSlot(n)) {
      OneHolderPerPath(states, steps, CliSlot(n), i);
    }
    DistinctSlots(states[i], bound);
  }

  // ------------------------------------------------------ which slot is taken

  lemma TraceCons(st: State, step: Step, states: seq<State>, steps: seq<Step>)
    requires Enabled(st, step) && Trace(states, steps) && states[0] == Next(st, step)
    ensures Trace([st] + states, [step] + steps)
  {
    hide Enabled, Next;
    var all, run := [st] + states, [step] + steps;
    forall i | 0 <= i < |run| ensures Enabled(all[i], run[i]) && all[i + 1] == Next(all[i], run[i]) {
      if i > 0 {
        assert all[i] == states[i - 1] && run[i] == steps[i - 1] && all[i + 1] == states[i - 1 + 1];
      }
    }
  }

  ghost predicate SlotIsLocked(fs: Files, n: nat) {
    CliSlot(n) in fs.paths && LockedFile(fs, fs.paths[CliSlot(n)])
  }

  /** Looking at a held slot changes nothing but where the scan stands. */
  lemma PassesHeldSlot(st: State, scan: nat, h: nat)
    requires Scanning(st, scan) && st.scans[scan].trying.None? && st.scans[scan].next <= st.scans[scan].max
    requires SlotIsLocked(st.files, st.scans[scan].next) && h !in st.files.handles
    ensures Enabled(st, Probe(scan)) && Enabled(Next(st, Probe(scan)), Settle(scan, h))
    ensures Next(Next(st, Probe(scan)), Settle(scan, h)) ==
            State(st.files, st.scans[scan := st.scans[scan].(next := st.scans[scan].next + 1)], st.clock + 2)
  {
  }

  /** Looking at a free slot takes it. */
  lemma TakesFreeSlot(st: State, scan: nat, h: nat)
    requires Scanning(st, scan) && st.scans[scan].trying.None? && st.scans[scan].next <= st.scans[scan].max
    requires Sound(st.files) && !SlotIsLocked(st.files, st.scans[scan].next) && h !in st.files.handles
    ensures Enabled(st, Probe(scan)) && Enabled(Next(st, Probe(scan)), Settle(scan, h))
    ensures var after := Next(Next(st, Probe(scan)), Settle(scan, h));
            && after.scans == st.scans - {scan} && h in after.files.handles
            && after.files.handles - {h} == st.files.handles
            && after.files.handles[h].path == CliSlot(st.scans[scan].next) && after.files.handles[h].locked
            && after.files.handles[h].max == st.scans[scan].max
  {
    var slot := CliSlot(st.scans[scan].next);
    var probed := Next(st, Probe(scan));
    var file := probed.scans[scan].trying.value;
    assert !LockedFile(probed.files, file) by {
      if slot !in st.files.paths {
        assert file == |st.files.origin|;
      }
    }
    assert st.files.handles[h := Handle(slot, file, true, st.scans[scan].max)] - {h} == st.files.handles;
  }

  /** From slot `next` on, over held slots, to the first free one. */
  lemma {:induction false} ScanReaches(st: State, scan: nat, n: nat, h: nat) returns (states: seq<State>, steps: seq<Step>)
    requires Sound(st.files) && Scanning(st, scan) && st.scans[scan].trying.None? && h !in st.files.handles
    requires st.scans[scan].next <= n <= st.scans[scan].max && !SlotIsLocked(st.files, n)
    requires forall i | st.scans[scan].next <= i < n :: SlotIsLocked(st.files, i)
    ensures Trace(states, steps) && states[0] == st
    ensures var last := states[|steps|];
            && last.scans == st.scans - {scan} && h in last.files.handles && last.files.handles - {h} == st.files.handles
            && last.files.handles[h].path == CliSlot(n) && last.files.handles[h].locked
            && last.files.handles[h].max == st.scans[scan].max
    decreases n - st.scans[scan].next
  {
    var probe, settle := Probe(scan), Settle(scan, h);
    var probed := Next(st, probe);
    if st.scans[scan].next == n {
      TakesFreeSlot(st, scan, h);
      var last := Next(probed, settle);
      states, steps := [last], [];
    } else {
      PassesHeldSlot(st, scan, h);
      var next := Next(probed, settle);
      assert next.scans - {scan} == st.scans - {scan};
      states, steps := ScanReaches(next, scan, n, h);
    }
    hide Enabled, Next, Sound, SlotIsLocked, Scanning;
    TraceCons(probed, settle, states, steps);
    TraceCons(st, probe, [probed] + states, [settle] + steps);
    var allStates, allSteps := [st] + ([probed] + states), [probe] + ([settle] + steps);
    assert allStates[|allSteps|] == states[|steps|];
    states, steps := allStates, allSteps;
  }

  /** An undisturbed scan takes the lowest free slot of its range, whichever that is, and disturbs nobody;
      closing its handle leaves every handle as it was. */
  lemma LowestFreeSlotIsTaken(st: State, scan: nat, requested: nat, ceiling: nat, n: nat, h: nat)
    returns (states: seq<State>, steps: seq<Step>)
    requires Sound(st.files) && scan !in st.scans && h !in st.files.handles && ceiling > 0
    requires 1 <= n <= SlotLimit(requested, ceiling).value && !SlotIsLocked(st.files, n)
    requires forall i | 1 <= i < n :: SlotIsLocked(st.files, i)
    ensures Trace(states, steps) && states[0] == st
    ensures var last := states[|steps|].files;
            && h in last.handles && last.handles[h].path == CliSlot(n) && last.handles[h].locked
            && last.handles[h].max == SlotLimit(requested, ceiling).value
            && Enabled(states[|steps|], Close(h)) && Next(states[|steps|], Close(h)).files.handles == st.files.handles
    ensures states[|steps|].scans == st.scans
  {
    var begin := Begin(scan, requested, ceiling);
    var begun := Next(st, begin);
    states, steps := ScanReaches(begun, scan, n, h);
    assert begun.scans - {scan} == st.scans;
    TraceCons(st, begin, states, steps);
    var allStates, allSteps := [st] + states, [begin] + steps;
    assert allStates[|allSteps|] == states[|steps|];
    states, steps := allStates, allSteps;
  }

  lemma DistinctSlots(st: State, bound: nat)
    requires Inv(st) && Within(st, bound) && forall n :: OneHolder(st.files, CliSlot(n))
    ensures |HeldSlots(st.files)| <= bound
  {
    var held := HeldSlots(st.files);
    forall h, g | h in held && g in held && held[h] == held[g] ensures h == g {
      assert OneHolder(st.files, CliSlot(held[h] + 1));
    }
    Pigeonhole.InjectiveBelow(held, bound);
  }

  // ---------------------------------------------------------------- full means

  ghost predicate SlotHeld(st: State, n: nat) {
    exists h | h in st.files.handles :: st.files.handles[h].locked && st.files.handles[h].path == CliSlot(n)
  }

  /** Slot `n` was held at some moment in `[from, to)`. */
  ghost predicate SeenHeld(states: seq<State>, from: nat, to: nat, n: nat)
    requires to <= |states|
  {
    exists t | from <= t < to :: SlotHeld(states[t], n)
  }

  lemma ContendedIsHeld(st: State, scan: nat)
    requires Inv(st) && Trying(st, scan) && Contended(st, scan)
    ensures SlotHeld(st, st.scans[scan].next)
  {
    assert OnTrack(st, st.scans[scan]);
    var h :| h in st.files.handles && st.files.handles[h].file == st.scans[scan].trying.value && st.files.handles[h].locked;
    assert st.files.handles[h].path == CliSlot(st.scans[scan].next);
  }

  lemma {:induction false} ClockCounts(states: seq<State>, steps: seq<Step>, i: nat)
    requires Trace(states, steps) && Initial(states[0]) && i <= |steps|
    ensures states[i].clock == i
  {
    if i > 0 {
      ClockCounts(states, steps, i - 1);
      assert states[i - 1 + 1] == Next(states[i - 1], steps[i - 1]);
    }
  }

  /** Every slot a scan has passed was held at some moment of its current pass. */
  lemma {:induction false} PassedSlotsWereHeld(states: seq<State>, steps: seq<Step>, i: nat, scan: nat, n: nat)
    requires Trace(states, steps) && Initial(states[0]) && i <= |steps|
    requires scan in states[i].scans && 1 <= n < states[i].scans[scan].next
    ensures SeenHeld(states, states[i].scans[scan].since, i, n)
  {
    if i > 0 {
      var before, step := states[i - 1], steps[i - 1];
      assert states[i - 1 + 1] == Next(before, step);
      TraceKeeps(states, steps, i - 1);
      ClockCounts(states, steps, i - 1);
      assert scan in before.scans ==> OnTrack(before, before.scans[scan]);
      hide Enabled, FilesAfter, Inv;
      if scan in before.scans && n < before.scans[scan].next && before.scans[scan].since == states[i].scans[scan].since {
        PassedSlotsWereHeld(states, steps, i - 1, scan, n);
      } else {
        StepPasses(before, step, scan, n);
      }
    }
  }

  /** The only step that puts slot `n` behind a scan finds it held. */
  lemma StepPasses(st: State, step: Step, scan: nat, n: nat)
    requires Inv(st) && Enabled(st, step) && scan in ScansAfter(st, step) && 1 <= n < ScansAfter(st, step)[scan].next
    requires !(scan in st.scans && n < st.scans[scan].next && st.scans[scan].since == ScansAfter(st, step)[scan].since)
    ensures SlotHeld(st, n) && scan in st.scans && st.scans[scan].since == ScansAfter(st, step)[scan].since
  {
    assert step.Settle? && step.scan == scan && Contended(st, scan);
    ContendedIsHeld(st, scan);
  }

  /** `AllSlotsFull` is reported only by a pass that found every slot of its range held when it tried it. */
  lemma FullMeansEverySlotWasHeld(states: seq<State>, steps: seq<Step>, i: nat, scan: nat, n: nat)
    requires Trace(states, steps) && Initial(states[0]) && i < |steps| && steps[i] == ReportFull(scan)
    ensures scan in states[i].scans && states[i].scans[scan].max >= 1
    ensures 1 <= n <= states[i].scans[scan].max ==> SeenHeld(states, states[i].scans[scan].since, i, n)
  {
    assert Enabled(states[i], steps[i]);
    TraceKeeps(states, steps, i);
    assert OnTrack(states[i], states[i].scans[scan]);
    if 1 <= n <= states[i].scans[scan].max {
      PassedSlotsWereHeld(states, steps, i, scan, n);
    }
  }

  // ------------------------------------------------------- singleton file names

  predicate IsAsciiAlnum(c: char) {
    '0' <= c <= '9' || 'A' <= c <= 'Z' || 'a' <= c <= 'z'
  }

  function AsciiLower(c: char): char {
    if 'A' <= c <= 'Z' then (c as int + 32) as char else c
  }

  function SlugChar(c: char): char {
    if IsAsciiAlnum(c) || c == '-' || c == '_' then AsciiLower(c) else '-'
  }

  /** The namespace as part of a file name. */
  function Slug(namespace: string): string {
    if namespace == "" then "default" else seq(|namespace|, i requires 0 <= i < |namespace| => SlugChar(namespace[i]))
  }

  function KeepAlnum(s: string): string {
    if s == "" then "" else (if IsAsciiAlnum(s[0]) then [s[0]] else "") + KeepAlnum(s[1..])
  }

  function SafeHash(hash: string): string {
    var kept := KeepAlnum(hash);
    if |kept| > 16 then kept[..16] else kept
  }

  datatype Kind = EnrichJob | Embedding

  function Prefix(kind: Kind): string {
    match kind case EnrichJob => "job-singleton-enrich-" case Embedding => "embed-singleton-"
  }

  /** The lock path of a singleton. */
  function SingletonPath(kind: Kind, namespace: string, hash: string): Path {
    Singleton(Prefix(kind) + Slug(namespace) + "-" + SafeHash(hash) + ".lock")
  }

  /** What `db_path_hash` returns: twelve lower-case hexadecimal digits. */
  predicate IsDbHash(hash: string) {
    |hash| == 12 && forall i | 0 <= i < |hash| :: '0' <= hash[i] <= '9' || 'a' <= hash[i] <= 'f'
  }

  lemma {:induction false} AlnumIsKept(s: string)
    requires forall i | 0 <= i < |s| :: IsAsciiAlnum(s[i])
    ensures KeepAlnum(s) == s
  {
    if s != "" {
      AlnumIsKept(s[1..]);
      assert s == [s[0]] + s[1..];
    }
  }

  lemma HashIsSafe(hash: string)
    requires IsDbHash(hash)
    ensures SafeHash(hash) == hash
  {
    AlnumIsKept(hash);
  }

  lemma KindsDiffer(ns: string, hash: string, ns2: string, hash2: string)
    ensures SingletonPath(EnrichJob, ns, hash) != SingletonPath(Embedding, ns2, hash2)
  {
    hide Slug, SafeHash;
    assert SingletonPath(EnrichJob, ns, hash).name[0] == 'j';
    assert SingletonPath(Embedding, ns2, hash2).name[0] == 'e';
  }

  /** Equal names of two parts around a separator and a fixed-width tail have equal parts. */
  lemma NameParts(p: string, a: string, x: string, b: string, y: string, end: string)
    requires |x| == |y|
    ensures p + a + "-" + x + end == p + b + "-" + y + end <==> a == b && x == y
  {
    var l, r := p + a + "-" + x + end, p + b + "-" + y + end;
    if l == r {
      assert |a| == |b|;
      assert l[|p|..|p| + |a|] == a && r[|p|..|p| + |b|] == b;
      assert l[|p| + |a| + 1..|p| + |a| + 1 + |x|] == x && r[|p| + |b| + 1..|p| + |b| + 1 + |y|] == y;
    }
  }

  /** Two singletons share a lock exactly when kind, database hash and namespace slug coincide. */
  lemma SharedPathIff(k: Kind, ns: string, hash: string, k2: Kind, ns2: string, hash2: string)
    requires IsDbHash(hash) && IsDbHash(hash2)
    ensures SingletonPath(k, ns, hash) == SingletonPath(k2, ns2, hash2)
            <==> k == k2 && hash == hash2 && Slug(ns) == Slug(ns2)
  {
    HashIsSafe(hash);
    HashIsSafe(hash2);
    hide Slug, SafeHash, Prefix;
    if k == k2 {
      NameParts(Prefix(k), Slug(ns), hash, Slug(ns2), hash2, ".lock");
    } else if k == EnrichJob {
      KindsDiffer(ns, hash, ns2, hash2);
    } else {
      KindsDiffer(ns2, hash2, ns, hash);
    }
  }
}
