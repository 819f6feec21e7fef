/**
 The cross-process semaphore of LLM subprocesses, as a step relation.

 A slot is taken by creating its file exclusively, locking it and writing the
 holder's pid into it; it is given back by removing the path. A stale file is
 read by one step, judged by a second and removed by a third, so anything may
 happen between.
 Locks belong to files, not paths, and removing a path leaves the file locked.
 */
module LlmSlots {
  import opened Wrappers
  import Pigeonhole

  datatype Phase = Opened | Locked | Held

  /** One attempt of a live process, from the file it created to the guard it returned. */
  datatype Holder = Holder(pid: nat, slot: nat, max: nat, phase: Phase)

  /** `paths` maps a slot to the file behind its path, `pidLine` a file to the pid written in it,
      `holders` a file to the live attempt that created it; `seen` are pids read from a slot and not yet
      judged, `stale` findings not yet acted on. */
  datatype State = State(
    paths: map<nat, nat>,
    pidLine: map<nat, nat>,
    holders: map<nat, Holder>,
    alive: set<nat>,
    seen: set<(nat, nat, nat)>,
    stale: set<(nat, nat)>,
    nextFile: nat)

  datatype Step =
    | Spawn(pid: nat)
    | Crash(pid: nat)
    | Create(pid: nat, slot: nat, max: nat)
    | Lock(file: nat)
    | LockFails(file: nat)
    | WritePid(file: nat)
    | WriteFails(file: nat)
    | Drop(file: nat)
    | Read(pid: nat, slot: nat)
    | Judge(pid: nat, slot: nat, named: nat)
    | Reap(pid: nat, slot: nat)
    | ForceRelease(slot: nat)

  // ------------------------------------------------------------- semantics

  predicate InPhase(st: State, file: nat, phase: Phase) {
    file in st.holders && st.holders[file].phase == phase
  }

  /** The file at `slot` names a pid that no live process has. */
  predicate NamesDeadPid(st: State, slot: nat) {
    slot in st.paths && st.paths[slot] in st.pidLine && st.pidLine[st.paths[slot]] !in st.alive
  }

  predicate Enabled(st: State, step: Step) {
    match step
    case Spawn(pid) => pid !in st.alive
    case Crash(pid) => pid in st.alive
    case Create(pid, slot, max) => pid in st.alive && slot < max && slot !in st.paths
    case Lock(file) => InPhase(st, file, Opened)
    case LockFails(file) => InPhase(st, file, Opened)
    case WritePid(file) => InPhase(st, file, Locked)
    case WriteFails(file) => InPhase(st, file, Locked)
    case Drop(file) => InPhase(st, file, Held)
    case Read(pid, slot) => pid in st.alive && slot in st.paths && st.paths[slot] in st.pidLine
    case Judge(pid, slot, named) => pid in st.alive && (pid, slot, named) in st.seen
    case Reap(pid, slot) => pid in st.alive && (pid, slot) in st.stale
    case ForceRelease(_) => true
  }

  function Advance(st: State, file: nat, phase: Phase): State
    requires file in st.holders
  {
    st.(holders := st.holders[file := st.holders[file].(phase := phase)])
  }

  /** What `remove_file` does: the path goes, the file and its lock stay. */
  function WithoutPath(st: State, slot: nat): State {
    st.(paths := st.paths - {slot})
  }

  /** Everything a process held or knew is gone with it; the paths stay. */
  function WithoutProcess(st: State, pid: nat): State {
    st.(alive := st.alive - {pid},
        holders := map f | f in st.holders && st.holders[f].pid != pid :: st.holders[f],
        seen := (set x | x in st.seen && x.0 != pid),
        stale := (set x | x in st.stale && x.0 != pid))
  }

  function Next(st: State, step: Step): State
    requires Enabled(st, step)
  {
    match step
    case Spawn(pid) => st.(alive := st.alive + {pid})
    case Crash(pid) => WithoutProcess(st, pid)
    case Create(pid, slot, max) =>
      st.(paths := st.paths[slot := st.nextFile],
          holders := st.holders[st.nextFile := Holder(pid, slot, max, Opened)],
          pidLine := st.pidLine - {st.nextFile},
          nextFile := st.nextFile + 1)
    case Lock(file) => Advance(st, file, Locked)
    case LockFails(file) => st.(holders := st.holders - {file})
    case WritePid(file) => Advance(st, file, Held).(pidLine := st.pidLine[file := st.holders[file].pid])
    case WriteFails(file) => Advance(st, file, Held)
    case Drop(file) => WithoutPath(st, st.holders[file].slot).(holders := st.holders - {file})
    case Read(pid, slot) => st.(seen := st.seen + {(pid, slot, st.pidLine[st.paths[slot]])})
    case Judge(pid, slot, named) =>
      st.(seen := st.seen - {(pid, slot, named)}, stale := st.stale + if named in st.alive then {} else {(pid, slot)})
    case Reap(pid, slot) => WithoutPath(st, slot).(stale := st.stale - {(pid, slot)})
    case ForceRelease(slot) => WithoutPath(st, slot)
  }

  predicate Runs(st: State, steps: seq<Step>)
    decreases |steps|
  {
    steps == [] || (Enabled(st, steps[0]) && Runs(Next(st, steps[0]), steps[1..]))
  }

  function After(st: State, steps: seq<Step>): State
    requires Runs(st, steps)
    decreases |steps|
  {
    if steps == [] then st else After(Next(st, steps[0]), steps[1..])
  }

  lemma RunsMore(st: State, step: Step, rest: seq<Step>)
    requires Enabled(st, step) && Runs(Next(st, step), rest)
    ensures Runs(st, [step] + rest) && After(st, [step] + rest) == After(Next(st, step), rest)
  {
    assert ([step] + rest)[1..] == rest;
  }

  lemma RunsOne(st: State, step: Step)
    requires Enabled(st, step)
    ensures Runs(st, [step]) && After(st, [step]) == Next(st, step)
  {
    assert [step] == [step] + [];
    RunsMore(st, step, []);
  }

  lemma RunsThree(st: State, a: Step, b: Step, c: Step)
    requires Enabled(st, a) && Enabled(Next(st, a), b) && Enabled(Next(Next(st, a), b), c)
    ensures Runs(st, [a, b, c]) && After(st, [a, b, c]) == Next(Next(Next(st, a), b), c)
  {
    RunsOne(Next(Next(st, a), b), c);
    RunsMore(Next(st, a), b, [c]);
    RunsMore(st, a, [b] + [c]);
    assert [a, b, c] == [a] + ([b] + [c]);
  }

  lemma {:induction false} RunsConcat(st: State, a: seq<Step>, b: seq<Step>)
    requires Runs(st, a) && Runs(After(st, a), b)
    ensures Runs(st, a + b) && After(st, a + b) == After(After(st, a), b)
    decreases |a|
  {
    if a == [] {
      assert a + b == b;
    } else {
      assert (a + b)[0] == a[0] && (a + b)[1..] == a[1..] + b;
      RunsConcat(Next(st, a[0]), a[1..], b);
    }
  }

  // -------------------------------------------------------------- hypothesis

  /** The path at `slot`, if any, is not the file of a live attempt. */
  predicate Unowned(st: State, slot: nat) {
    slot in st.paths ==> st.paths[slot] !in st.holders
  }

  /** A reap finds its pid still dead; an operator does not release a live slot. */
  predicate Careful(st: State, step: Step) {
    match step
    case Reap(_, slot) => slot in st.paths ==> NamesDeadPid(st, slot)
    case ForceRelease(slot) => Unowned(st, slot)
    case _ => true
  }

  predicate AllCareful(st: State, steps: seq<Step>)
    requires Runs(st, steps)
    decreases |steps|
  {
    steps == [] || (Careful(st, steps[0]) && AllCareful(Next(st, steps[0]), steps[1..]))
  }

  // --------------------------------------------------------------- invariant

  predicate Owns(st: State, file: nat)
    requires file in st.holders
  {
    var h := st.holders[file];
    && file < st.nextFile && h.pid in st.alive && h.slot < h.max
    && h.slot in st.paths && st.paths[h.slot] == file
    && (file in st.pidLine ==> st.pidLine[file] == h.pid)
  }

  /** Every live attempt is behind the path of its slot, and its file names nobody else. */
  ghost predicate Inv(st: State) {
    && (forall f | f in st.holders :: Owns(st, f))
    && OnePathPerFile(st)
    && KnowersLive(st)
  }

  /** What was read or found is known to live processes. */
  ghost predicate KnowersLive(st: State) {
    && (forall p, slot, n :: (p, slot, n) in st.seen ==> p in st.alive)
    && (forall p, slot :: (p, slot) in st.stale ==> p in st.alive)
  }

  ghost predicate OnePathPerFile(st: State) {
    && (forall s | s in st.paths :: st.paths[s] < st.nextFile)
    && (forall s, t | s in st.paths && t in st.paths && st.paths[s] == st.paths[t] :: s == t)
  }

  /** No two attempts, and so no two guards, on one slot. */
  ghost predicate Exclusive(st: State) {
    forall f, g | f in st.holders && g in st.holders && st.holders[f].slot == st.holders[g].slot :: f == g
  }

  /** Any files a crash left behind, with any content; nobody running. */
  ghost predicate Initial(st: State) {
    st.holders == map[] && st.seen == {} && st.stale == {} && OnePathPerFile(st)
  }

  lemma RemovalKeeps(st: State, slot: nat)
    requires Inv(st) && Unowned(st, slot)
    ensures Inv(WithoutPath(st, slot))
  {
    var r := WithoutPath(st, slot);
    forall f | f in r.holders ensures Owns(r, f) {
      assert Owns(st, f);
    }
  }

  lemma DeadPidIsUnowned(st: State, slot: nat)
    requires Inv(st) && NamesDeadPid(st, slot)
    ensures Unowned(st, slot)
  {
    var file := st.paths[slot];
    assert file in st.holders ==> Owns(st, file);
  }

  lemma DropKeeps(st: State, file: nat)
    requires Inv(st) && InPhase(st, file, Held)
    ensures Inv(Next(st, Drop(file)))
  {
    var r := Next(st, Drop(file));
    forall f | f in r.holders ensures Owns(r, f) {
      assert Owns(st, f) && Owns(st, file);
    }
  }

  lemma CreateKeeps(st: State, pid: nat, slot: nat, max: nat)
    requires Inv(st) && Enabled(st, Create(pid, slot, max))
    ensures Inv(Next(st, Create(pid, slot, max)))
  {
    var r := Next(st, Create(pid, slot, max));
    forall f | f in r.holders ensures Owns(r, f) {
      if f != st.nextFile {
        assert Owns(st, f);
      }
    }
  }

  lemma KnowersKeep(st: State, step: Step)
    requires KnowersLive(st) && Enabled(st, step)
    ensures KnowersLive(Next(st, step))
  {
    var next := Next(st, step);
    forall p, slot, n | (p, slot, n) in next.seen ensures p in next.alive {
      assert (p, slot, n) in st.seen || step == Read(p, slot);
    }
    forall p, slot | (p, slot) in next.stale ensures p in next.alive {
      assert (p, slot) in st.stale || (step.Judge? && step.pid == p);
    }
  }

  lemma ReapKeeps(st: State, pid: nat, slot: nat)
    requires Inv(st) && Enabled(st, Reap(pid, slot)) && Careful(st, Reap(pid, slot))
    ensures Inv(Next(st, Reap(pid, slot)))
  {
    var next := Next(st, Reap(pid, slot));
    if slot in st.paths {
      DeadPidIsUnowned(st, slot);
    }
    RemovalKeeps(st, slot);
    KnowersKeep(st, Reap(pid, slot));
    forall f | f in next.holders ensures Owns(next, f) {
      assert Owns(WithoutPath(st, slot), f);
    }
  }

  /** The other steps leave the paths alone. */
  lemma PathsStay(st: State, step: Step)
    requires Inv(st) && Enabled(st, step) && !step.Create? && !step.Drop? && !step.Reap? && !step.ForceRelease?
    ensures Inv(Next(st, step))
  {
    hide KnowersLive;
    KnowersKeep(st, step);
    forall f | f in Next(st, step).holders ensures Owns(Next(st, step), f) {
      assert f in st.holders && Owns(st, f);
    }
  }

  lemma StepKeeps(st: State, step: Step)
    requires Inv(st) && Enabled(st, step) && Careful(st, step)
    ensures Inv(Next(st, step))
  {
    hide Inv;
    match step {
      case Create(pid, slot, max) => CreateKeeps(st, pid, slot, max);
      case Drop(file) => DropKeeps(st, file);
      case Reap(pid, slot) => ReapKeeps(st, pid, slot);
      case ForceRelease(slot) => RemovalKeeps(st, slot);
      case _ => PathsStay(st, step);
    }
  }

  lemma {:induction false} RunKeeps(st: State, steps: seq<Step>)
    requires Inv(st) && Runs(st, steps) && AllCareful(st, steps)
    ensures Inv(After(st, steps))
    decreases |steps|
  {
    if steps != [] {
      StepKeeps(st, steps[0]);
      RunKeeps(Next(st, steps[0]), steps[1..]);
    }
  }

  lemma InvIsExclusive(st: State)
    requires Inv(st)
    ensures Exclusive(st)
  {
    forall f, g | f in st.holders && g in st.holders && st.holders[f].slot == st.holders[g].slot ensures f == g {
      assert Owns(st, f) && Owns(st, g);
    }
  }

  // ---------------------------------------------------------------- theorems

  /** Every interleaving of careful steps: at most one live attempt per slot. */
  lemma OneGuardPerSlot(st: State, steps: seq<Step>)
    requires Initial(st) && Runs(st, steps) && AllCareful(st, steps)
    ensures Exclusive(After(st, steps))
  {
    RunKeeps(st, steps);
    InvIsExclusive(After(st, steps));
  }

  ghost predicate Within(st: State, bound: nat) {
    forall f | f in st.holders :: st.holders[f].max <= bound
  }

  ghost predicate AsksAtMost(steps: seq<Step>, bound: nat) {
    forall i | 0 <= i < |steps| && steps[i].Create? :: steps[i].max <= bound
  }

  lemma {:induction false} RunStaysWithin(st: State, steps: seq<Step>, bound: nat)
    requires Within(st, bound) && Runs(st, steps) && AsksAtMost(steps, bound)
    ensures Within(After(st, steps), bound)
    decreases |steps|
  {
    if steps != [] {
      assert Within(Next(st, steps[0]), bound);
      RunStaysWithin(Next(st, steps[0]), steps[1..], bound);
    }
  }

  lemma DistinctSlotsCount(holders: map<nat, Holder>, bound: nat)
    requires forall f | f in holders :: holders[f].slot < bound
    requires forall f, g | f in holders && g in holders && holders[f].slot == holders[g].slot :: f == g
    ensures |holders| <= bound
  {
    var slots := map f | f in holders :: holders[f].slot;
    assert slots.Keys == holders.Keys;
    Pigeonhole.InjectiveBelow(slots, bound);
  }

  /** So never more than the largest ceiling anyone asked for. */
  lemma AtMostMaxConcurrent(st: State, steps: seq<Step>, bound: nat)
    requires Initial(st) && Runs(st, steps) && AllCareful(st, steps) && AsksAtMost(steps, bound)
    ensures |After(st, steps).holders| <= bound
  {
    var last := After(st, steps);
    RunKeeps(st, steps);
    InvIsExclusive(last);
    RunStaysWithin(st, steps, bound);
    forall f | f in last.holders ensures last.holders[f].slot < bound {
      assert Owns(last, f);
    }
    DistinctSlotsCount(last.holders, bound);
  }

  /** Two guards on `slot`: both locks taken. */
  ghost predicate Doubled(st: State, slot: nat) {
    exists f, g | f in st.holders && g in st.holders ::
      f != g && st.holders[f].slot == slot == st.holders[g].slot
      && st.holders[f].phase != Opened && st.holders[g].phase != Opened
  }

  /** Removing the path of a live guard is what breaks it: one more process doubles the slot. */
  lemma LostPathDoubles(st: State, slot: nat) returns (steps: seq<Step>)
    requires Inv(st) && slot in st.paths && st.paths[slot] in st.holders
    requires st.holders[st.paths[slot]].phase != Opened
    ensures Runs(WithoutPath(st, slot), steps) && AllCareful(WithoutPath(st, slot), steps)
    ensures Doubled(After(WithoutPath(st, slot), steps), slot)
  {
    var r := WithoutPath(st, slot);
    var file := st.paths[slot];
    assert Owns(st, file);
    var pid := st.holders[file].pid;
    var create, lock := Create(pid, slot, slot + 1), Lock(st.nextFile);
    steps := [create, lock];
    var r1 := Next(r, create);
    var r2 := Next(r1, lock);
    RunsOne(r1, lock);
    RunsMore(r, create, [lock]);
    assert AllCareful(r1, [lock]) && AllCareful(r, [create] + [lock]) by {
      assert [lock][1..] == [] && ([create] + [lock])[1..] == [lock];
    }
    assert steps == [create] + [lock] && After(r, steps) == r2;
    assert r2.holders[file] == st.holders[file] && r2.holders[st.nextFile].phase == Locked;
    assert file in r2.holders && st.nextFile in r2.holders && file != st.nextFile;
  }

  /** The same when the owner had not locked yet: it locks too. */
  lemma LostOpenPathDoubles(st: State, slot: nat) returns (steps: seq<Step>)
    requires Inv(st) && slot in st.paths && st.paths[slot] in st.holders
    requires st.holders[st.paths[slot]].phase == Opened
    ensures Runs(WithoutPath(st, slot), steps) && AllCareful(WithoutPath(st, slot), steps)
    ensures Doubled(After(WithoutPath(st, slot), steps), slot)
  {
    var file := st.paths[slot];
    assert Owns(st, file);
    var locked := Next(st, Lock(file));
    StepKeeps(st, Lock(file));
    var rest := LostPathDoubles(locked, slot);
    steps := [Lock(file)] + rest;
    assert steps[1..] == rest;
    assert Next(WithoutPath(st, slot), Lock(file)) == WithoutPath(locked, slot);
  }

  /** The hypothesis is exact: removing the path of a slot is safe for every careful
      continuation if and only if the file behind it belongs to no live attempt. */
  lemma RemovalSafeIff(st: State, slot: nat)
    requires Inv(st)
    ensures Unowned(st, slot) <==>
            forall steps | Runs(WithoutPath(st, slot), steps) && AllCareful(WithoutPath(st, slot), steps) ::
              Exclusive(After(WithoutPath(st, slot), steps))
  {
    var r := WithoutPath(st, slot);
    if Unowned(st, slot) {
      RemovalKeeps(st, slot);
      forall steps | Runs(r, steps) && AllCareful(r, steps) ensures Exclusive(After(r, steps)) {
        RunKeeps(r, steps);
        InvIsExclusive(After(r, steps));
      }
    } else {
      var steps;
      if st.holders[st.paths[slot]].phase == Opened {
        steps := LostOpenPathDoubles(st, slot);
      } else {
        steps := LostPathDoubles(st, slot);
      }
      assert !Exclusive(After(r, steps));
    }
  }

  /** Reads the pid 7 in slot 0 and finds it dead. */
  function Finds(pid: nat): seq<Step> {
    [Read(pid, 0), Judge(pid, 0, 7)]
  }

  /** Two findings about one leftover file, the first acted upon. */
  function BothScan(): seq<Step> {
    Finds(1) + (Finds(2) + [Reap(1, 0)])
  }

  function Take(pid: nat, slot: nat, max: nat, file: nat): seq<Step> {
    [Create(pid, slot, max), Lock(file), WritePid(file)]
  }

  /** A leftover file of a dead pid, and two processes that both scan before either reaps. */
  const RACY_START := State(map[0 := 0], map[0 := 7], map[], {1, 2}, {}, {}, 1)

  const RACY_RUN := BothScan() + (Take(1, 0, 1, 1) + ([Reap(2, 0)] + Take(2, 0, 1, 2)))

  lemma FindsLeftover(st: State, pid: nat)
    requires st.paths == map[0 := 0] && st.pidLine == map[0 := 7] && 7 !in st.alive && pid in st.alive && st.seen == {}
    ensures Runs(st, Finds(pid)) && After(st, Finds(pid)) == st.(stale := st.stale + {(pid, 0)})
  {
    var read, judge := Read(pid, 0), Judge(pid, 0, 7);
    var known := Next(st, read);
    assert known.seen - {(pid, 0, 7)} == {};
    RunsOne(known, judge);
    RunsMore(st, read, [judge]);
    assert [read] + [judge] == Finds(pid);
  }

  lemma RacyScans()
    ensures Runs(RACY_START, BothScan())
    ensures After(RACY_START, BothScan()) == State(map[], map[0 := 7], map[], {1, 2}, {}, {(2, 0)}, 1)
  {
    FindsLeftover(RACY_START, 1);
    var first := After(RACY_START, Finds(1));
    FindsLeftover(first, 2);
    var second := After(first, Finds(2));
    hide Runs, After;
    assert {(1, 0), (2, 0)} - {(1, 0)} == {(2, 0)} && map[0 := 0] - {0} == map[];
    RunsOne(second, Reap(1, 0));
    RunsConcat(first, Finds(2), [Reap(1, 0)]);
    RunsConcat(RACY_START, Finds(1), Finds(2) + [Reap(1, 0)]);
  }

  /** Taking a free slot: the file is behind its path, names the holder, and the guard is held. */
  lemma TakesFreeSlot(st: State, pid: nat, slot: nat, max: nat)
    requires pid in st.alive && slot < max && slot !in st.paths
    ensures Runs(st, Take(pid, slot, max, st.nextFile))
    ensures After(st, Take(pid, slot, max, st.nextFile)) ==
            st.(paths := st.paths[slot := st.nextFile], pidLine := st.pidLine[st.nextFile := pid],
                holders := st.holders[st.nextFile := Holder(pid, slot, max, Held)], nextFile := st.nextFile + 1)
  {
    var f := st.nextFile;
    var s1 := Next(st, Create(pid, slot, max));
    var s2 := Next(s1, Lock(f));
    var s3 := Next(s2, WritePid(f));
    RunsThree(st, Create(pid, slot, max), Lock(f), WritePid(f));
    assert s3.holders == st.holders[f := Holder(pid, slot, max, Held)];
    assert s3.pidLine == st.pidLine[f := pid];
  }

  /** Dropping the guard gives the slot back: all paths, guards and processes are as before it was taken. */
  lemma TakeAndDrop(st: State, pid: nat, slot: nat, max: nat)
    requires Inv(st) && pid in st.alive && slot < max && slot !in st.paths
    ensures var steps := Take(pid, slot, max, st.nextFile) + [Drop(st.nextFile)];
            && Runs(st, steps)
            && After(st, steps) == st.(pidLine := st.pidLine[st.nextFile := pid], nextFile := st.nextFile + 1)
  {
    hide Runs, After, Take, Inv;
    var f := st.nextFile;
    TakesFreeSlot(st, pid, slot, max);
    var taken := After(st, Take(pid, slot, max, f));
    NoHolderOn(st, slot);
    RunsOne(taken, Drop(f));
    RunsConcat(st, Take(pid, slot, max, f), [Drop(f)]);
    assert taken.paths - {slot} == st.paths && taken.holders - {f} == st.holders;
  }

  /** While it is held nobody creates the file of the slot, and an operator's release opens it to anyone. */
  lemma HeldSlotIsClosed(st: State, file: nat, pid: nat, max: nat)
    requires Inv(st) && file in st.holders && pid in st.alive && st.holders[file].slot < max
    ensures var slot := st.holders[file].slot;
            && !Enabled(st, Create(pid, slot, max))
            && Enabled(Next(st, ForceRelease(slot)), Create(pid, slot, max))
  {
    assert Owns(st, file);
  }

  lemma RunsParts(st: State, a: seq<Step>, b: seq<Step>, c: seq<Step>, d: seq<Step>)
    requires Runs(st, a) && Runs(After(st, a), b) && Runs(After(After(st, a), b), c)
    requires Runs(After(After(After(st, a), b), c), d)
    ensures Runs(st, a + (b + (c + d)))
    ensures After(st, a + (b + (c + d))) == After(After(After(After(st, a), b), c), d)
  {
    hide *;
    RunsConcat(After(After(st, a), b), c, d);
    RunsConcat(After(st, a), b, c + d);
    RunsConcat(st, a, b + (c + d));
  }

  lemma RacyRunEnds()
    ensures Runs(RACY_START, RACY_RUN)
    ensures After(RACY_START, RACY_RUN).holders == map[1 := Holder(1, 0, 1, Held), 2 := Holder(2, 0, 1, Held)]
  {
    RacyScans();
    hide Runs, After;
    var first := After(RACY_START, BothScan());
    TakesFreeSlot(first, 1, 0, 1);
    var second := After(first, Take(1, 0, 1, 1));
    RunsOne(second, Reap(2, 0));
    TakesFreeSlot(Next(second, Reap(2, 0)), 2, 0, 1);
    RunsParts(RACY_START, BothScan(), Take(1, 0, 1, 1), [Reap(2, 0)], Take(2, 0, 1, 2));
  }

  /** With scan and removal apart, a ceiling of one yields two live guards. */
  lemma ScanAndReapRace()
    ensures Initial(RACY_START) && Runs(RACY_START, RACY_RUN) && AsksAtMost(RACY_RUN, 1)
    ensures Doubled(After(RACY_START, RACY_RUN), 0)
  {
    RacyRunEnds();
    hide Runs, After;
    var holders := After(RACY_START, RACY_RUN).holders;
    assert 1 in holders && 2 in holders;
  }

  // ------------------------------------------------------- files left behind

  /** The slot has a file, and no attempt is behind it. */
  ghost predicate Abandoned(st: State, slot: nat) {
    && slot in st.paths && st.paths[slot] < st.nextFile
    && (forall f | f in st.holders :: st.holders[f].slot != slot && f != st.paths[slot])
  }

  /** Somebody but `pid` is about to remove the path of `slot`, or has read another's pid there and may be. */
  ghost predicate OthersKnow(st: State, pid: Option<nat>, slot: nat) {
    || (exists p :: (p, slot) in st.stale && Some(p) != pid)
    || (exists p, n :: (p, slot, n) in st.seen && Some(p) != pid && n != p)
  }

  /** Abandoned, without a pid line, and nobody knows better: a process that read its own pid there will
      find itself alive. */
  ghost predicate Orphaned(st: State, slot: nat) {
    Abandoned(st, slot) && st.paths[slot] !in st.pidLine && !OthersKnow(st, None, slot)
  }

  lemma OrphanStays(st: State, step: Step, slot: nat)
    requires Orphaned(st, slot) && Enabled(st, step) && step != ForceRelease(slot)
    ensures Orphaned(Next(st, step), slot) && Next(st, step).paths[slot] == st.paths[slot]
  {
    var next := Next(st, step);
    forall p, n | (p, slot, n) in next.seen ensures n == p {
      assert (p, slot, n) in st.seen;
    }
    forall p ensures (p, slot) !in next.stale {
      assert (p, slot) !in st.stale;
      if step.Judge? && step.slot == slot {
        assert (step.pid, slot, step.named) in st.seen;
      }
    }
  }

  /** Every run, careful or not: a file without a pid line is never reaped, so the slot of a
      process that died before writing its pid stays taken until an operator releases it. */
  lemma {:induction false} NoPidLineIsNeverReaped(st: State, steps: seq<Step>, slot: nat)
    requires Orphaned(st, slot) && Runs(st, steps) && ForceRelease(slot) !in steps
    ensures slot in After(st, steps).paths && After(st, steps).paths[slot] == st.paths[slot]
    ensures forall f | f in After(st, steps).holders :: After(st, steps).holders[f].slot != slot
    decreases |steps|
  {
    if steps != [] {
      assert steps[0] in steps;
      OrphanStays(st, steps[0], slot);
      NoPidLineIsNeverReaped(Next(st, steps[0]), steps[1..], slot);
    }
  }

  /** Some run frees the slot without an operator. */
  ghost predicate ComesBack(st: State, slot: nat) {
    exists steps :: Runs(st, steps) && ForceRelease(slot) !in steps && slot !in After(st, steps).paths
  }

  lemma ComesBackNow(st: State, slot: nat)
    requires slot !in st.paths
    ensures ComesBack(st, slot)
  {
    assert Runs(st, []) && ForceRelease(slot) !in [];
  }

  lemma ComesBackLater(st: State, step: Step, slot: nat)
    requires Enabled(st, step) && step != ForceRelease(slot) && ComesBack(Next(st, step), slot)
    ensures ComesBack(st, slot)
  {
    var rest :| Runs(Next(st, step), rest) && ForceRelease(slot) !in rest && slot !in After(Next(st, step), rest).paths;
    RunsMore(st, step, rest);
    assert ForceRelease(slot) !in [step] + rest;
  }

  lemma FoundComesBack(st: State, slot: nat, p: nat)
    requires (p, slot) in st.stale && p in st.alive
    ensures ComesBack(st, slot)
  {
    ComesBackNow(Next(st, Reap(p, slot)), slot);
    ComesBackLater(st, Reap(p, slot), slot);
  }

  /** A reader of another's pid judges it, at the latest when that other is gone. */
  lemma ReadComesBack(st: State, slot: nat, p: nat, n: nat)
    requires (p, slot, n) in st.seen && p in st.alive && n != p
    ensures ComesBack(st, slot)
  {
    var judge := Judge(p, slot, n);
    if n in st.alive {
      var gone := Next(st, Crash(n));
      FoundComesBack(Next(gone, judge), slot, p);
      ComesBackLater(gone, judge, slot);
      ComesBackLater(st, Crash(n), slot);
    } else {
      FoundComesBack(Next(st, judge), slot, p);
      ComesBackLater(st, judge, slot);
    }
  }

  /** Pids never run out. */
  lemma {:induction false} FreshPid(pids: set<nat>) returns (q: nat)
    ensures forall p | p in pids :: p < q
  {
    q := 0;
    if p :| p in pids {
      var rest := pids - {p};
      q := FreshPid(rest);
      q := if p < q then q else p + 1;
      assert forall x | x in pids :: x == p || x in rest;
    }
  }

  lemma NamedComesBack(st: State, slot: nat)
    requires slot in st.paths && st.paths[slot] in st.pidLine
    ensures ComesBack(st, slot)
  {
    var n := st.pidLine[st.paths[slot]];
    var q := FreshPid(st.alive + {n});
    var born := Next(st, Spawn(q));
    ReadComesBack(Next(born, Read(q, slot)), slot, q, n);
    ComesBackLater(born, Read(q, slot), slot);
    ComesBackLater(st, Spawn(q), slot);
  }

  /** The exact condition: an abandoned slot comes back by itself in some run if and only if its file has
      a pid line, or somebody found or read the file of an earlier attempt there. */
  lemma ComesBackIff(st: State, slot: nat)
    requires Abandoned(st, slot) && KnowersLive(st)
    ensures ComesBack(st, slot) <==> st.paths[slot] in st.pidLine || OthersKnow(st, None, slot)
  {
    hide Runs, After;
    if Orphaned(st, slot) {
      forall steps | Runs(st, steps) && ForceRelease(slot) !in steps ensures slot in After(st, steps).paths {
        NoPidLineIsNeverReaped(st, steps, slot);
      }
    } else if st.paths[slot] in st.pidLine {
      NamedComesBack(st, slot);
    } else if p :| (p, slot) in st.stale {
      FoundComesBack(st, slot, p);
    } else {
      var p, n :| (p, slot, n) in st.seen && n != p;
      ReadComesBack(st, slot, p, n);
    }
  }

  function DiesBeforePid(file: nat, pid: nat, slot: nat, max: nat, locks: bool): seq<Step> {
    [Create(pid, slot, max)] + (if locks then [Lock(file)] else []) + [Crash(pid)]
  }

  lemma NoHolderOn(st: State, slot: nat)
    requires Inv(st) && slot !in st.paths
    ensures forall f | f in st.holders :: st.holders[f].slot != slot && f < st.nextFile
  {
    forall f | f in st.holders ensures st.holders[f].slot != slot && f < st.nextFile {
      assert Owns(st, f);
    }
  }

  /** What a process leaves that dies between creating its file and writing its pid, locked or not. */
  lemma DeathBeforePidLeaves(st: State, pid: nat, slot: nat, max: nat, locks: bool)
    requires Inv(st) && Enabled(st, Create(pid, slot, max))
    ensures var steps := DiesBeforePid(st.nextFile, pid, slot, max, locks);
            && Runs(st, steps)
            && var left := After(st, steps);
               && Abandoned(left, slot) && left.paths[slot] !in left.pidLine && KnowersLive(left)
               && left.seen == (set x | x in st.seen && x.0 != pid) && left.stale == (set x | x in st.stale && x.0 != pid)
  {
    var create, lock, crash := Create(pid, slot, max), Lock(st.nextFile), Crash(pid);
    var created := Next(st, create);
    NoHolderOn(st, slot);
    if locks {
      RunsThree(st, create, lock, crash);
      assert [create] + [lock] + [crash] == [create, lock, crash];
    } else {
      RunsOne(created, crash);
      RunsMore(st, create, [crash]);
      assert [create] + [] + [crash] == [create] + [crash];
    }
  }

  lemma KnownWithout(st: State, left: State, pid: nat, slot: nat)
    requires left.seen == (set x | x in st.seen && x.0 != pid) && left.stale == (set x | x in st.stale && x.0 != pid)
    ensures OthersKnow(left, None, slot) <==> OthersKnow(st, Some(pid), slot)
  {
    assert forall p, n :: (p, slot, n) in left.seen <==> (p, slot, n) in st.seen && p != pid;
    assert forall p :: (p, slot) in left.stale <==> (p, slot) in st.stale && p != pid;
  }

  /** So that slot comes back by itself, in any run at all, only if another process was already about to
      remove an earlier file there; otherwise it is lost until an operator releases it. */
  lemma CrashBeforePidLeaksIff(st: State, pid: nat, slot: nat, max: nat, locks: bool)
    requires Inv(st) && Enabled(st, Create(pid, slot, max))
    ensures var steps := DiesBeforePid(st.nextFile, pid, slot, max, locks);
            && Runs(st, steps)
            && (Orphaned(After(st, steps), slot) <==> !OthersKnow(st, Some(pid), slot))
            && (ComesBack(After(st, steps), slot) <==> OthersKnow(st, Some(pid), slot))
  {
    hide Runs, After, ComesBack, Abandoned, OthersKnow, DiesBeforePid;
    DeathBeforePidLeaves(st, pid, slot, max, locks);
    var left := After(st, DiesBeforePid(st.nextFile, pid, slot, max, locks));
    ComesBackIff(left, slot);
    KnownWithout(st, left, pid, slot);
  }
}
