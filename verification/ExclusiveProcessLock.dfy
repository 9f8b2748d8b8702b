/**
 The cross-process lock with dead-owner recovery, as a machine over the file at the lock path,
 the live processes, the boot and the clock. Every await point of the protocol is a step, so
 any interleaving of processes, deaths, reboots and reused process ids is a run.

 Two assumptions keep it exclusive, and each is shown to be needed: a creator writes its
 identity within the grace period, and the last comparison of a stale lock and its unlink are
 one step.
 */
module ExclusiveProcessLock {
  import opened Outcomes

  const INITIALIZATION_GRACE_MS: nat := 5000

  /** Start ticks count from boot and never repeat within one. */
  datatype Identity = Identity(boot: nat, pid: nat, start: nat)

  /**
   The file at the lock path. The stamp stands for the compared metadata: a new one is given
   at creation and at every write. Without an owner the contents are incomplete.
   */
  datatype LockFile = LockFile(inode: nat, stamp: nat, owner: Option<Identity>, changedAt: nat)

  datatype Stage =
    | Idle
    | Created(inode: nat, at: nat)
    | Written(inode: nat)
    | Holding(stamp: nat)
    | Releasing
    | Observed(stamp: nat, owner: Option<Identity>)
    | Doomed(stamp: nat)
    | Checked

  datatype Process = Process(start: nat, stage: Stage)

  datatype World = World(
    path: Option<LockFile>,
    processes: map<nat, Process>,
    boot: nat,
    nextStart: nat,
    nextStamp: nat,
    clock: nat)

  datatype Step =
    | Spawn(pid: nat)
    | Die(pid: nat)
    | Reboot
    | Tick(ms: nat)
    | Create(pid: nat)
    | Write(pid: nat)
    | Confirm(pid: nat)
    | Abandon(pid: nat)
    | Observe(pid: nat)
    | Judge(pid: nat)
    | RemoveStale(pid: nat)
    | CheckStale(pid: nat)
    | UnlinkStale(pid: nat)
    | CheckRelease(pid: nat)
    | UnlinkOwn(pid: nat)

  /** Which assumptions a run is made under. */
  datatype Assumptions = Assumptions(promptWrites: bool, atomicRemoval: bool)

  function IdentityOf(w: World, pid: nat): Identity
    requires pid in w.processes
  {
    Identity(w.boot, pid, w.processes[pid].start)
  }

  predicate IsAlive(w: World, id: Identity) {
    id.boot == w.boot && id.pid in w.processes && w.processes[id.pid].start == id.start
  }

  predicate Stale(w: World, file: LockFile) {
    match file.owner
    case Some(owner) => !IsAlive(w, owner)
    case None => w.clock - file.changedAt >= INITIALIZATION_GRACE_MS
  }

  predicate HasStamp(w: World, stamp: nat) {
    w.path.Some? && w.path.value.stamp == stamp
  }

  predicate WritesInTime(w: World, clock: nat, pid: nat)
    requires pid in w.processes
  {
    w.processes[pid].stage.Created? ==> clock - w.processes[pid].stage.at < INITIALIZATION_GRACE_MS
  }

  ghost predicate Enabled(w: World, step: Step, a: Assumptions) {
    match step
    case Spawn(pid) => pid !in w.processes
    case Die(pid) => pid in w.processes
    case Reboot => true
    case Tick(ms) =>
      a.promptWrites ==> forall pid :: pid in w.processes ==> WritesInTime(w, w.clock + ms, pid)
    case Create(pid) => pid in w.processes && w.processes[pid].stage.Idle? && w.path.None?
    case Write(pid) => pid in w.processes && w.processes[pid].stage.Created?
    case Confirm(pid) => pid in w.processes && w.processes[pid].stage.Written?
    case Abandon(pid) =>
      pid in w.processes && (w.processes[pid].stage.Created? || w.processes[pid].stage.Written?)
    case Observe(pid) => pid in w.processes && w.processes[pid].stage.Idle? && w.path.Some?
    case Judge(pid) => pid in w.processes && w.processes[pid].stage.Observed?
    case RemoveStale(pid) => pid in w.processes && w.processes[pid].stage.Doomed?
    case CheckStale(pid) => !a.atomicRemoval && pid in w.processes && w.processes[pid].stage.Doomed?
    case UnlinkStale(pid) => !a.atomicRemoval && pid in w.processes && w.processes[pid].stage.Checked?
    case CheckRelease(pid) => pid in w.processes && w.processes[pid].stage.Holding?
    case UnlinkOwn(pid) => pid in w.processes && w.processes[pid].stage.Releasing?
  }

  function Enter(w: World, pid: nat, stage: Stage): World {
    if pid in w.processes then w.(processes := w.processes[pid := w.processes[pid].(stage := stage)]) else w
  }

  function StageOf(w: World, pid: nat): Stage {
    if pid in w.processes then w.processes[pid].stage else Idle
  }

  function Apply(w: World, step: Step): World {
    match step
    case Spawn(pid) =>
      w.(processes := w.processes[pid := Process(w.nextStart, Idle)], nextStart := w.nextStart + 1)
    case Die(pid) => w.(processes := w.processes - {pid})
    case Reboot => w.(processes := map[], boot := w.boot + 1, nextStart := 0)
    case Tick(ms) => w.(clock := w.clock + ms)
    case Create(pid) =>
      Enter(w, pid, Created(w.nextStamp, w.clock)).(
        path := Some(LockFile(w.nextStamp, w.nextStamp, None, w.clock)), nextStamp := w.nextStamp + 1)
    case Write(pid) =>
      // The handle writes to its own file, which may no longer be the one at the path.
      var stage := StageOf(w, pid);
      if !stage.Created? then w
      else
        var next := Enter(w, pid, Written(stage.inode));
        if w.path.Some? && w.path.value.inode == stage.inode && pid in w.processes then
          next.(path := Some(LockFile(stage.inode, w.nextStamp, Some(IdentityOf(w, pid)), w.clock)),
                nextStamp := w.nextStamp + 1)
        else next
    case Confirm(pid) =>
      // A file that lost its link is refused, and the failed creator unlinks the path.
      var stage := StageOf(w, pid);
      if !stage.Written? then w
      else if w.path.Some? && w.path.value.inode == stage.inode then Enter(w, pid, Holding(w.path.value.stamp))
      else Enter(w, pid, Idle).(path := None)
    case Abandon(pid) => Enter(w, pid, Idle).(path := None)
    case Observe(pid) =>
      if w.path.None? then w else Enter(w, pid, Observed(w.path.value.stamp, w.path.value.owner))
    case Judge(pid) =>
      var stage := StageOf(w, pid);
      if !stage.Observed? then w
      else
        var stale :=
          match stage.owner
          case Some(owner) => !IsAlive(w, owner)
          case None => HasStamp(w, stage.stamp) && w.clock - w.path.value.changedAt >= INITIALIZATION_GRACE_MS;
        Enter(w, pid, if stale then Doomed(stage.stamp) else Idle)
    case RemoveStale(pid) =>
      var stage := StageOf(w, pid);
      if !stage.Doomed? then w
      else if HasStamp(w, stage.stamp) then Enter(w, pid, Idle).(path := None)
      else Enter(w, pid, Idle)
    case CheckStale(pid) =>
      var stage := StageOf(w, pid);
      if !stage.Doomed? then w
      else Enter(w, pid, if HasStamp(w, stage.stamp) then Checked else Idle)
    case UnlinkStale(pid) => Enter(w, pid, Idle).(path := None)
    case CheckRelease(pid) =>
      var stage := StageOf(w, pid);
      if !stage.Holding? then w
      else Enter(w, pid, if HasStamp(w, stage.stamp) then Releasing else Idle)
    case UnlinkOwn(pid) => Enter(w, pid, Idle).(path := None)
  }

  // ---------------------------------------------------------------- the invariant

  /** The process is between its exclusive create and its unlink. */
  predicate Inside(w: World, pid: nat) {
    var stage := StageOf(w, pid);
    stage.Created? || stage.Written? || stage.Holding? || stage.Releasing?
  }

  predicate Issued(w: World, id: Identity) {
    id.boot < w.boot || (id.boot == w.boot && id.start < w.nextStart)
  }

  predicate OwnerIssued(w: World, owner: Option<Identity>) {
    owner.Some? ==> Issued(w, owner.value)
  }

  /** What each stage relies on. */
  predicate StageHolds(w: World, pid: nat)
    requires pid in w.processes
  {
    match w.processes[pid].stage
    case Idle => true
    case Created(inode, at) =>
      && w.path.Some? && w.path.value.inode == inode && w.path.value.owner.None?
      && w.path.value.changedAt == at && w.clock - at < INITIALIZATION_GRACE_MS
    case Written(inode) =>
      w.path.Some? && w.path.value.inode == inode && w.path.value.owner == Some(IdentityOf(w, pid))
    case Holding(stamp) => HasStamp(w, stamp) && w.path.value.owner == Some(IdentityOf(w, pid))
    case Releasing => w.path.Some? && w.path.value.owner == Some(IdentityOf(w, pid))
    case Observed(stamp, owner) =>
      && stamp < w.nextStamp && OwnerIssued(w, owner)
      && (HasStamp(w, stamp) ==> w.path.value.owner == owner)
    case Doomed(stamp) => stamp < w.nextStamp && (HasStamp(w, stamp) ==> Stale(w, w.path.value))
    case Checked => false
  }

  predicate PathHolds(w: World) {
    w.path.Some? ==> w.path.value.stamp < w.nextStamp && OwnerIssued(w, w.path.value.owner)
  }

  ghost predicate OneInside(w: World) {
    forall p, q :: Inside(w, p) && Inside(w, q) ==> p == q
  }

  ghost predicate Invariant(w: World) {
    && PathHolds(w)
    && OneInside(w)
    && forall pid :: pid in w.processes ==> w.processes[pid].start < w.nextStart && StageHolds(w, pid)
  }

  /** At most one process is between acquire and release. */
  ghost predicate Exclusive(w: World) {
    forall p, q :: StageOf(w, p).Holding? && StageOf(w, q).Holding? ==> p == q
  }

  const SOUND: Assumptions := Assumptions(true, true)

  /** Nobody is inside a stale lock, and nobody is inside without a file. */
  lemma StaleMeansAbandoned(w: World, pid: nat)
    requires Invariant(w) && (w.path.None? || Stale(w, w.path.value))
    ensures !Inside(w, pid)
  {
    if pid in w.processes {
      assert StageHolds(w, pid);
    }
  }

  /** A file once stale stays stale while its stamp stays: dead identities never return. */
  lemma StaysStale(w: World, step: Step, stamp: nat)
    requires Invariant(w) && Enabled(w, step, SOUND) && stamp < w.nextStamp
    requires HasStamp(w, stamp) ==> Stale(w, w.path.value)
    ensures HasStamp(Apply(w, step), stamp) ==> Stale(Apply(w, step), Apply(w, step).path.value)
  {
  }

  lemma StepKeepsPath(w: World, step: Step)
    requires Invariant(w) && Enabled(w, step, SOUND)
    ensures PathHolds(Apply(w, step))
  {
  }

  /** Everyone inside after a step was inside before, or has just created the file. */
  lemma StepKeepsOneInside(w: World, step: Step)
    requires Invariant(w) && Enabled(w, step, SOUND)
    ensures OneInside(Apply(w, step))
  {
    var v := Apply(w, step);
    forall p, q | Inside(v, p) && Inside(v, q) ensures p == q {
      if step.Create? {
        StaleMeansAbandoned(w, p);
        StaleMeansAbandoned(w, q);
      } else {
        assert Inside(w, p) && Inside(w, q);
      }
    }
  }

  /** These steps leave the path alone. */
  predicate KeepsPath(step: Step) {
    step.Spawn? || step.Die? || step.Reboot? || step.Tick? || step.Observe? || step.Judge? || step.CheckRelease?
  }

  lemma QuietStepsKeepStages(w: World, step: Step, pid: nat)
    requires Invariant(w) && Enabled(w, step, SOUND) && KeepsPath(step)
    requires pid in w.processes && pid in Apply(w, step).processes
    requires !step.Reboot? && !step.Tick? ==> step.pid != pid
    ensures StageHolds(Apply(w, step), pid)
  {
    assert StageHolds(w, pid);
    if step.Tick? {
      assert WritesInTime(w, w.clock + step.ms, pid);
    }
  }

  /** The path changes only under a process inside, from an empty path, or from a stale file. */
  lemma PathStepsKeepStages(w: World, step: Step, pid: nat)
    requires Invariant(w) && Enabled(w, step, SOUND) && !KeepsPath(step)
    requires pid in w.processes && step.pid != pid
    ensures StageHolds(Apply(w, step), pid)
  {
    assert StageHolds(w, pid) && StageHolds(w, step.pid);
    if step.Create? {
      StaleMeansAbandoned(w, pid);
    } else if step.RemoveStale? {
      if HasStamp(w, w.processes[step.pid].stage.stamp) { StaleMeansAbandoned(w, pid); }
    } else {
      assert Inside(w, step.pid) && !Inside(w, pid);
    }
  }

  lemma OthersKeepTheirStage(w: World, step: Step, pid: nat)
    requires Invariant(w) && Enabled(w, step, SOUND)
    requires pid in w.processes && pid in Apply(w, step).processes
    requires !step.Reboot? && !step.Tick? ==> step.pid != pid
    ensures StageHolds(Apply(w, step), pid)
  {
    if KeepsPath(step) {
      QuietStepsKeepStages(w, step, pid);
    } else {
      PathStepsKeepStages(w, step, pid);
    }
  }

  lemma ActorKeepsItsStage(w: World, step: Step)
    requires Invariant(w) && Enabled(w, step, SOUND) && !step.Reboot? && !step.Tick?
    requires step.pid in Apply(w, step).processes
    ensures StageHolds(Apply(w, step), step.pid)
  {
    if step.pid in w.processes {
      assert StageHolds(w, step.pid);
    }
  }

  lemma StepKeepsInvariant(w: World, step: Step)
    requires Invariant(w) && Enabled(w, step, SOUND)
    ensures Invariant(Apply(w, step))
  {
    StepKeepsPath(w, step);
    StepKeepsOneInside(w, step);
    var v := Apply(w, step);
    forall pid | pid in v.processes ensures v.processes[pid].start < v.nextStart && StageHolds(v, pid) {
      if !step.Reboot? && !step.Tick? && step.pid == pid {
        ActorKeepsItsStage(w, step);
      } else {
        OthersKeepTheirStage(w, step, pid);
      }
    }
  }

  lemma InvariantIsExclusive(w: World)
    requires Invariant(w)
    ensures Exclusive(w)
  {
    forall p, q | StageOf(w, p).Holding? && StageOf(w, q).Holding? ensures p == q {
      assert Inside(w, p) && Inside(w, q);
    }
  }

  // ---------------------------------------------------------------- runs

  const START: World := World(None, map[], 0, 0, 0, 0)

  ghost predicate StepAt(worlds: seq<World>, steps: seq<Step>, a: Assumptions, i: nat)
    requires |worlds| == |steps| + 1 && i < |steps|
  {
    Enabled(worlds[i], steps[i], a) && worlds[i + 1] == Apply(worlds[i], steps[i])
  }

  ghost predicate IsRun(worlds: seq<World>, steps: seq<Step>, a: Assumptions) {
    && |worlds| == |steps| + 1 && worlds[0] == START
    && forall i :: 0 <= i < |steps| ==> StepAt(worlds, steps, a, i)
  }

  /** Mutual exclusion in every state of every run under both assumptions. */
  lemma {:induction false} RunIsExclusive(worlds: seq<World>, steps: seq<Step>, k: nat)
    requires IsRun(worlds, steps, SOUND) && k < |worlds|
    ensures Invariant(worlds[k]) && Exclusive(worlds[k])
  {
    if k > 0 {
      RunIsExclusive(worlds, steps, k - 1);
      assert StepAt(worlds, steps, SOUND, k - 1);
      StepKeepsInvariant(worlds[k - 1], steps[k - 1]);
    }
    InvariantIsExclusive(worlds[k]);
  }

  /** A holder keeps the lock file its own until it releases or dies. */
  lemma HolderKeepsItsFile(worlds: seq<World>, steps: seq<Step>, i: nat, pid: nat)
    requires IsRun(worlds, steps, SOUND) && i < |steps|
    requires StageOf(worlds[i], pid).Holding?
    requires steps[i] != CheckRelease(pid) && steps[i] != Die(pid) && steps[i] != Reboot
    ensures StageOf(worlds[i + 1], pid) == StageOf(worlds[i], pid) && worlds[i + 1].path == worlds[i].path
  {
    RunIsExclusive(worlds, steps, i);
    assert StepAt(worlds, steps, SOUND, i);
    var w, step := worlds[i], steps[i];
    assert StageHolds(w, pid) && Inside(w, pid);
    if step.RemoveStale? {
      assert StageHolds(w, step.pid);
      if HasStamp(w, w.processes[step.pid].stage.stamp) {
        StaleMeansAbandoned(w, pid);
      }
    }
    if step.Write? || step.Confirm? || step.Abandon? || step.UnlinkOwn? {
      assert Inside(w, step.pid);
    }
  }

  // ---------------------------------------------------------------- recovery and progress

  /** The file names a process that runs, in this boot and since the same start. */
  predicate NamesLiveProcess(w: World, file: LockFile) {
    exists pid :: pid in w.processes && file.owner == Some(Identity(w.boot, pid, w.processes[pid].start))
  }

  /** A complete file of no live process, or one that was left incomplete for five seconds. */
  predicate Orphaned(w: World, file: LockFile) {
    if file.owner.Some? then !NamesLiveProcess(w, file) else w.clock >= file.changedAt + 5000
  }

  lemma StaleIsOrphaned(w: World, file: LockFile)
    ensures Stale(w, file) <==> Orphaned(w, file)
  {
    if file.owner.Some? && IsAlive(w, file.owner.value) {
      assert file.owner == Some(Identity(w.boot, file.owner.value.pid, w.processes[file.owner.value.pid].start));
    }
  }

  /** Each step is enabled where the ones before it lead. */
  ghost predicate CanTake(w: World, steps: seq<Step>)
    decreases |steps|
  {
    steps != [] ==> Enabled(w, steps[0], SOUND) && CanTake(Apply(w, steps[0]), steps[1..])
  }

  function AfterAll(w: World, steps: seq<Step>): World
    decreases |steps|
  {
    if steps == [] then w else AfterAll(Apply(w, steps[0]), steps[1..])
  }

  lemma {:induction false} TakeMore(w: World, some: seq<Step>, more: seq<Step>)
    requires CanTake(w, some) && CanTake(AfterAll(w, some), more)
    ensures CanTake(w, some + more) && AfterAll(w, some + more) == AfterAll(AfterAll(w, some), more)
    decreases |some|
  {
    if some == [] {
      assert some + more == more;
    } else {
      TakeMore(Apply(w, some[0]), some[1..], more);
      assert (some + more)[0] == some[0] && (some + more)[1..] == some[1..] + more;
    }
  }

  function Recovery(pid: nat): seq<Step> {
    [Observe(pid), Judge(pid), RemoveStale(pid)]
  }

  function Acquisition(pid: nat): seq<Step> {
    [Create(pid), Write(pid), Confirm(pid)]
  }

  function Release(pid: nat): seq<Step> {
    [CheckRelease(pid), UnlinkOwn(pid)]
  }

  /**
   One attempt at recovery by a process that nobody disturbs removes exactly an orphaned file. It
   moves nothing else, and the process is free to create its own.
   */
  lemma RecoveryRemovesExactlyOrphans(w: World, pid: nat)
    requires pid in w.processes && w.processes[pid].stage.Idle? && w.path.Some?
    ensures Orphaned(w, w.path.value) ==>
      CanTake(w, Recovery(pid)) && AfterAll(w, Recovery(pid)) == w.(path := None)
    ensures !Orphaned(w, w.path.value) ==>
      CanTake(w, Recovery(pid)[..2]) && AfterAll(w, Recovery(pid)[..2]) == w
  {
    var file := w.path.value;
    StaleIsOrphaned(w, file);
    var seen := Apply(w, Observe(pid));
    assert seen == Enter(w, pid, Observed(file.stamp, file.owner));
    var judged := Apply(seen, Judge(pid));
    assert judged == Enter(w, pid, if Stale(w, file) then Doomed(file.stamp) else Idle);
    assert Recovery(pid)[1..] == [Judge(pid), RemoveStale(pid)];
    assert Recovery(pid)[..2] == [Observe(pid), Judge(pid)];
    assert CanTake(judged, []) && AfterAll(judged, []) == judged;
    assert [Judge(pid)][1..] == [];
    assert CanTake(seen, [Judge(pid)]) && AfterAll(seen, [Judge(pid)]) == judged;
    if Stale(w, file) {
      var freed := Apply(judged, RemoveStale(pid));
      assert freed == w.(path := None);
      assert CanTake(freed, []) && AfterAll(freed, []) == freed;
      assert CanTake(judged, [RemoveStale(pid)]) && AfterAll(judged, [RemoveStale(pid)]) == freed;
      assert CanTake(seen, [Judge(pid), RemoveStale(pid)]);
    }
  }

  /** With nothing at the path an undisturbed process becomes the holder of a file that names it. */
  lemma AcquisitionHolds(w: World, pid: nat)
    requires Invariant(w) && pid in w.processes && w.processes[pid].stage.Idle? && w.path.None?
    ensures CanTake(w, Acquisition(pid))
    ensures var v := AfterAll(w, Acquisition(pid));
      && Invariant(v) && StageOf(v, pid).Holding?
      && v.path.Some? && v.path.value.owner == Some(Identity(w.boot, pid, w.processes[pid].start))
      && v.boot == w.boot && v.processes.Keys == w.processes.Keys
      && forall other :: other != pid ==> StageOf(v, other) == StageOf(w, other)
  {
    var created := Apply(w, Create(pid));
    StepKeepsInvariant(w, Create(pid));
    var written := Apply(created, Write(pid));
    StepKeepsInvariant(created, Write(pid));
    var held := Apply(written, Confirm(pid));
    StepKeepsInvariant(written, Confirm(pid));
    assert CanTake(held, []) && AfterAll(held, []) == held;
    assert CanTake(written, [Confirm(pid)]) && AfterAll(written, [Confirm(pid)]) == held;
    assert CanTake(created, [Write(pid), Confirm(pid)]) && AfterAll(created, [Write(pid), Confirm(pid)]) == held;
    assert Acquisition(pid)[1..] == [Write(pid), Confirm(pid)];
  }

  /** A holder's release leaves nothing at the path. */
  lemma ReleaseFreesThePath(w: World, pid: nat)
    requires Invariant(w) && StageOf(w, pid).Holding?
    ensures CanTake(w, Release(pid))
    ensures AfterAll(w, Release(pid)) == Enter(w, pid, Idle).(path := None)
  {
    assert StageHolds(w, pid);
    var releasing := Apply(w, CheckRelease(pid));
    var freed := Apply(releasing, UnlinkOwn(pid));
    assert CanTake(freed, []) && AfterAll(freed, []) == freed;
    assert CanTake(releasing, [UnlinkOwn(pid)]) && AfterAll(releasing, [UnlinkOwn(pid)]) == freed;
    assert Release(pid)[1..] == [UnlinkOwn(pid)];
  }

  /**
   Dead owners never block the lock: in every world whose path is empty or holds an orphaned file,
   a process that nobody disturbs gets the lock.
   */
  lemma DeadOwnersAreReplaced(w: World, pid: nat) returns (steps: seq<Step>)
    requires Invariant(w) && pid in w.processes && w.processes[pid].stage.Idle?
    requires w.path.Some? ==> Orphaned(w, w.path.value)
    ensures CanTake(w, steps) && StageOf(AfterAll(w, steps), pid).Holding?
  {
    steps := [];
    if w.path.Some? {
      steps := Recovery(pid);
      RecoveryRemovesExactlyOrphans(w, pid);
      StaleIsOrphaned(w, w.path.value);
      assert Invariant(w.(path := None)) by {
        forall other | other in w.processes ensures StageHolds(w.(path := None), other) {
          assert StageHolds(w, other);
          StaleMeansAbandoned(w, other);
        }
      }
    }
    var free := AfterAll(w, steps);
    assert Invariant(free);
    AcquisitionHolds(free, pid);
    TakeMore(w, steps, Acquisition(pid));
    steps := steps + Acquisition(pid);
  }

  /** A reboot or the death of its owner orphans a complete file. */
  lemma DeathOrphans(w: World, pid: nat)
    requires Invariant(w) && StageOf(w, pid).Holding?
    ensures Orphaned(Apply(w, Reboot), w.path.value) && Apply(w, Reboot).path == w.path
    ensures Orphaned(Apply(w, Die(pid)), w.path.value) && Apply(w, Die(pid)).path == w.path
  {
    assert StageHolds(w, pid);
  }

  // ---------------------------------------------------------------- both assumptions are needed

  /** Extends a run by one step whose result is written out. */
  lemma Walk(worlds: seq<World>, steps: seq<Step>, step: Step, next: World, a: Assumptions)
    returns (longer: seq<World>, more: seq<Step>)
    requires IsRun(worlds, steps, a) && Enabled(worlds[|steps|], step, a) && Apply(worlds[|steps|], step) == next
    ensures IsRun(longer, more, a) && longer[|more|] == next
  {
    longer, more := worlds + [next], steps + [step];
    forall i | 0 <= i < |more| ensures StepAt(longer, more, a, i) {
      if i < |steps| {
        assert StepAt(worlds, steps, a, i);
      }
    }
  }

  const ONE := Identity(0, 1, 0)

  /** Processes 2 and 3 have both judged the lock of the dead process 1. */
  function BothJudged(): World {
    World(Some(LockFile(0, 1, Some(ONE), 0)), map[2 := Process(1, Doomed(1)), 3 := Process(2, Doomed(1))], 0, 3, 2, 0)
  }

  lemma ReachBothJudged(a: Assumptions) returns (worlds: seq<World>, steps: seq<Step>)
    ensures IsRun(worlds, steps, a) && worlds[|steps|] == BothJudged()
  {
    var written := Some(LockFile(0, 1, Some(ONE), 0));
    var seen := Observed(1, Some(ONE));
    worlds, steps := [START], [];
    worlds, steps := Walk(worlds, steps, Spawn(1), World(None, map[1 := Process(0, Idle)], 0, 1, 0, 0), a);
    worlds, steps := Walk(worlds, steps, Create(1),
      World(Some(LockFile(0, 0, None, 0)), map[1 := Process(0, Created(0, 0))], 0, 1, 1, 0), a);
    worlds, steps := Walk(worlds, steps, Write(1), World(written, map[1 := Process(0, Written(0))], 0, 1, 2, 0), a);
    worlds, steps := Walk(worlds, steps, Die(1), World(written, map[], 0, 1, 2, 0), a);
    worlds, steps := Walk(worlds, steps, Spawn(2), World(written, map[2 := Process(1, Idle)], 0, 2, 2, 0), a);
    worlds, steps := Walk(worlds, steps, Spawn(3),
      World(written, map[2 := Process(1, Idle), 3 := Process(2, Idle)], 0, 3, 2, 0), a);
    worlds, steps := Walk(worlds, steps, Observe(2),
      World(written, map[2 := Process(1, seen), 3 := Process(2, Idle)], 0, 3, 2, 0), a);
    worlds, steps := Walk(worlds, steps, Observe(3),
      World(written, map[2 := Process(1, seen), 3 := Process(2, seen)], 0, 3, 2, 0), a);
    worlds, steps := Walk(worlds, steps, Judge(2),
      World(written, map[2 := Process(1, Doomed(1)), 3 := Process(2, seen)], 0, 3, 2, 0), a);
    worlds, steps := Walk(worlds, steps, Judge(3), BothJudged(), a);
  }

  /**
   Without the atomic removal two recoverers of one stale lock end as two holders: both compare
   before either unlinks, and the second unlinks the new lock of the first.
   */
  lemma SplitRemovalBreaksExclusion() returns (worlds: seq<World>, steps: seq<Step>)
    ensures IsRun(worlds, steps, Assumptions(true, false)) && !Exclusive(worlds[|steps|])
  {
    var a := Assumptions(true, false);
    worlds, steps := ReachBothJudged(a);
    var stale := Some(LockFile(0, 1, Some(ONE), 0));
    var third := Process(2, Checked);
    worlds, steps := Walk(worlds, steps, CheckStale(2),
      World(stale, map[2 := Process(1, Checked), 3 := Process(2, Doomed(1))], 0, 3, 2, 0), a);
    worlds, steps := Walk(worlds, steps, CheckStale(3),
      World(stale, map[2 := Process(1, Checked), 3 := third], 0, 3, 2, 0), a);
    worlds, steps := Walk(worlds, steps, UnlinkStale(2),
      World(None, map[2 := Process(1, Idle), 3 := third], 0, 3, 2, 0), a);
    worlds, steps := Walk(worlds, steps, Create(2),
      World(Some(LockFile(2, 2, None, 0)), map[2 := Process(1, Created(2, 0)), 3 := third], 0, 3, 3, 0), a);
    var second := Some(LockFile(2, 3, Some(Identity(0, 2, 1)), 0));
    worlds, steps := Walk(worlds, steps, Write(2),
      World(second, map[2 := Process(1, Written(2)), 3 := third], 0, 3, 4, 0), a);
    worlds, steps := Walk(worlds, steps, Confirm(2),
      World(second, map[2 := Process(1, Holding(3)), 3 := third], 0, 3, 4, 0), a);
    worlds, steps := FollowThird(worlds, steps, a);
  }

  /** With process 2 holding and process 3 about to unlink or create, process 3 becomes a holder too. */
  lemma FollowThird(before: seq<World>, did: seq<Step>, a: Assumptions) returns (worlds: seq<World>, steps: seq<Step>)
    requires IsRun(before, did, a) && !a.atomicRemoval
    requires before[|did|] == World(Some(LockFile(2, 3, Some(Identity(0, 2, 1)), 0)),
                                    map[2 := Process(1, Holding(3)), 3 := Process(2, Checked)], 0, 3, 4, 0)
    ensures IsRun(worlds, steps, a) && !Exclusive(worlds[|steps|])
  {
    var second := Process(1, Holding(3));
    worlds, steps := Walk(before, did, UnlinkStale(3),
      World(None, map[2 := second, 3 := Process(2, Idle)], 0, 3, 4, 0), a);
    worlds, steps := Walk(worlds, steps, Create(3),
      World(Some(LockFile(4, 4, None, 0)), map[2 := second, 3 := Process(2, Created(4, 0))], 0, 3, 5, 0), a);
    var file := Some(LockFile(4, 5, Some(Identity(0, 3, 2)), 0));
    worlds, steps := Walk(worlds, steps, Write(3),
      World(file, map[2 := second, 3 := Process(2, Written(4))], 0, 3, 6, 0), a);
    worlds, steps := Walk(worlds, steps, Confirm(3),
      World(file, map[2 := second, 3 := Process(2, Holding(5))], 0, 3, 6, 0), a);
    assert StageOf(worlds[|steps|], 2).Holding? && StageOf(worlds[|steps|], 3).Holding?;
  }

  /**
   Without prompt writes a creator that stalls past the grace period finds its file unlinked,
   unlinks the path in its turn, and so removes the lock of its successor.
   */
  lemma SlowCreatorBreaksExclusion() returns (worlds: seq<World>, steps: seq<Step>)
    ensures IsRun(worlds, steps, Assumptions(false, true)) && !Exclusive(worlds[|steps|])
  {
    var a := Assumptions(false, true);
    var empty := Some(LockFile(0, 0, None, 0));
    var stalled := Process(0, Created(0, 0));
    worlds, steps := [START], [];
    worlds, steps := Walk(worlds, steps, Spawn(1), World(None, map[1 := Process(0, Idle)], 0, 1, 0, 0), a);
    worlds, steps := Walk(worlds, steps, Create(1), World(empty, map[1 := stalled], 0, 1, 1, 0), a);
    worlds, steps := Walk(worlds, steps, Tick(5000), World(empty, map[1 := stalled], 0, 1, 1, 5000), a);
    worlds, steps := Walk(worlds, steps, Spawn(2),
      World(empty, map[1 := stalled, 2 := Process(1, Idle)], 0, 2, 1, 5000), a);
    worlds, steps := Walk(worlds, steps, Observe(2),
      World(empty, map[1 := stalled, 2 := Process(1, Observed(0, None))], 0, 2, 1, 5000), a);
    worlds, steps := Walk(worlds, steps, Judge(2),
      World(empty, map[1 := stalled, 2 := Process(1, Doomed(0))], 0, 2, 1, 5000), a);
    worlds, steps := Walk(worlds, steps, RemoveStale(2),
      World(None, map[1 := stalled, 2 := Process(1, Idle)], 0, 2, 1, 5000), a);
    worlds, steps := SucceedAndStall(worlds, steps, a);
  }

  lemma SucceedAndStall(before: seq<World>, did: seq<Step>, a: Assumptions)
    returns (worlds: seq<World>, steps: seq<Step>)
    requires IsRun(before, did, a)
    requires before[|did|] == World(None, map[1 := Process(0, Created(0, 0)), 2 := Process(1, Idle)], 0, 2, 1, 5000)
    ensures IsRun(worlds, steps, a) && !Exclusive(worlds[|steps|])
  {
    var stalled := Process(0, Created(0, 0));
    var second := Process(1, Holding(2));
    var file := Some(LockFile(1, 2, Some(Identity(0, 2, 1)), 5000));
    worlds, steps := Walk(before, did, Create(2),
      World(Some(LockFile(1, 1, None, 5000)), map[1 := stalled, 2 := Process(1, Created(1, 5000))], 0, 2, 2, 5000), a);
    worlds, steps := Walk(worlds, steps, Write(2),
      World(file, map[1 := stalled, 2 := Process(1, Written(1))], 0, 2, 3, 5000), a);
    worlds, steps := Walk(worlds, steps, Confirm(2), World(file, map[1 := stalled, 2 := second], 0, 2, 3, 5000), a);
    worlds, steps := Walk(worlds, steps, Write(1),
      World(file, map[1 := Process(0, Written(0)), 2 := second], 0, 2, 3, 5000), a);
    worlds, steps := Walk(worlds, steps, Confirm(1),
      World(None, map[1 := Process(0, Idle), 2 := second], 0, 2, 3, 5000), a);
    var next := Some(LockFile(3, 4, Some(Identity(0, 1, 0)), 5000));
    worlds, steps := Walk(worlds, steps, Create(1),
      World(Some(LockFile(3, 3, None, 5000)), map[1 := Process(0, Created(3, 5000)), 2 := second], 0, 2, 4, 5000), a);
    worlds, steps := Walk(worlds, steps, Write(1),
      World(next, map[1 := Process(0, Written(3)), 2 := second], 0, 2, 5, 5000), a);
    worlds, steps := Walk(worlds, steps, Confirm(1),
      World(next, map[1 := Process(0, Holding(4)), 2 := second], 0, 2, 5, 5000), a);
    assert StageOf(worlds[|steps|], 1).Holding? && StageOf(worlds[|steps|], 2).Holding?;
  }
}
