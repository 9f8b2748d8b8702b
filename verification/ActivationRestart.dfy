/**
 Restarting recovery. A rollback can be interrupted and run again until it starts discarding
 the workspace of a database that existed before; from there on an interruption can leave a
 restored database that no longer has the recorded identity and no workspace to restore from,
 and every later recovery throws and keeps the journal.
 */
module ActivationRestart {
  import opened Outcomes
  import opened ActivationRecords
  import opened ActivationProtocol
  import opened ActivationRuns
  import opened ActivationRecovery
  import opened ProductionHost

  /** The rollback source is still whole, or nothing was promoted and nothing runs. */
  predicate Reversible(d: Disk, j: Journal) {
    match j.previousDatabase
    case Unrecorded => true
    case Absent => d.live.None? || j.transitionId in d.workspaces
    case Present(_, _) =>
      HasCandidateDirectory(d, j.transitionId) || (PreviousStillLive(d, j) && d.running.None?)
  }

  /** The steps by which a rollback of a recorded database gives up its workspace and restarts. */
  predicate EndsRollback(step: Action, j: Journal) {
    || step.CommitRecord?
    || (j.previousDatabase.Present? && (step.StartServices? || step == RemoveCandidateDirectory(j.transitionId)))
  }

  lemma ReversibleStays(d: Disk, step: Action)
    requires Invariant(d) && Enabled(d, step) && d.journal.Some? && !Settling(d, d.journal.value)
    requires Reversible(d, d.journal.value) && Apply(d, step).journal.Some?
    requires !EndsRollback(step, d.journal.value)
    ensures Reversible(Apply(d, step), Apply(d, step).journal.value)
  {
  }

  /** What is rolled back to never changes while the journal lives. */
  lemma TargetStays(d: Disk, step: Action)
    requires Invariant(d) && Enabled(d, step) && d.journal.Some? && !Settling(d, d.journal.value)
    requires Apply(d, step).journal.Some? && !step.CommitRecord?
    ensures Apply(d, step).journal.value.previousActivation == d.journal.value.previousActivation
    ensures !Settling(Apply(d, step), Apply(d, step).journal.value)
  {
    StepOnJournal(d, step);
    StepOnRecord(d, step);
    if step.RestoreRecord? {
      CommitOrRestore(d, step);
    }
  }

  /** A reversible state recovers, whatever else happened, unless the old release will not start. */
  lemma ReversibleRecovers(d: Disk, unready: set<Artifact>)
    requires Invariant(d) && d.journal.Some? && !Settling(d, d.journal.value)
    requires Reversible(d, d.journal.value)
    requires CurrentOf(d.journal.value.previousActivation).Some? ==>
               CurrentOf(d.journal.value.previousActivation).value !in unready
    ensures RecoveryPossible(d, unready)
    ensures RecoveryTarget(d, unready) == d.journal.value.previousActivation
  {
  }

  /** Before the snapshot is recorded, or with no earlier database, an uncommitted state is reversible. */
  lemma UncommittedIsReversible(d: Disk)
    requires Invariant(d) && d.journal.Some? && !Committed(d, d.journal.value)
    requires !d.journal.value.previousDatabase.Present?
    ensures Reversible(d, d.journal.value)
  {
  }

  lemma {:induction false} InterruptedRollbackIsReversible(states: seq<Disk>, steps: seq<Action>, i: nat, k: nat)
    requires IsRun(states, steps) && i <= k < |states|
    requires forall m :: i <= m <= k ==> states[m].journal.Some?
    requires !Settling(states[i], states[i].journal.value) && Reversible(states[i], states[i].journal.value)
    requires forall m :: i <= m < k ==> !EndsRollback(steps[m], states[m].journal.value)
    ensures !Settling(states[k], states[k].journal.value) && Reversible(states[k], states[k].journal.value)
    ensures states[k].journal.value.previousActivation == states[i].journal.value.previousActivation
  {
    if i < k {
      InterruptedRollbackIsReversible(states, steps, i, k - 1);
      RunKeepsInvariant(states, steps, k - 1);
      assert StepAt(states, steps, k - 1);
      ReversibleStays(states[k - 1], steps[k - 1]);
      TargetStays(states[k - 1], steps[k - 1]);
    }
  }

  /**
   Restartability: recovery from any state of an interrupted rollback, up to the discard of a
   recorded database's workspace, can finish and ends at the same record as recovery from the
   state in which the rollback began.
   */
  lemma InterruptedRollbackRestarts(states: seq<Disk>, steps: seq<Action>, i: nat, k: nat, unready: set<Artifact>)
    requires IsRun(states, steps) && i <= k < |states|
    requires forall m :: i <= m <= k ==> states[m].journal.Some?
    requires !Settling(states[i], states[i].journal.value) && Reversible(states[i], states[i].journal.value)
    requires forall m :: i <= m < k ==> !EndsRollback(steps[m], states[m].journal.value)
    requires CurrentOf(states[i].journal.value.previousActivation).Some? ==>
               CurrentOf(states[i].journal.value.previousActivation).value !in unready
    ensures RecoveryPossible(states[k], unready)
    ensures RecoveryTarget(states[k], unready) == RecoveryTarget(states[i], unready)
  {
    InterruptedRollbackIsReversible(states, steps, i, k);
    RunKeepsInvariant(states, steps, i);
    RunKeepsInvariant(states, steps, k);
    ReversibleRecovers(states[i], unready);
    ReversibleRecovers(states[k], unready);
  }

  /** From the i-th state on, the journal was always there and no rollback began its discard. */
  ghost predicate BeforeTheDiscard(states: seq<Disk>, steps: seq<Action>, i: nat) {
    && i <= |steps| && |states| == |steps| + 1
    && (forall m :: i <= m < |states| ==> states[m].journal.Some?)
    && forall m :: i <= m < |steps| ==> !EndsRollback(steps[m], states[m].journal.value)
  }

  /** The record, the services and the data are those of the other disk, and no transition is left. */
  predicate SameEnd(a: Disk, b: Disk) {
    && a.journal.None? && b.journal.None? && Record(a) == Record(b) && a.running == b.running
    && SameImage(a, b)
  }

  /** Any number of recoveries that throw or die anywhere, each in a new process. */
  method RecoverInterrupted(host: Host, attempts: nat)
    requires host.Valid()
    modifies host
    ensures host.Valid() && host.Extends(old(host.states), old(host.steps))
  {
    for n := 0 to attempts
      invariant host.Valid() && host.Extends(old(host.states), old(host.steps))
    {
      host.Restart();
      var interrupted := RecoverExistingTransition(host);
    }
    host.Restart();
  }

  /** What the last recovery finds after a stretch that began no discard. */
  lemma StillThere(states: seq<Disk>, steps: seq<Action>, i: nat, unready: set<Artifact>)
    requires IsRun(states, steps) && BeforeTheDiscard(states, steps, i)
    requires !states[i].journal.value.phase.ServiceStopRequested?
    requires !Settling(states[i], states[i].journal.value) && Reversible(states[i], states[i].journal.value)
    requires Restartable(CurrentOf(states[i].journal.value.previousActivation), unready)
    ensures var j := states[i].journal.value;
      var d := states[|steps|];
      && d.journal.Some? && d.journal.value.previousDatabase == j.previousDatabase
      && RecoveryPossible(d, unready) && !KeepsCandidate(d, unready)
      && RecoveryTarget(d, unready) == j.previousActivation
  {
    RunKeepsInvariant(states, steps, i);
    ReversibleRecovers(states[i], unready);
    InterruptedRollbackRestarts(states, steps, i, |steps|, unready);
    InterruptedRollbackIsReversible(states, steps, i, |steps|);
    JournalStays(states, steps, i, |steps|);
  }

  /**
   Restarted rollbacks end as an uninterrupted one. On `host` any number of recoveries throw or die
   anywhere, with the services that survived them writing in between; then one more runs
   undisturbed on what they left. Beside it one recovery runs undisturbed from the start. Unless
   an interrupted one had begun its discard, both return, and they leave the same record, services
   and live database, and no journal.
   */
  method RecoverAgain(host: Host, attempts: nat) returns (again: Host, straight: Host)
    requires host.Valid() && host.disk.journal.Some? && !host.disk.journal.value.phase.ServiceStopRequested?
    requires !Settling(host.disk, host.disk.journal.value) && Reversible(host.disk, host.disk.journal.value)
    requires Restartable(CurrentOf(host.disk.journal.value.previousActivation), host.unready)
    modifies host
    ensures host.Valid() && host.Extends(old(host.states), old(host.steps))
    ensures again.Valid() && again.calm && again.unready == host.unready && [host.disk] <= again.states
    ensures straight.Valid() && straight.calm && straight.unready == host.unready
    ensures [old(host.disk)] <= straight.states
    ensures straight.disk.journal.None?
    ensures Record(straight.disk) == old(host.disk).journal.value.previousActivation
    ensures BeforeTheDiscard(host.states, host.steps, |old(host.steps)|) ==> SameEnd(again.disk, straight.disk)
  {
    ghost var i := |host.steps|;
    straight := new Host(host.disk, true, host.unready);
    ReversibleRecovers(host.disk, host.unready);
    var direct := RecoverExistingTransition(straight);
    RecoverInterrupted(host, attempts);
    again := new Host(host.disk, true, host.unready);
    if BeforeTheDiscard(host.states, host.steps, i) {
      assert host.states[i] == old(host.disk);
      StillThere(host.states, host.steps, i, host.unready);
    }
    var resumed := RecoverExistingTransition(again);
  }

  const OLD := Artifact(1, 1)
  const NEW := Artifact(2, 2)
  const OLD_IMAGE := Image(OLD, 5)
  const OLD_RECORD := ActivationRecord(7, OLD, None, Some(COMPATIBILITY_EPOCH))

  /** A rolled-back host whose process died between the discard and the journal removal. */
  function StuckHost(): Disk {
    Disk(
      Some(Journal(8, NEW, Some(OLD_RECORD), Present(OLD_IMAGE, FileIdentity(3, 3)), Prepared)),
      Some(ActivationFile(OLD_RECORD, 0)),
      Some(DatabaseFile(FileIdentity(9, 10), OLD_IMAGE)),
      map[], map[8 := OLD_IMAGE], map[1 := 1, 2 := 2], {1, 2}, Some(OLD), {}, {}, 11)
  }

  /** The window is real: such a host is consistent, and no recovery of it can finish. */
  lemma DiscardWindowIsFailClosed(unready: set<Artifact>)
    ensures Invariant(StuckHost()) && StuckHost().journal.Some?
    ensures !RecoveryPossible(StuckHost(), unready)
  {
    assert Published(StuckHost(), NEW);
  }

  /** The source a rollback would restore from: a candidate directory, or for an absent database the workspace. */
  predicate SourceRemains(d: Disk, j: Journal) {
    if j.previousDatabase.Present? then HasCandidateDirectory(d, j.transitionId) else j.transitionId in d.workspaces
  }

  /** The live entry is still what the journal recorded, by identity or by absence. */
  predicate NeverReplaced(d: Disk, j: Journal) {
    if j.previousDatabase.Present? then d.live.Some? && d.live.value.identity == j.previousDatabase.source
    else d.live.None?
  }

  /**
   Once the previous database is recorded, a transition that is to be rolled back recovers exactly
   if the old release starts, and the live entry was never replaced or its source remains.
   */
  lemma WhenRecoveryIsImpossible(d: Disk, unready: set<Artifact>)
    requires Invariant(d) && d.journal.Some? && !d.journal.value.previousDatabase.Unrecorded?
    requires !Settling(d, d.journal.value)
    ensures var j := d.journal.value;
      RecoveryPossible(d, unready) <==>
        && (j.previousActivation.Some? ==> j.previousActivation.value.current !in unready)
        && (NeverReplaced(d, j) || SourceRemains(d, j))
  {
  }

  /**
   A committed transition recovers exactly if its candidate comes up again, or the old release
   starts and the source of the rollback remains. The forward half discards that source before it
   clears the journal, one directory at a time.
   */
  lemma DiscardedCommitNeedsItsCandidate(d: Disk, unready: set<Artifact>)
    requires Invariant(d) && d.journal.Some? && Settling(d, d.journal.value)
    ensures var j := d.journal.value;
      RecoveryPossible(d, unready) <==>
        || j.candidate !in unready
        || ((j.previousActivation.Some? ==> j.previousActivation.value.current !in unready) && SourceRemains(d, j))
  {
  }

  /** Before anything is recorded only the old release has to start. */
  lemma UnrecordedRecovers(d: Disk, unready: set<Artifact>)
    requires Invariant(d) && d.journal.Some? && d.journal.value.previousDatabase.Unrecorded?
    ensures RecoveryPossible(d, unready) <==> Restartable(CurrentOf(d.journal.value.previousActivation), unready)
  {
  }
}
