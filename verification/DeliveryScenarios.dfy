/**
 What a truthful receipt does not promise. The executor's catch block looks at the activation
 record and not at the journal: while a transition is unfinished the record is true, but the
 database may be the other release's, and recovery may still take the record back.
 */
module DeliveryScenarios {
  import opened Outcomes
  import opened ActivationRecords
  import opened ActivationProtocol
  import opened ActivationRuns
  import opened ActivationRecovery
  import opened ActivationScenarios
  import opened DeliveryRecords
  import DeliveryExecutor

  /** The deploy that moves release 1 to release 2. */
  const DEPLOY := Capsule(ID, ID, CurrentRelease(7, OLD, ID), TargetRelease(None, NEW), OLD, Deploy(2, NEW), 0)

  const SUCCESS := Terminal(DEPLOY, 20, Succeeded(20, NEW_RECORD))
  const FAILURE := Terminal(DEPLOY, 20, Failed(20, Some(OLD_RECORD)))

  /**
   When a success is final: with no journal left, the record and so the success stand in every
   later state until another transition begins.
   */
  lemma {:induction false} SuccessStands(states: seq<Disk>, steps: seq<Action>, i: nat, k: nat,
                                         receipt: OperationRecord)
    requires IsRun(states, steps) && i <= k < |states|
    requires states[i].journal.None? && receipt.Terminal? && receipt.result.Succeeded?
    requires Truthful(receipt, Record(states[i]))
    requires forall m :: i <= m < k ==> !steps[m].CreateJournal?
    ensures states[k].journal.None? && Truthful(receipt, Record(states[k]))
    ensures DeliveryExecutor.DatabaseIsOf(states[k], receipt.capsule.target.artifact)
  {
    RunKeepsInvariant(states, steps, k);
    if i < k {
      SuccessStands(states, steps, i, k - 1, receipt);
      assert StepAt(states, steps, k - 1);
      if Record(states[k - 1]) != Record(states[k]) {
        RecordChangesOnlyUnderItsJournal(states, steps, k - 1);
      }
    }
  }

  // ---------------------------------------------------------------- a success beside the old database

  /** Recovery turned the committed candidate back and restored the database; its record write threw. */
  function HalfRolledBack(): Disk {
    CommittedDisk().(journal := Some(PromotedJournal().(phase := RollbackRequired)),
                     live := Some(DatabaseFile(FileIdentity(16, 17), OLD_IMAGE)), running := None, clock := 18)
  }

  /** The rollback's copy of the snapshot is ready in the workspace. */
  function BackCopied(): Disk {
    CommittedDisk().(journal := Some(PromotedJournal().(phase := RollbackRequired)), running := None,
                     workspaces := map[ID := WithCandidate(Some(DatabaseFile(FileIdentity(16, 16), OLD_IMAGE)))],
                     clock := 17)
  }

  lemma ReachBackCopied() returns (states: seq<Disk>, steps: seq<Action>)
    ensures Reaches(states, steps, Idle(), BackCopied())
  {
    states, steps := ReachCommitted();
    var d := CommittedDisk().(journal := Some(PromotedJournal().(phase := RollbackRequired)));
    states, steps := Walk(states, steps, AdvanceJournal(PromotedJournal().(phase := RollbackRequired)), d);
    d := d.(running := None);
    states, steps := Walk(states, steps, StopServices, d);
    d := d.(workspaces := map[ID := WithCandidate(Some(DatabaseFile(FileIdentity(15, 15), OLD_IMAGE)))], clock := 16);
    states, steps := Walk(states, steps, WriteCandidate(ID, OLD_IMAGE), d);
    states, steps := Walk(states, steps, WriteCandidate(ID, OLD_IMAGE), BackCopied());
  }

  function RestartedTarget(): Disk {
    HalfRolledBack().(running := Some(NEW))
  }

  /** What the next recovery makes of it. */
  function TakenBack(): Disk {
    RestartedTarget().(activation := Some(ActivationFile(OLD_RECORD, 18)), running := None, clock := 19)
  }

  /**
   The activation throws with the record still naming the target, the database already the old
   one, and rollback-required durable. The catch block restarts the target and stores a success.
   It is true of the record, the target runs on the old release's database, and the next recovery
   takes the record back.
   */
  lemma SuccessBesideTheOldDatabase() returns (states: seq<Disk>, steps: seq<Action>)
    ensures Reaches(states, steps, Idle(), RestartedTarget())
    ensures RecordIsConsistent(SUCCESS) && DeliveryExecutor.Succeeds(SUCCESS, RestartedTarget())
    ensures Truthful(SUCCESS, Record(RestartedTarget()))
    ensures DeliveryExecutor.DatabaseIsOf(RestartedTarget(), OLD)
    ensures !DeliveryExecutor.DatabaseIsOf(RestartedTarget(), NEW)
    ensures RecoveryPossible(RestartedTarget(), {}) && RecoveryTarget(RestartedTarget(), {}) == Some(OLD_RECORD)
  {
    states, steps := ReachBackCopied();
    states, steps := Walk(states, steps, RestoreDatabase(ID), HalfRolledBack());
    states, steps := Walk(states, steps, StartServices(NEW), RestartedTarget());
  }

  lemma SuccessIsTakenBack() returns (states: seq<Disk>, steps: seq<Action>)
    ensures Reaches(states, steps, Idle(), TakenBack())
    ensures !Truthful(SUCCESS, Record(TakenBack()))
  {
    states, steps := SuccessBesideTheOldDatabase();
    var d := RestartedTarget().(running := None);
    states, steps := Walk(states, steps, StopServices, d);
    states, steps := Walk(states, steps, RestoreRecord(Some(OLD_RECORD)), TakenBack());
  }

  // ---------------------------------------------------------------- a failure beside the new database

  /** The activation threw after the promotion and could not recover; the old release is restarted. */
  function RestartedCurrent(): Disk {
    PromotedDisk().(running := Some(OLD))
  }

  /** A truthful failure, with the old release running on the new release's database. */
  lemma FailureBesideTheNewDatabase() returns (states: seq<Disk>, steps: seq<Action>)
    ensures Reaches(states, steps, Idle(), RestartedCurrent())
    ensures RecordIsConsistent(FAILURE) && Truthful(FAILURE, Record(RestartedCurrent()))
    ensures RestartedCurrent().running == Some(OLD) && DeliveryExecutor.DatabaseIsOf(RestartedCurrent(), NEW)
    ensures Enabled(RestartedCurrent(), ServiceWrite)
  {
    states, steps := ReachPromoted();
    states, steps := Walk(states, steps, StartServices(OLD), RestartedCurrent());
  }

  // ---------------------------------------------------------------- writes that a later rollback drops

  /** The activation threw before the promotion, the old release was restarted, and it wrote. */
  function Written(): Disk {
    WithDirectory().(live := Some(DatabaseFile(FileIdentity(3, 11), Image(OLD, 11))), running := Some(OLD), clock := 12)
  }

  lemma ReachWritten() returns (states: seq<Disk>, steps: seq<Action>)
    ensures Reaches(states, steps, Idle(), Written())
  {
    states, steps := ReachWithDirectory();
    states, steps := Walk(states, steps, StartServices(OLD), WithDirectory().(running := Some(OLD)));
    states, steps := Walk(states, steps, ServiceWrite, Written());
  }

  function SnapshotBack(): Disk {
    Written().(live := Some(DatabaseFile(FileIdentity(12, 13), OLD_IMAGE)), running := None,
               workspaces := map[ID := WithCandidate(None)], clock := 14)
  }

  /**
   The restarted release wrote into its own database while the journal was still prepared. Its
   file no longer has the recorded identity, so the next recovery takes it for the candidate's and
   restores the snapshot: the write, made after a truthful failure, is gone.
   */
  lemma RestartedWritesAreDropped() returns (states: seq<Disk>, steps: seq<Action>)
    ensures Reaches(states, steps, Idle(), SnapshotBack())
    ensures RecordIsConsistent(FAILURE) && Truthful(FAILURE, Record(Written()))
    ensures Written().live.value.image.contents != SnapshotBack().live.value.image.contents
    ensures !PreviousStillLive(Written(), PreparedJournal()) && PreviousLineage(Written(), PreparedJournal())
    ensures RecoveryTarget(Written(), {}) == Some(OLD_RECORD)
  {
    states, steps := ReachWritten();
    var d := Written().(running := None);
    states, steps := Walk(states, steps, StopServices, d);
    d := d.(workspaces := map[ID := WithCandidate(Some(DatabaseFile(FileIdentity(12, 12), OLD_IMAGE)))], clock := 13);
    states, steps := Walk(states, steps, WriteCandidate(ID, OLD_IMAGE), d);
    states, steps := Walk(states, steps, RestoreDatabase(ID), SnapshotBack());
  }

  // ---------------------------------------------------------------- a release without its runtime

  /** The hand-off published release 3 and died before it installed its runtime. */
  function Orphaned(): Disk {
    Idle().(releases := map[1 := 1, 2 := 2, 3 := 3])
  }

  /**
   From there neither an activation returns nor an admission passes, of whatever release, until
   that runtime is installed.
   */
  lemma OrphanIsReached() returns (states: seq<Disk>, steps: seq<Action>)
    ensures Reaches(states, steps, Idle(), Orphaned())
    ensures Complete(Idle()) && !Complete(Orphaned())
    ensures Complete(Apply(Orphaned(), InstallRuntime(3)))
  {
    states, steps := [Idle()], [];
    states, steps := Walk(states, steps, PublishRelease(Artifact(3, 3)), Orphaned());
    assert Orphaned().releases[3] !in Orphaned().runtimes;
  }

  /** No step but the installation completes it, and only another publication undoes completeness. */
  lemma CompletenessMoves(d: Disk, step: Action)
    requires Invariant(d) && Enabled(d, step) && Complete(d) != Complete(Apply(d, step))
    ensures Complete(d) ==> step.PublishRelease? || step.RemoveRuntime?
    ensures !Complete(d) ==> step.InstallRuntime? || step.RemoveRelease?
  {
    if !Complete(d) {
      var id :| id in d.releases && d.releases[id] !in d.runtimes;
      assert !step.RemoveRelease? ==> id in Apply(d, step).releases && Apply(d, step).releases[id] == d.releases[id];
    } else {
      var id :| id in Apply(d, step).releases && Apply(d, step).releases[id] !in Apply(d, step).runtimes;
    }
  }
}
