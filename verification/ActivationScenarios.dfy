/**
 Concrete runs, each from an idle host on which record, database and services agree, into the
 states in which the activation code does less than it is meant to. Every action of a run is one
 the code makes; where a process died or a call threw in between is said beside it.
 */
module ActivationScenarios {
  import opened Outcomes
  import opened ActivationRecords
  import opened ActivationProtocol
  import opened ActivationRuns
  import opened ActivationRecovery
  import opened ReleaseActivation

  /** Extends a run by one step whose result is written out. */
  lemma Walk(states: seq<Disk>, steps: seq<Action>, action: Action, next: Disk)
    returns (longer: seq<Disk>, more: seq<Action>)
    requires IsRun(states, steps) && Enabled(states[|steps|], action) && Apply(states[|steps|], action) == next
    ensures IsRun(longer, more) && longer[|more|] == next && longer[0] == states[0]
  {
    longer, more := states + [next], steps + [action];
    forall i | 0 <= i < |more| ensures StepAt(longer, more, i) {
      if i < |steps| {
        assert StepAt(states, steps, i);
      }
    }
  }

  ghost predicate Reaches(states: seq<Disk>, steps: seq<Action>, from: Disk, to: Disk) {
    IsRun(states, steps) && states[0] == from && states[|steps|] == to
  }

  // ---------------------------------------------------------------- an update of a running release

  const OLD := Artifact(1, 1)
  const NEW := Artifact(2, 2)
  const ID: nat := 8
  const OLD_IMAGE := Image(OLD, 5)
  const OLD_RECORD := ActivationRecord(7, OLD, None, Some(COMPATIBILITY_EPOCH))
  const NEW_RECORD := NextRecord(ID, Some(OLD_RECORD), NEW)

  /** Release 1 runs on its database; release 2 is published. */
  function Idle(): Disk {
    Disk(None, Some(ActivationFile(OLD_RECORD, 0)), Some(DatabaseFile(FileIdentity(3, 3), OLD_IMAGE)),
         map[], map[], map[1 := 1, 2 := 2], {1, 2}, Some(OLD), {}, {}, 10)
  }

  function Requested(): Journal {
    JournalFor(ID, Some(OLD_RECORD), NEW)
  }

  function PreparedJournal(): Journal {
    Requested().(phase := Prepared, previousDatabase := Present(OLD_IMAGE, FileIdentity(3, 10)))
  }

  function PromotedJournal(): Journal {
    PreparedJournal().(phase := DatabasePromoted)
  }

  /** Services stopped, snapshot taken, journal prepared. */
  function Snapshotted(): Disk {
    Idle().(journal := Some(PreparedJournal()), live := Some(DatabaseFile(FileIdentity(3, 10), OLD_IMAGE)),
            snapshots := map[ID := OLD_IMAGE], running := None, clock := 11)
  }

  /** The migrated candidate is live under a database-promoted journal. */
  function PromotedDisk(): Disk {
    Snapshotted().(journal := Some(PromotedJournal()), live := Some(DatabaseFile(FileIdentity(12, 13), Image(NEW, 5))),
                   workspaces := map[ID := WithCandidate(None)], clock := 14)
  }

  /** Both checks passed and the candidate's record is durable. */
  function CommittedDisk(): Disk {
    CheckedDisk().(activation := Some(ActivationFile(NEW_RECORD, 14)), clock := 15)
  }

  lemma ReachSnapshotted() returns (states: seq<Disk>, steps: seq<Action>)
    ensures Reaches(states, steps, Idle(), Snapshotted())
  {
    var d := Idle();
    states, steps := [d], [];
    d := d.(journal := Some(Requested()));
    states, steps := Walk(states, steps, CreateJournal(Requested()), d);
    d := d.(running := None);
    states, steps := Walk(states, steps, StopServices, d);
    d := d.(live := Some(DatabaseFile(FileIdentity(3, 10), OLD_IMAGE)), snapshots := map[ID := OLD_IMAGE], clock := 11);
    states, steps := Walk(states, steps, TakeSnapshot(ID), d);
    states, steps := Walk(states, steps, AdvanceJournal(PreparedJournal()), Snapshotted());
  }

  function WithDirectory(): Disk {
    Snapshotted().(workspaces := map[ID := WithCandidate(None)])
  }

  lemma ReachWithDirectory() returns (states: seq<Disk>, steps: seq<Action>)
    ensures Reaches(states, steps, Idle(), WithDirectory())
  {
    states, steps := ReachSnapshotted();
    states, steps := Walk(states, steps, MakeWorkspace(ID), Snapshotted().(workspaces := map[ID := Bare]));
    states, steps := Walk(states, steps, MakeCandidateDirectory(ID), WithDirectory());
  }

  /** The candidate database is a copy of the snapshot, migrated by the candidate. */
  function BuiltDisk(): Disk {
    Snapshotted().(workspaces := map[ID := WithCandidate(Some(DatabaseFile(FileIdentity(12, 12), Image(NEW, 5))))],
                   clock := 13)
  }

  lemma ReachBuilt() returns (states: seq<Disk>, steps: seq<Action>)
    ensures Reaches(states, steps, Idle(), BuiltDisk())
  {
    states, steps := ReachWithDirectory();
    var d := WithDirectory().(
      workspaces := map[ID := WithCandidate(Some(DatabaseFile(FileIdentity(11, 11), OLD_IMAGE)))], clock := 12);
    states, steps := Walk(states, steps, WriteCandidate(ID, OLD_IMAGE), d);
    states, steps := Walk(states, steps, WriteCandidate(ID, Image(NEW, 5)), BuiltDisk());
  }

  lemma ReachPromoted() returns (states: seq<Disk>, steps: seq<Action>)
    ensures Reaches(states, steps, Idle(), PromotedDisk())
  {
    states, steps := ReachBuilt();
    var d := PromotedDisk().(journal := Some(PreparedJournal()));
    states, steps := Walk(states, steps, Promote(ID), d);
    states, steps := Walk(states, steps, AdvanceJournal(PromotedJournal()), PromotedDisk());
  }

  /** The candidate runs and has passed both checks. */
  function CheckedDisk(): Disk {
    PromotedDisk().(running := Some(NEW), ready := {ID}, smoked := {ID})
  }

  lemma ReachStarted() returns (states: seq<Disk>, steps: seq<Action>)
    ensures Reaches(states, steps, Idle(), PromotedDisk().(running := Some(NEW)))
  {
    states, steps := ReachPromoted();
    states, steps := Walk(states, steps, StartServices(NEW), PromotedDisk().(running := Some(NEW)));
  }

  lemma ReachChecked() returns (states: seq<Disk>, steps: seq<Action>)
    ensures Reaches(states, steps, Idle(), CheckedDisk())
  {
    states, steps := ReachStarted();
    var d := PromotedDisk().(running := Some(NEW), ready := {ID});
    states, steps := Walk(states, steps, PassReadiness(ID), d);
    states, steps := Walk(states, steps, PassSmoke(ID), CheckedDisk());
  }

  lemma ReachCommitted() returns (states: seq<Disk>, steps: seq<Action>)
    ensures Reaches(states, steps, Idle(), CommittedDisk())
  {
    states, steps := ReachChecked();
    states, steps := Walk(states, steps, CommitRecord(NEW_RECORD), CommittedDisk());
  }

  /**
   The process died right after the commit and the candidate does not come up again. Activating
   the candidate once more resumes it, rolls it back, and has the previous record to return.
   */
  lemma ResumedRollbackReturnsPrevious() returns (states: seq<Disk>, steps: seq<Action>)
    ensures Reaches(states, steps, Idle(), CommittedDisk())
    ensures Resumes(CommittedDisk(), NEW) && RecoveryPossible(CommittedDisk(), {NEW})
    ensures RecoveryTarget(CommittedDisk(), {NEW}) == Some(OLD_RECORD)
  {
    states, steps := ReachCommitted();
  }

  /** The process died between the removal of the candidate directory and of the workspace root. */
  function HalfDiscarded(): Disk {
    CommittedDisk().(workspaces := map[ID := Bare])
  }

  /** The process died between the discard and the removal of the journal. */
  function FullyDiscarded(): Disk {
    CommittedDisk().(workspaces := map[])
  }

  lemma ReachHalfDiscarded() returns (states: seq<Disk>, steps: seq<Action>)
    ensures Reaches(states, steps, Idle(), HalfDiscarded())
  {
    states, steps := ReachCommitted();
    states, steps := Walk(states, steps, EmptyCandidate(ID), CommittedDisk());
    states, steps := Walk(states, steps, RemoveCandidateDirectory(ID), HalfDiscarded());
  }

  lemma ReachFullyDiscarded() returns (states: seq<Disk>, steps: seq<Action>)
    ensures Reaches(states, steps, Idle(), FullyDiscarded())
  {
    states, steps := ReachHalfDiscarded();
    states, steps := Walk(states, steps, RemoveWorkspace(ID), FullyDiscarded());
  }

  /** A committed candidate that no longer comes up cannot be left once its workspace is half gone. */
  lemma HalfDiscardedCommitIsStuck() returns (states: seq<Disk>, steps: seq<Action>)
    ensures Reaches(states, steps, Idle(), HalfDiscarded())
    ensures !RecoveryPossible(HalfDiscarded(), {NEW}) && RecoveryPossible(HalfDiscarded(), {OLD})
  {
    states, steps := ReachHalfDiscarded();
  }

  lemma DiscardedCommitIsStuck() returns (states: seq<Disk>, steps: seq<Action>)
    ensures Reaches(states, steps, Idle(), FullyDiscarded())
    ensures !RecoveryPossible(FullyDiscarded(), {NEW}) && RecoveryPossible(FullyDiscarded(), {OLD})
  {
    states, steps := ReachFullyDiscarded();
  }

  /** The old release runs on the database of the new one, whose record is durable. */
  function MismatchedDisk(): Disk {
    FullyDiscarded().(journal := None, running := Some(OLD))
  }

  /**
   The cutover finished but a collector threw after the journal was cleared. The catch block read
   that there is no journal, could not read the record, and put the previous release back.
   */
  lemma UnreadableRecordRestartsThePrevious() returns (states: seq<Disk>, steps: seq<Action>)
    ensures Reaches(states, steps, Idle(), MismatchedDisk())
    ensures Mismatched(MismatchedDisk(), Some(OLD_RECORD), ID, NEW)
    ensures Paired(MismatchedDisk()) && MismatchedDisk().live.value.image.owner == NEW
    ensures MismatchedDisk().running == Some(OLD) && Enabled(MismatchedDisk(), ServiceWrite)
  {
    states, steps := ReachFullyDiscarded();
    states, steps := FinishBlindly(states, steps);
  }

  lemma FinishBlindly(before: seq<Disk>, did: seq<Action>) returns (states: seq<Disk>, steps: seq<Action>)
    requires Reaches(before, did, Idle(), FullyDiscarded())
    ensures Reaches(states, steps, Idle(), MismatchedDisk())
  {
    var d := FullyDiscarded().(journal := None);
    states, steps := Walk(before, did, ClearJournal, d);
    d := d.(running := None);
    states, steps := Walk(states, steps, StopServices, d);
    states, steps := Walk(states, steps, StartServices(OLD), MismatchedDisk());
  }

  // ---------------------------------------------------------------- a rollback interrupted in its discard

  /** The database is back as a fresh file, and the directory it would be restored from is gone. */
  function RestoredAndDiscarded(): Disk {
    PromotedDisk().(live := Some(DatabaseFile(FileIdentity(15, 16), OLD_IMAGE)),
                    workspaces := map[ID := Bare], clock := 17)
  }

  /** The rollback's own copy of the snapshot, validated by the old release. */
  function RollbackBuilt(): Disk {
    PromotedDisk().(workspaces := map[ID := WithCandidate(Some(DatabaseFile(FileIdentity(15, 15), OLD_IMAGE)))],
                    clock := 16)
  }

  lemma ReachRollbackBuilt() returns (states: seq<Disk>, steps: seq<Action>)
    ensures Reaches(states, steps, Idle(), RollbackBuilt())
  {
    states, steps := ReachPromoted();
    var d := PromotedDisk();
    states, steps := Walk(states, steps, EmptyCandidate(ID), d);
    d := d.(workspaces := map[ID := WithCandidate(Some(DatabaseFile(FileIdentity(14, 14), OLD_IMAGE)))], clock := 15);
    states, steps := Walk(states, steps, WriteCandidate(ID, OLD_IMAGE), d);
    states, steps := Walk(states, steps, WriteCandidate(ID, OLD_IMAGE), RollbackBuilt());
  }

  /**
   The process died after the promotion; the next one rolled back and died in its discard. From
   there no recovery finishes, whatever starts.
   */
  lemma InterruptedDiscardIsStuck(unready: set<Artifact>) returns (states: seq<Disk>, steps: seq<Action>)
    ensures Reaches(states, steps, Idle(), RestoredAndDiscarded())
    ensures !RecoveryPossible(RestoredAndDiscarded(), unready)
  {
    states, steps := ReachRollbackBuilt();
    var d := RestoredAndDiscarded().(workspaces := map[ID := WithCandidate(None)]);
    states, steps := Walk(states, steps, RestoreDatabase(ID), d);
    states, steps := Walk(states, steps, RemoveCandidateDirectory(ID), RestoredAndDiscarded());
  }

  // ---------------------------------------------------------------- a first activation turned back too late

  const FIRST_RECORD := NextRecord(ID, None, NEW)

  function Empty(): Disk {
    Disk(None, None, None, map[], map[], map[2 := 2], {2}, None, {}, {}, 10)
  }

  function FirstJournal(phase: Phase): Journal {
    JournalFor(ID, None, NEW).(phase := phase, previousDatabase := Absent)
  }

  function FirstPromoted(): Disk {
    Empty().(journal := Some(FirstJournal(DatabasePromoted)),
             live := Some(DatabaseFile(FileIdentity(10, 11), Image(NEW, 9))),
             workspaces := map[ID := WithCandidate(None)], clock := 12)
  }

  function FirstPrepared(): Disk {
    Empty().(journal := Some(FirstJournal(Prepared)))
  }

  lemma ReachFirstPrepared() returns (states: seq<Disk>, steps: seq<Action>)
    ensures Reaches(states, steps, Empty(), FirstPrepared())
  {
    var d := Empty();
    states, steps := [d], [];
    d := d.(journal := Some(JournalFor(ID, None, NEW)));
    states, steps := Walk(states, steps, CreateJournal(JournalFor(ID, None, NEW)), d);
    states, steps := Walk(states, steps, StopServices, d);
    states, steps := Walk(states, steps, AdvanceJournal(FirstJournal(Prepared)), FirstPrepared());
  }

  function FirstBuilt(): Disk {
    FirstPrepared().(workspaces := map[ID := WithCandidate(Some(DatabaseFile(FileIdentity(10, 10), Image(NEW, 9))))],
                     clock := 11)
  }

  lemma ReachFirstBuilt() returns (states: seq<Disk>, steps: seq<Action>)
    ensures Reaches(states, steps, Empty(), FirstBuilt())
  {
    states, steps := ReachFirstPrepared();
    var d := FirstPrepared().(workspaces := map[ID := Bare]);
    states, steps := Walk(states, steps, MakeWorkspace(ID), d);
    d := d.(workspaces := map[ID := WithCandidate(None)]);
    states, steps := Walk(states, steps, MakeCandidateDirectory(ID), d);
    states, steps := Walk(states, steps, WriteCandidate(ID, Image(NEW, 9)), FirstBuilt());
  }

  lemma ReachFirstPromoted() returns (states: seq<Disk>, steps: seq<Action>)
    ensures Reaches(states, steps, Empty(), FirstPromoted())
  {
    states, steps := ReachFirstBuilt();
    var d := FirstPromoted().(journal := Some(FirstJournal(Prepared)));
    states, steps := Walk(states, steps, Promote(ID), d);
    states, steps := Walk(states, steps, AdvanceJournal(FirstJournal(DatabasePromoted)), FirstPromoted());
  }

  function FirstCommitted(): Disk {
    FirstPromoted().(activation := Some(ActivationFile(FIRST_RECORD, 12)), running := Some(NEW),
                     ready := {ID}, smoked := {ID}, clock := 13)
  }

  lemma ReachFirstCommitted() returns (states: seq<Disk>, steps: seq<Action>)
    ensures Reaches(states, steps, Empty(), FirstCommitted())
  {
    states, steps := ReachFirstPromoted();
    var d := FirstPromoted();
    d := d.(running := Some(NEW));
    states, steps := Walk(states, steps, StartServices(NEW), d);
    d := d.(ready := {ID});
    states, steps := Walk(states, steps, PassReadiness(ID), d);
    d := d.(smoked := {ID});
    states, steps := Walk(states, steps, PassSmoke(ID), d);
    states, steps := Walk(states, steps, CommitRecord(FIRST_RECORD), FirstCommitted());
  }

  /** Committed, discarded, and then marked for rollback because the candidate did not come up again. */
  function TurnedBack(): Disk {
    FirstCommitted().(journal := Some(FirstJournal(RollbackRequired)), workspaces := map[])
  }

  /** There was no database to go back to, and there is no workspace that says so: nothing finishes. */
  lemma TurnedBackFirstActivationIsStuck(unready: set<Artifact>) returns (states: seq<Disk>, steps: seq<Action>)
    ensures Reaches(states, steps, Empty(), TurnedBack())
    ensures !RecoveryPossible(TurnedBack(), unready)
  {
    states, steps := ReachFirstCommitted();
    var d := FirstCommitted();
    d := d.(workspaces := map[ID := Bare]);
    states, steps := Walk(states, steps, RemoveCandidateDirectory(ID), d);
    d := d.(workspaces := map[]);
    states, steps := Walk(states, steps, RemoveWorkspace(ID), d);
    states, steps := Walk(states, steps, AdvanceJournal(FirstJournal(RollbackRequired)), TurnedBack());
  }
}
