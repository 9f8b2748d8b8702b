/**
 Recovery from what is on disk alone: inspection, rollback, and the choice between finishing
 a committed candidate and rolling it back.
 */
module ActivationRecovery {
  import opened Outcomes
  import opened ActivationRecords
  import opened ActivationProtocol
  import opened ProductionHost

  predicate OnlyDatabase(a: Disk, b: Disk) {
    b == a.(live := b.live, workspaces := b.workspaces, clock := b.clock) && a.clock <= b.clock
  }

  /** Rolling back this journal can finish when nothing else goes wrong. */
  predicate RollbackPossible(d: Disk, j: Journal, unready: set<Artifact>) {
    && Restartable(CurrentOf(j.previousActivation), unready)
    && (j.phase.ServiceStopRequested? || PreviousStillLive(d, j) || CanRestore(d, j))
  }

  /** The committed candidate is kept: it comes back up, so recovery finishes forward. */
  predicate KeepsCandidate(d: Disk, unready: set<Artifact>) {
    d.journal.Some? && Settling(d, d.journal.value) && d.journal.value.candidate !in unready
  }

  predicate RecoveryPossible(d: Disk, unready: set<Artifact>) {
    d.journal.Some? ==> KeepsCandidate(d, unready) || RollbackPossible(d, d.journal.value, unready)
  }

  function RecoveryTarget(d: Disk, unready: set<Artifact>): Option<ActivationRecord> {
    if d.journal.None? || KeepsCandidate(d, unready) then Record(d)
    else d.journal.value.previousActivation
  }

  /** The data a finished recovery leaves: what was live, what was recorded, or nothing. */
  predicate DataIsRecovered(before: Disk, after: Disk, j: Journal, kept: bool) {
    if kept || j.previousDatabase.Unrecorded? then SameImage(before, after)
    else match j.previousDatabase
         case Present(manifest, _) => after.live.Some? && after.live.value.image == manifest
         case _ => after.live.None?
  }

  method InspectRecovery(host: Host, j: Journal) returns (r: Outcome<Recovery>)
    requires host.Valid() && host.disk.journal == Some(j) && !j.previousDatabase.Unrecorded?
    modifies host`alive
    ensures host.Valid()
    ensures r.Returned? ==> host.alive && (r.value.NotPromoted? <==> PreviousStillLive(host.disk, j))
    ensures r.Returned? && r.value.Promoted? ==>
              && host.disk.live.Some? && r.value.identity == host.disk.live.value.identity
              && j.transitionId in host.disk.workspaces
    ensures host.calm && old(host.alive) ==>
              host.alive && (r.Returned? <==> PreviousStillLive(host.disk, j) || j.transitionId in host.disk.workspaces)
  {
    var ok := host.Depend();
    if !ok { return Threw; }
    var previousStillLive :=
      if j.previousDatabase.Absent? then host.disk.live.None?
      else host.disk.live.Some? && host.disk.live.value.identity == j.previousDatabase.source;
    if previousStillLive { return Returned(NotPromoted); }
    if j.transitionId !in host.disk.workspaces || host.disk.live.None? { return Threw; }
    return Returned(Promoted(host.disk.live.value.identity));
  }

  /** A fresh copy of the recorded snapshot in the emptied candidate directory, validated by its release. */
  method BuildRollbackCandidate(host: Host, j: Journal, previous: Artifact) returns (ok: bool)
    requires host.Valid() && host.disk.journal == Some(j) && j.previousDatabase.Present?
    requires j.transitionId in host.disk.workspaces && Some(previous) == CurrentOf(j.previousActivation)
    modifies host
    ensures host.Valid() && host.Extends(old(host.states), old(host.steps))
    ensures SameArtifacts(old(host.disk), host.disk)
    ensures OnlyWorkspaces(old(host.disk), host.disk)
    ensures ok ==> host.alive && HasCandidateDirectory(host.disk, j.transitionId)
    ensures ok ==> host.disk.workspaces[j.transitionId].database.Some? &&
                   host.disk.workspaces[j.transitionId].database.value.image == j.previousDatabase.manifest
    ensures host.calm && old(host.alive) ==> host.alive && ok == HasCandidateDirectory(old(host.disk), j.transitionId)
  {
    var id := j.transitionId;
    ok := host.Depend();
    if !ok || !HasCandidateDirectory(host.disk, id) { return false; }
    ok := host.Perform(EmptyCandidate(id));
    if !ok { return; }
    ok := host.CopySnapshot(id, id, j.previousDatabase.manifest);
    if !ok { return; }
    ok := host.MaintainCandidate(id, previous);
  }

  /**
   Puts the recorded previous database back at the live entry: a validated copy of the
   snapshot, or nothing when there was no database before.
   */
  method RestorePreviousDatabase(host: Host, j: Journal, promoted: FileIdentity, previous: Option<Artifact>)
    returns (ok: bool)
    requires host.Valid() && host.disk.journal == Some(j) && !j.previousDatabase.Unrecorded?
    requires !Settling(host.disk, j) && host.disk.running.None?
    requires host.disk.live.Some? && host.disk.live.value.identity == promoted
    requires j.transitionId in host.disk.workspaces && previous == CurrentOf(j.previousActivation)
    modifies host
    ensures host.Valid() && host.Extends(old(host.states), old(host.steps))
    ensures SameArtifacts(old(host.disk), host.disk)
    ensures OnlyDatabase(old(host.disk), host.disk)
    ensures ok ==> host.alive && PreviousLineage(host.disk, j)
    ensures ok && j.previousDatabase.Present? ==>
              host.disk.live.Some? && host.disk.live.value.image == j.previousDatabase.manifest
    ensures host.calm && old(host.alive) ==> host.alive && ok == CanRestore(old(host.disk), j)
  {
    var id := j.transitionId;
    if j.previousDatabase.Absent? {
      ok := host.Depend();
      if !ok || host.disk.live.value.identity.inode != promoted.inode { return false; }
      ok := host.Perform(RemoveDatabase);
      return;
    }
    if previous.None? { return false; }
    ok := BuildRollbackCandidate(host, j, previous.value);
    if !ok { return; }
    ok := host.Depend();
    if !ok || host.disk.live.value.identity.inode != promoted.inode { return false; }
    ok := host.Perform(RestoreDatabase(id));
  }

  method RestorePreviousProcessState(host: Host, previous: Option<Artifact>) returns (ok: bool)
    requires host.Valid()
    modifies host
    ensures host.Valid() && host.Extends(old(host.states), old(host.steps))
    ensures SameArtifacts(old(host.disk), host.disk)
    ensures Drifted(old(host.disk), host.disk)
    ensures ok ==> host.alive && host.disk.running == if previous.Some? then previous else old(host.disk).running
    ensures host.calm ==> host.disk.live == old(host.disk.live)
    ensures host.calm && old(host.alive) ==> host.alive && ok == Restartable(previous, host.unready)
  {
    if previous.Some? {
      ok := host.PrepareAndStartServices(previous.value);
      if !ok { return; }
      ok := host.VerifyReady(previous.value);
      return;
    }
    ok := host.Depend();
  }

  /** Compare-and-swap back to the predecessor; a throw after the write is reconciled by reading. */
  method ReconcileRollback(host: Host, expected: Option<ActivationFile>, previous: Option<ActivationRecord>)
    returns (r: Outcome<Option<ActivationFile>>)
    requires host.Valid() && Enabled(host.disk, RestoreRecord(previous)) && expected == host.disk.activation
    modifies host
    ensures host.Valid() && host.Extends(old(host.states), old(host.steps))
    ensures SameArtifacts(old(host.disk), host.disk)
    ensures host.disk == old(host.disk).(activation := host.disk.activation, clock := host.disk.clock)
    ensures old(host.disk).clock <= host.disk.clock
    ensures Record(host.disk) == Record(old(host.disk)) || Record(host.disk) == previous
    ensures r.Returned? ==> host.alive && r.value == host.disk.activation && Record(host.disk) == previous
    ensures host.calm && old(host.alive) ==> r.Returned?
  {
    var restored := false;
    if RestoreIsValid(RecordOf(expected), previous) {
      var read, actual := host.LoadActivation();
      if read && actual == expected {
        restored := host.Perform(RestoreRecord(previous));
      }
    }
    if restored { return Returned(host.disk.activation); }
    var ok, observed := host.LoadActivation();
    if !ok || !RecordsEqual(RecordOf(observed), previous) { return Threw; }
    return Returned(observed);
  }

  /** Neither the journal nor the workspace of the transition is left. */
  predicate Ended(d: Disk, j: Journal) {
    d.journal.None? && j.transitionId !in d.workspaces
  }

  /** With no journal, what runs is the release the record names; with no record, nothing runs. */
  predicate IdleIsRunning(d: Disk) {
    d.journal.None? ==> d.running == CurrentOf(Record(d))
  }

  /** The common end of a rollback: discard the workspace, restart, clear the journal. */
  method FinishRollback(host: Host, j: Journal, previous: Option<Artifact>) returns (ok: bool)
    requires host.Valid() && host.disk.journal == Some(j)
    requires Record(host.disk) == j.previousActivation && PreviousLineage(host.disk, j)
    requires previous == CurrentOf(j.previousActivation) && host.disk.running.None?
    modifies host
    ensures host.Valid() && host.Extends(old(host.states), old(host.steps))
    ensures SameArtifacts(old(host.disk), host.disk)
    ensures IdleIsRunning(host.disk)
    ensures host.disk.activation == old(host.disk).activation
    ensures ok ==> host.alive && Ended(host.disk, j) && host.disk.running == previous
    ensures host.calm ==> host.disk.live == old(host.disk.live)
    ensures host.calm && old(host.alive) ==> host.alive && ok == Restartable(previous, host.unready)
  {
    ok := host.DiscardWorkspace(j.transitionId);
    if !ok { return; }
    ok := RestorePreviousProcessState(host, previous);
    if !ok { return; }
    ok := host.ClearJournal(j);
  }

  /** With services stopped: the recorded database, then the recorded record. */
  method RestoreRecorded(host: Host, j: Journal, activation: Option<ActivationFile>)
    returns (r: Outcome<Option<ActivationFile>>)
    requires host.Valid() && host.disk.journal == Some(j) && host.disk.activation == activation
    requires !Settling(host.disk, j) && !j.phase.ServiceStopRequested? && host.disk.running.None?
    modifies host
    ensures host.Valid() && host.Extends(old(host.states), old(host.steps))
    ensures SameArtifacts(old(host.disk), host.disk)
    ensures host.disk.journal == Some(j) && host.disk.running.None?
    ensures Record(host.disk) == Record(old(host.disk)) || Record(host.disk) == j.previousActivation
    ensures r.Returned? ==>
              && host.alive && r.value == host.disk.activation
              && Record(host.disk) == j.previousActivation && PreviousLineage(host.disk, j)
    ensures host.calm && old(host.alive) ==>
              host.alive && (r.Returned? <==> PreviousStillLive(old(host.disk), j) || CanRestore(old(host.disk), j))
    ensures r.Returned? && j.previousDatabase.Present? ==>
              host.disk.live.Some? && host.disk.live.value.image == j.previousDatabase.manifest
  {
    var recovery := InspectRecovery(host, j);
    if recovery.Threw? { return Threw; }
    if recovery.value.Promoted? {
      var ok := RestorePreviousDatabase(host, j, recovery.value.identity, CurrentOf(j.previousActivation));
      if !ok { return Threw; }
    }
    if MatchesCandidate(RecordOf(activation), j) {
      r := ReconcileRollback(host, activation, j.previousActivation);
    } else {
      r := Returned(activation);
    }
  }

  /** Stopping services moves nothing that decides whether a rollback can finish. */
  lemma StopKeepsDecision(a: Disk, b: Disk, j: Journal, unready: set<Artifact>)
    requires Drifted(a, b) && a.live == b.live
    ensures RollbackPossible(a, j, unready) == RollbackPossible(b, j, unready)
    ensures PreviousStillLive(a, j) == PreviousStillLive(b, j) && CanRestore(a, j) == CanRestore(b, j)
  {
  }

  method StopForRollback(host: Host, j: Journal) returns (ok: bool)
    requires host.Valid()
    modifies host
    ensures host.Valid() && host.Extends(old(host.states), old(host.steps))
    ensures SameArtifacts(old(host.disk), host.disk)
    ensures host.disk.journal == old(host.disk).journal && host.disk.activation == old(host.disk).activation
    ensures ok ==> host.alive && host.disk.running.None?
    ensures host.calm ==> host.disk.live == old(host.disk).live
    ensures host.calm && old(host.alive) ==> ok
    ensures host.calm ==>
              && RollbackPossible(host.disk, j, host.unready) == RollbackPossible(old(host.disk), j, host.unready)
              && PreviousStillLive(host.disk, j) == PreviousStillLive(old(host.disk), j)
              && CanRestore(host.disk, j) == CanRestore(old(host.disk), j)
  {
    ok := host.StopServices();
    if host.calm {
      StopKeepsDecision(old(host.disk), host.disk, j, host.unready);
    }
  }

  method RollbackTransition(host: Host, j: Journal, activation: Option<ActivationFile>)
    returns (r: Outcome<Option<ActivationFile>>)
    requires host.Valid() && host.disk.journal == Some(j) && host.disk.activation == activation
    requires !Settling(host.disk, j)
    modifies host
    ensures host.Valid() && host.Extends(old(host.states), old(host.steps))
    ensures SameArtifacts(old(host.disk), host.disk)
    ensures IdleIsRunning(host.disk)
    ensures Record(host.disk) == Record(old(host.disk)) || Record(host.disk) == j.previousActivation
    ensures r.Returned? ==>
              && host.alive && Ended(host.disk, j)
              && r.value == host.disk.activation && Record(host.disk) == j.previousActivation
              && host.disk.running == CurrentOf(j.previousActivation)
    ensures host.calm && old(host.alive) ==>
              host.alive && (r.Returned? <==> RollbackPossible(old(host.disk), j, host.unready))
    ensures host.calm && r.Returned? ==> DataIsRecovered(old(host.disk), host.disk, j, false)
  {
    var candidateCommitted := MatchesCandidate(RecordOf(activation), j);
    var previousAuthoritative := RecordsEqual(RecordOf(activation), j.previousActivation);
    if j.phase.ServiceStopRequested? && (candidateCommitted || !previousAuthoritative) { return Threw; }
    if !candidateCommitted && !previousAuthoritative { return Threw; }

    var previous := CurrentOf(j.previousActivation);
    if previous.Some? {
      var loaded := host.LoadArtifacts(previous.value);
      if !loaded { return Threw; }
    }
    var ok := StopForRollback(host, j);
    if !ok { return Threw; }
    if !j.phase.ServiceStopRequested? {
      r := RestoreRecorded(host, j, activation);
      if r.Threw? { return; }
    }
    r := Returned(host.disk.activation);
    ok := FinishRollback(host, j, previous);
    if !ok { return Threw; }
  }

  /** Forward: bring the committed candidate up, then drop the workspace and the journal. */
  method SettleCommitted(host: Host, j: Journal) returns (ok: bool)
    requires host.Valid() && host.disk.journal == Some(j) && Settling(host.disk, j)
    modifies host
    ensures host.Valid() && host.Extends(old(host.states), old(host.steps))
    ensures SameArtifacts(old(host.disk), host.disk)
    ensures host.disk.activation == old(host.disk).activation
    ensures host.disk.running == old(host.disk).running
    ensures ok ==> host.alive && Ended(host.disk, j)
    ensures host.calm ==> host.disk.live == old(host.disk).live
    ensures host.calm && old(host.alive) ==> ok
  {
    ok := host.Settle();
    if !ok { return; }
    ok := host.DiscardWorkspace(j.transitionId);
    if !ok { return; }
    host.Serve();
    ok := host.ClearJournal(j);
    host.Serve();
  }

  /** Restarts the committed candidate; does it come up? */
  method BringUpCandidate(host: Host, j: Journal) returns (ok: bool)
    requires host.Valid() && host.disk.journal == Some(j) && Settling(host.disk, j)
    modifies host
    ensures host.Valid() && host.Extends(old(host.states), old(host.steps))
    ensures SameArtifacts(old(host.disk), host.disk)
    ensures Drifted(old(host.disk), host.disk)
    ensures ok ==> host.alive && host.disk.running == Some(j.candidate)
    ensures host.calm ==> host.disk.live == old(host.disk).live
    ensures host.calm && old(host.alive) ==> host.alive && ok == (j.candidate !in host.unready)
  {
    ok := host.PrepareAndStartServices(j.candidate);
    if ok {
      ok := host.VerifyReady(j.candidate);
    }
  }

  /** A candidate that does not come up again: rollback-required becomes durable, then the rollback runs. */
  method TurnBack(host: Host, j: Journal, activation: Option<ActivationFile>)
    returns (r: Outcome<Option<ActivationFile>>)
    requires host.Valid() && host.disk.journal == Some(j) && host.disk.activation == activation
    requires j.phase.DatabasePromoted?
    modifies host
    ensures host.Valid() && host.Extends(old(host.states), old(host.steps))
    ensures SameArtifacts(old(host.disk), host.disk)
    ensures IdleIsRunning(host.disk)
    ensures Record(host.disk) == Record(old(host.disk)) || Record(host.disk) == j.previousActivation
    ensures r.Returned? ==>
              && host.alive && Ended(host.disk, j)
              && r.value == host.disk.activation && Record(host.disk) == j.previousActivation
              && host.disk.running == CurrentOf(j.previousActivation)
    ensures host.calm && old(host.alive) ==>
              host.alive && (r.Returned? <==> RollbackPossible(old(host.disk), j, host.unready))
    ensures host.calm && r.Returned? ==> DataIsRecovered(old(host.disk), host.disk, j, false)
  {
    var rollback := j.(phase := RollbackRequired);
    var ok := host.MarkJournal(j, rollback);
    if !ok { return Threw; }
    r := RollbackTransition(host, rollback, activation);
  }

  /** Recovery of a committed candidate: forward if it comes up, else back. */
  method SettleOrRollBack(host: Host, j: Journal, activation: Option<ActivationFile>)
    returns (r: Outcome<Option<ActivationFile>>)
    requires host.Valid() && host.disk.journal == Some(j) && host.disk.activation == activation
    requires Settling(host.disk, j)
    modifies host
    ensures host.Valid() && host.Extends(old(host.states), old(host.steps))
    ensures SameArtifacts(old(host.disk), host.disk)
    ensures IdleIsRunning(host.disk)
    ensures Record(host.disk) == Record(old(host.disk)) || Record(host.disk) == j.previousActivation
    ensures r.Returned? ==>
              && host.alive && Ended(host.disk, j) && r.value == host.disk.activation
              && host.disk.running == CurrentOf(Record(host.disk))
              && (Record(host.disk) == RecordOf(activation) || Record(host.disk) == j.previousActivation)
    ensures host.calm && old(host.alive) ==> host.alive
    ensures host.calm && old(host.alive) && j.candidate !in host.unready ==>
              r.Returned? && Record(host.disk) == RecordOf(activation) && host.disk.live == old(host.disk).live
    ensures host.calm && old(host.alive) && j.candidate in host.unready ==>
              && (r.Returned? <==> RollbackPossible(old(host.disk), j, host.unready))
              && (r.Returned? ==> Record(host.disk) == j.previousActivation)
              && (r.Returned? ==> DataIsRecovered(old(host.disk), host.disk, j, false))
  {
    var ok := host.LoadArtifacts(activation.value.record.current);
    if !ok { return Threw; }
    ghost var before := host.disk;
    ok := BringUpCandidate(host, j);
    if !ok {
      if host.calm {
        StopKeepsDecision(before, host.disk, j, host.unready);
      }
      r := TurnBack(host, j, activation);
      return;
    }
    ok := SettleCommitted(host, j);
    if !ok { return Threw; }
    return Returned(activation);
  }

  method RecoverExistingTransition(host: Host) returns (r: Outcome<Option<ActivationFile>>)
    requires host.Valid()
    modifies host
    ensures host.Valid() && host.Extends(old(host.states), old(host.steps))
    ensures SameArtifacts(old(host.disk), host.disk)
    ensures r.Returned? ==>
              host.alive && host.disk.journal.None? && r.value == host.disk.activation
    ensures Record(host.disk) == Record(old(host.disk)) ||
            (old(host.disk).journal.Some? && Record(host.disk) == old(host.disk).journal.value.previousActivation)
    ensures old(host.disk).journal.None? ==> host.disk == old(host.disk)
    ensures old(host.disk).journal.Some? ==> IdleIsRunning(host.disk)
    ensures r.Returned? && old(host.disk).journal.Some? ==> Ended(host.disk, old(host.disk).journal.value)
    ensures host.calm && old(host.alive) ==>
              host.alive && (r.Returned? <==> RecoveryPossible(old(host.disk), host.unready))
    ensures host.calm && r.Returned? ==> Record(host.disk) == RecoveryTarget(old(host.disk), host.unready)
    ensures host.calm && r.Returned? && old(host.disk).journal.Some? ==>
              DataIsRecovered(old(host.disk), host.disk, old(host.disk).journal.value,
                              KeepsCandidate(old(host.disk), host.unready))
  {
    var read, journal := host.LoadJournal();
    if !read { return Threw; }
    var loaded, activation := host.LoadActivation();
    if !loaded { return Threw; }
    if journal.None? { return Returned(activation); }
    var j := journal.value;
    if MatchesCandidate(RecordOf(activation), j) && !j.phase.RollbackRequired? {
      if !j.phase.DatabasePromoted? || activation.None? { return Threw; }
      r := SettleOrRollBack(host, j, activation);
      return;
    }
    r := RollbackTransition(host, j, activation);
  }
}
