/**
 Safety of whole runs: any number of activations and recoveries, with a crash between any two
 durable writes, is one sequence of enabled actions.
 */
module ActivationRuns {
  import opened Outcomes
  import opened ActivationRecords
  import opened ActivationProtocol

  ghost predicate IsRun(states: seq<Disk>, steps: seq<Action>) {
    && |states| == |steps| + 1
    && Invariant(states[0])
    && forall i :: 0 <= i < |steps| ==> StepAt(states, steps, i)
  }

  ghost predicate StepAt(states: seq<Disk>, steps: seq<Action>, i: nat)
    requires |states| == |steps| + 1 && i < |steps|
  {
    Enabled(states[i], steps[i]) && states[i + 1] == Apply(states[i], steps[i])
  }

  /** Between two journals the disk names one release: every reachable idle state is paired. */
  lemma {:induction false} RunKeepsInvariant(states: seq<Disk>, steps: seq<Action>, k: nat)
    requires IsRun(states, steps) && k < |states|
    ensures Invariant(states[k])
    ensures states[k].journal.None? ==> Paired(states[k])
  {
    if k > 0 {
      RunKeepsInvariant(states, steps, k - 1);
      assert StepAt(states, steps, k - 1);
      StepKeepsInvariant(states[k - 1], steps[k - 1]);
    }
  }

  /** One step on the record: it changes only by a commit or a restore under the journal. */
  lemma StepOnRecord(d: Disk, step: Action)
    requires Enabled(d, step)
    ensures step.CommitRecord? || step.RestoreRecord? || Record(Apply(d, step)) == Record(d)
  {
  }

  lemma CommitOrRestore(d: Disk, step: Action)
    requires Invariant(d) && Enabled(d, step) && (step.CommitRecord? || step.RestoreRecord?)
    ensures d.journal.Some? && Apply(d, step).journal == d.journal
    ensures var j := d.journal.value;
      || (step.CommitRecord? && j.phase.DatabasePromoted? && Record(d) == j.previousActivation &&
          Record(Apply(d, step)) == Some(CommittedRecord(j)))
      || (step.RestoreRecord? && j.phase.RollbackRequired? && Record(d) == Some(CommittedRecord(j)) &&
          Record(Apply(d, step)) == j.previousActivation)
  {
  }

  /**
   The activation record changes only under a journal: forward to the journal's candidate in
   phase database-promoted, or back to the recorded predecessor in phase rollback-required.
   */
  lemma RecordChangesOnlyUnderItsJournal(states: seq<Disk>, steps: seq<Action>, i: nat)
    requires IsRun(states, steps) && i < |steps|
    requires Record(states[i]) != Record(states[i + 1])
    ensures states[i].journal.Some? && states[i + 1].journal == states[i].journal
    ensures var j := states[i].journal.value;
      || (j.phase.DatabasePromoted? && Record(states[i]) == j.previousActivation &&
          Record(states[i + 1]) == Some(CommittedRecord(j)))
      || (j.phase.RollbackRequired? && Record(states[i]) == Some(CommittedRecord(j)) &&
          Record(states[i + 1]) == j.previousActivation)
  {
    RunKeepsInvariant(states, steps, i);
    assert StepAt(states, steps, i);
    StepOnRecord(states[i], steps[i]);
    CommitOrRestore(states[i], steps[i]);
  }

  /** One step on the journal: only creation makes it appear, and then its identity stays. */
  lemma StepOnJournal(d: Disk, step: Action)
    requires Enabled(d, step) && Apply(d, step).journal.Some?
    ensures d.journal.None? ==>
              step.CreateJournal? && Apply(d, step).journal.value.transitionId == step.journal.transitionId
    ensures d.journal.Some? ==>
      && !step.CreateJournal?
      && Apply(d, step).journal.value.transitionId == d.journal.value.transitionId
      && Apply(d, step).journal.value.previousActivation == d.journal.value.previousActivation
      && (!d.journal.value.phase.ServiceStopRequested? ==>
            !Apply(d, step).journal.value.phase.ServiceStopRequested? &&
            Apply(d, step).journal.value.previousDatabase == d.journal.value.previousDatabase)
  {
  }

  lemma StepKeepsPublished(d: Disk, step: Action, a: Artifact)
    requires Enabled(d, step) && d.journal.Some? && Published(d, a)
    ensures Published(Apply(d, step), a)
  {
  }

  /** The creation of the journal present in state k, and no later creation or removal. */
  lemma {:induction false} JournalCreation(states: seq<Disk>, steps: seq<Action>, k: nat) returns (c: nat)
    requires IsRun(states, steps) && k < |states|
    requires states[0].journal.None? && states[k].journal.Some?
    ensures c < k && steps[c].CreateJournal?
    ensures forall m :: c < m <= k ==>
              states[m].journal.Some? && states[m].journal.value.transitionId == steps[c].journal.transitionId
  {
    var before := states[k - 1];
    var step := steps[k - 1];
    assert StepAt(states, steps, k - 1);
    StepOnJournal(before, step);
    if before.journal.None? {
      c := k - 1;
    } else {
      c := JournalCreation(states, steps, k - 1);
    }
  }

  lemma {:induction false} ReadinessAfterCreation(states: seq<Disk>, steps: seq<Action>, c: nat, k: nat)
    returns (p: nat)
    requires IsRun(states, steps) && c < k < |states| && steps[c].CreateJournal?
    requires steps[c].journal.transitionId in states[k].ready
    ensures c < p < k && steps[p] == PassReadiness(steps[c].journal.transitionId)
  {
    assert StepAt(states, steps, k - 1);
    if steps[k - 1] == PassReadiness(steps[c].journal.transitionId) {
      p := k - 1;
      assert k - 1 != c;
    } else {
      p := ReadinessAfterCreation(states, steps, c, k - 1);
    }
  }

  lemma {:induction false} SmokeAfterCreation(states: seq<Disk>, steps: seq<Action>, c: nat, k: nat) returns (s: nat)
    requires IsRun(states, steps) && c < k < |states| && steps[c].CreateJournal?
    requires steps[c].journal.transitionId in states[k].smoked
    ensures c < s < k && steps[s] == PassSmoke(steps[c].journal.transitionId)
  {
    assert StepAt(states, steps, k - 1);
    if steps[k - 1] == PassSmoke(steps[c].journal.transitionId) {
      s := k - 1;
      assert k - 1 != c;
    } else {
      s := SmokeAfterCreation(states, steps, c, k - 1);
    }
  }

  /**
   A candidate becomes authoritative only inside one transition: its journal was created, its
   readiness and its smoke test passed after that, and the journal was never absent between.
   */
  lemma CommitFollowsItsChecks(states: seq<Disk>, steps: seq<Action>, k: nat)
    returns (created: nat, ready: nat, smoked: nat)
    requires IsRun(states, steps) && k < |steps|
    requires states[0].journal.None? && steps[k].CommitRecord?
    ensures created < ready < k && created < smoked < k
    ensures steps[created].CreateJournal? && steps[created].journal.transitionId == steps[k].record.transitionId
    ensures states[k].journal.Some? && steps[k].record == CommittedRecord(states[k].journal.value)
    ensures states[k].journal.value.phase.DatabasePromoted?
    ensures steps[ready] == PassReadiness(steps[k].record.transitionId)
    ensures steps[smoked] == PassSmoke(steps[k].record.transitionId)
    ensures forall m :: created < m <= k ==> states[m].journal.Some?
  {
    assert StepAt(states, steps, k);
    created := JournalCreation(states, steps, k);
    ready := ReadinessAfterCreation(states, steps, created, k);
    smoked := SmokeAfterCreation(states, steps, created, k);
  }

  ghost predicate Abandoned(d: Disk, j: Journal) {
    || d.journal == Some(j)
    || (!MatchesCandidate(Record(d), j) &&
        (d.journal.Some? ==> d.journal.value.transitionId != j.transitionId &&
                             !MatchesCandidate(d.journal.value.previousActivation, j)))
  }

  lemma AbandonedStep(d: Disk, step: Action, j: Journal)
    requires Invariant(d) && Enabled(d, step) && Abandoned(d, j)
    requires j.phase.RollbackRequired?
    requires step.CreateJournal? ==> step.journal.transitionId != j.transitionId
    ensures Abandoned(Apply(d, step), j)
  {
    StepOnRecord(d, step);
    if Apply(d, step).journal.Some? {
      StepOnJournal(d, step);
    }
  }

  lemma {:induction false} AbandonedStays(states: seq<Disk>, steps: seq<Action>, j: Journal, i: nat, k: nat)
    requires IsRun(states, steps) && i <= k < |states|
    requires states[i].journal == Some(j) && j.phase.RollbackRequired?
    requires forall m :: i <= m < k && steps[m].CreateJournal? ==> steps[m].journal.transitionId != j.transitionId
    ensures Abandoned(states[k], j)
  {
    if i < k {
      AbandonedStays(states, steps, j, i, k - 1);
      RunKeepsInvariant(states, steps, k - 1);
      assert StepAt(states, steps, k - 1);
      AbandonedStep(states[k - 1], steps[k - 1], j);
    }
  }

  /**
   Once rollback-required is durable for a transition, no later journal-free state has its
   candidate authoritative, however often recovery crashes, until the identity is used again.
   */
  lemma RollbackIsFinal(states: seq<Disk>, steps: seq<Action>, j: Journal, i: nat, k: nat)
    requires IsRun(states, steps) && i <= k < |states|
    requires states[i].journal == Some(j) && j.phase.RollbackRequired?
    requires forall m :: i <= m < k && steps[m].CreateJournal? ==> steps[m].journal.transitionId != j.transitionId
    requires states[k].journal.None?
    ensures !MatchesCandidate(Record(states[k]), j)
  {
    AbandonedStays(states, steps, j, i, k);
  }

  lemma {:induction false} JournalStays(states: seq<Disk>, steps: seq<Action>, i: nat, k: nat)
    requires IsRun(states, steps) && i <= k < |states|
    requires forall m :: i <= m <= k ==> states[m].journal.Some?
    requires !states[i].journal.value.phase.ServiceStopRequested?
    ensures !states[k].journal.value.phase.ServiceStopRequested?
    ensures states[k].journal.value.transitionId == states[i].journal.value.transitionId
    ensures states[k].journal.value.previousDatabase == states[i].journal.value.previousDatabase
    ensures states[k].journal.value.previousActivation == states[i].journal.value.previousActivation
  {
    if i < k {
      JournalStays(states, steps, i, k - 1);
      assert StepAt(states, steps, k - 1);
      StepOnJournal(states[k - 1], steps[k - 1]);
    }
  }

  /** No published release or runtime disappears while a journal lives. */
  lemma {:induction false} PublishedStays(states: seq<Disk>, steps: seq<Action>, i: nat, k: nat, a: Artifact)
    requires IsRun(states, steps) && i <= k < |states|
    requires forall m :: i <= m <= k ==> states[m].journal.Some?
    requires Published(states[i], a)
    ensures Published(states[k], a)
  {
    if i < k {
      PublishedStays(states, steps, i, k - 1, a);
      assert StepAt(states, steps, k - 1);
      StepKeepsPublished(states[k - 1], steps[k - 1], a);
    }
  }

  /**
   While one journal lives, the snapshot it restores from keeps its data and the release it
   restores to stays published.
   */
  lemma RestoreSourcesSurvive(states: seq<Disk>, steps: seq<Action>, i: nat, k: nat)
    requires IsRun(states, steps) && i <= k < |states|
    requires forall m :: i <= m <= k ==> states[m].journal.Some?
    requires states[i].journal.value.previousDatabase.Present?
    ensures var j := states[i].journal.value;
      && j.transitionId in states[k].snapshots
      && states[k].snapshots[j.transitionId] == j.previousDatabase.manifest
      && j.previousActivation.Some?
      && Published(states[k], j.previousActivation.value.current)
  {
    RunKeepsInvariant(states, steps, i);
    JournalStays(states, steps, i, k);
    RunKeepsInvariant(states, steps, k);
  }

  // ---------------------------------------------------------------- service writes

  /** Under a journal the record is the journal's candidate exactly if it is the record it commits. */
  lemma CommittedMeansItsRecord(d: Disk)
    requires Invariant(d) && d.journal.Some?
    ensures Committed(d, d.journal.value) <==> Record(d) == Some(CommittedRecord(d.journal.value))
    ensures !Committed(d, d.journal.value) ==> Record(d) == d.journal.value.previousActivation
  {
  }

  /**
   Only services make data: any other step leaves the live contents as they are or puts those of a
   snapshot there, and only where the journal records that there was no database does it remove them.
   */
  lemma StepKeepsData(d: Disk, step: Action)
    requires Invariant(d) && Enabled(d, step) && d.live.Some? && !step.ServiceWrite?
    ensures var after := Apply(d, step).live;
      || (after.Some? && after.value.image.contents == d.live.value.image.contents)
      || (after.Some? && d.journal.Some? && d.journal.value.previousDatabase.Present? &&
          HeldBySnapshot(d, after.value.image.owner.releaseId, after.value.image.contents))
      || (after.None? && d.journal.Some? && d.journal.value.previousDatabase.Absent?)
  {
    if step.RestoreDatabase? {
      var j := d.journal.value;
      assert d.snapshots[j.transitionId] == j.previousDatabase.manifest;
    }
  }

  /** The writes made while services may be running, other than the commit itself. */
  predicate LeavesDatabaseAlone(step: Action) {
    || step.CreateJournal? || (step.AdvanceJournal? && step.next.phase.RollbackRequired?) || step.ClearJournal?
    || step.EmptyCandidate? || step.RemoveCandidateDirectory? || step.RemoveWorkspace?
    || step.RemoveSnapshot? || step.RemoveRelease? || step.RemoveRuntime? || step.PublishRelease?
    || step.InstallRuntime?
    || step.PassReadiness? || step.PassSmoke?
  }

  /**
   A service write before such a write or after it makes no difference: both orders are allowed
   and end in one disk. A sequence of them therefore needs service writes only at its ends.
   */
  lemma ServiceWritesCommute(d: Disk, step: Action)
    requires LeavesDatabaseAlone(step) && Enabled(d, step) && Enabled(d, ServiceWrite)
    ensures Enabled(Apply(d, ServiceWrite), step) && Enabled(Apply(d, step), ServiceWrite)
    ensures Apply(Apply(d, ServiceWrite), step) == Apply(Apply(d, step), ServiceWrite)
  {
  }
}
