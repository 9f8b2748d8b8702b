/**
 The disk of one production host as a state machine. Every action is one durable write (a
 rename, unlink, directory change or fsynced file) or one change of the running services;
 a crash or a thrown error may fall between any two actions. The guards are what the
 activation code has established when it makes the write; ReleaseActivation.dfy proves that
 the code makes no other write.
 */
module ActivationProtocol {
  import opened Outcomes
  import opened ActivationRecords

  /** The private transition directory, before and after its candidate directory exists. */
  datatype Workspace = Bare | WithCandidate(database: Option<DatabaseFile>)

  datatype Disk = Disk(
    journal: Option<Journal>,
    activation: Option<ActivationFile>,
    live: Option<DatabaseFile>,
    workspaces: map<nat, Workspace>,
    snapshots: map<nat, Image>,
    releases: map<nat, nat>,
    runtimes: set<nat>,
    running: Option<Artifact>,
    ready: set<nat>,
    smoked: set<nat>,
    clock: nat)

  datatype Action =
    | CreateJournal(journal: Journal)
    | AdvanceJournal(next: Journal)
    | ClearJournal
    | CommitRecord(record: ActivationRecord)
    | RestoreRecord(previous: Option<ActivationRecord>)
    | TakeSnapshot(id: nat)
    | RemoveSnapshot(id: nat)
    | MakeWorkspace(id: nat)
    | MakeCandidateDirectory(id: nat)
    | WriteCandidate(id: nat, image: Image)
    | EmptyCandidate(id: nat)
    | RemoveCandidateDirectory(id: nat)
    | RemoveWorkspace(id: nat)
    | Promote(id: nat)
    | RestoreDatabase(id: nat)
    | RemoveDatabase
    | StartServices(artifact: Artifact)
    | StopServices
    | ServiceWrite
    | PassReadiness(id: nat)
    | PassSmoke(id: nat)
    | PublishRelease(artifact: Artifact)
    | InstallRuntime(revision: nat)
    | RemoveRelease(releaseId: nat)
    | RemoveRuntime(revision: nat)

  function Record(d: Disk): Option<ActivationRecord> {
    RecordOf(d.activation)
  }

  predicate Published(d: Disk, artifact: Artifact) {
    && artifact.releaseId in d.releases
    && d.releases[artifact.releaseId] == artifact.runtimeRevision
    && artifact.runtimeRevision in d.runtimes
  }

  /** Every published release has its runtime installed. */
  predicate Complete(d: Disk) {
    forall id :: id in d.releases ==> d.releases[id] in d.runtimes
  }

  predicate Committed(d: Disk, j: Journal) {
    MatchesCandidate(Record(d), j)
  }

  /** The forward half of recovery: the candidate is authoritative and no rollback was asked for. */
  predicate Settling(d: Disk, j: Journal) {
    Committed(d, j) && j.phase.DatabasePromoted?
  }

  predicate CandidateLive(d: Disk, j: Journal) {
    d.live.Some? && d.live.value.image.owner == j.candidate
  }

  /** The live entry has the lineage the journal calls previous. */
  predicate PreviousLineage(d: Disk, j: Journal) {
    match CurrentOf(j.previousActivation)
    case None => d.live.None?
    case Some(owner) => d.live.Some? && d.live.value.image.owner == owner
  }

  /** The test of `inspectDatabaseTransitionRecovery`: was the live entry never replaced? */
  predicate PreviousStillLive(d: Disk, j: Journal) {
    match j.previousDatabase
    case Unrecorded => false
    case Absent => d.live.None?
    case Present(_, source) => d.live.Some? && d.live.value.identity == source
  }

  predicate HasCandidateDirectory(d: Disk, id: nat) {
    id in d.workspaces && d.workspaces[id].WithCandidate?
  }

  /** A journal must not lose the workspace while the live database is an uncommitted candidate. */
  predicate MayDiscard(d: Disk, id: nat) {
    d.journal.Some? && d.journal.value.transitionId == id && !d.journal.value.phase.ServiceStopRequested?
    ==> Settling(d, d.journal.value) || PreviousLineage(d, d.journal.value)
  }

  /** Some snapshot of the release holds this data. */
  predicate HeldBySnapshot(d: Disk, releaseId: nat, contents: nat) {
    exists id :: id in d.snapshots && d.snapshots[id].owner.releaseId == releaseId &&
                 d.snapshots[id].contents == contents
  }

  /** The candidate database holds the recorded data, or that of a snapshot of the candidate's release. */
  predicate CarriesData(d: Disk, j: Journal, image: Image) {
    match j.previousDatabase
    case Unrecorded => false
    case Absent => true
    case Present(manifest, _) =>
      image.contents == manifest.contents || HeldBySnapshot(d, j.candidate.releaseId, image.contents)
  }

  function SnapshotReferences(record: Option<ActivationRecord>): set<nat> {
    if record.None? then {}
    else {record.value.transitionId} +
         (if record.value.previous.Some? then {record.value.previous.value.snapshotId} else {})
  }

  function ReleaseReferences(record: Option<ActivationRecord>): set<nat> {
    if record.None? then {}
    else {record.value.current.releaseId} +
         (if record.value.previous.Some? then {record.value.previous.value.artifact.releaseId} else {})
  }

  function RuntimeReferences(record: Option<ActivationRecord>): set<nat> {
    if record.None? then {}
    else {record.value.current.runtimeRevision} +
         (if record.value.previous.Some? then {record.value.previous.value.artifact.runtimeRevision} else {})
  }

  /** Equal in everything but the phase. */
  predicate SameTransition(a: Journal, b: Journal) {
    a.(phase := b.phase) == b
  }

  predicate JournalCanAdvance(d: Disk, j: Journal, next: Journal) {
    match next.phase
    case ServiceStopRequested => false
    case Prepared =>
      && j.phase.ServiceStopRequested?
      && next == j.(phase := Prepared, previousDatabase := next.previousDatabase)
      && d.running.None?
      && (match next.previousDatabase
          case Unrecorded => false
          case Absent => j.previousActivation.None? && d.live.None?
          case Present(manifest, source) =>
            && j.previousActivation.Some?
            && manifest.owner == j.previousActivation.value.current
            && j.transitionId in d.snapshots && d.snapshots[j.transitionId] == manifest
            && d.live == Some(DatabaseFile(source, manifest)))
    case DatabasePromoted =>
      j.phase.Prepared? && SameTransition(j, next) && CandidateLive(d, j)
    case RollbackRequired =>
      j.phase.DatabasePromoted? && SameTransition(j, next)
  }

  predicate Enabled(d: Disk, action: Action) {
    match action
    case CreateJournal(j) =>
      && d.journal.None?
      && j == JournalFor(j.transitionId, Record(d), j.candidate)
      && CurrentOf(Record(d)) != Some(j.candidate)
      && Published(d, j.candidate)
    case AdvanceJournal(next) =>
      d.journal.Some? && JournalCanAdvance(d, d.journal.value, next)
    case ClearJournal =>
      && d.journal.Some?
      && (Settling(d, d.journal.value) ||
          (Record(d) == d.journal.value.previousActivation && PreviousLineage(d, d.journal.value)))
    case CommitRecord(record) =>
      && d.journal.Some? && d.journal.value.phase.DatabasePromoted?
      && Record(d) == d.journal.value.previousActivation
      && record == CommittedRecord(d.journal.value)
      && CandidateLive(d, d.journal.value)
      && record.transitionId in d.ready && record.transitionId in d.smoked
    case RestoreRecord(previous) =>
      && d.journal.Some? && d.journal.value.phase.RollbackRequired?
      && Committed(d, d.journal.value)
      && previous == d.journal.value.previousActivation
      && PreviousLineage(d, d.journal.value)
    case TakeSnapshot(id) =>
      && d.journal.Some? && d.journal.value.transitionId == id && d.journal.value.phase.ServiceStopRequested?
      && id !in d.snapshots && d.live.Some? && d.running.None?
    case RemoveSnapshot(id) =>
      && id !in SnapshotReferences(Record(d))
      && (d.journal.Some? ==> d.journal.value.transitionId == id && d.journal.value.phase.ServiceStopRequested?)
    case MakeWorkspace(id) =>
      && d.journal.Some? && d.journal.value.transitionId == id && d.journal.value.phase.Prepared?
      && id !in d.workspaces && PreviousStillLive(d, d.journal.value) && d.running.None?
    case MakeCandidateDirectory(id) =>
      && d.journal.Some? && d.journal.value.transitionId == id && d.journal.value.phase.Prepared?
      && id in d.workspaces && d.workspaces[id].Bare?
      && PreviousStillLive(d, d.journal.value) && d.running.None?
    case WriteCandidate(id, _) => HasCandidateDirectory(d, id)
    case EmptyCandidate(id) => HasCandidateDirectory(d, id)
    case RemoveCandidateDirectory(id) => HasCandidateDirectory(d, id) && MayDiscard(d, id)
    case RemoveWorkspace(id) => id in d.workspaces && d.workspaces[id].Bare? && MayDiscard(d, id)
    case Promote(id) =>
      && d.journal.Some? && d.journal.value.transitionId == id && d.journal.value.phase.Prepared?
      && HasCandidateDirectory(d, id) && d.workspaces[id].database.Some?
      && d.workspaces[id].database.value.image.owner == d.journal.value.candidate
      && CarriesData(d, d.journal.value, d.workspaces[id].database.value.image)
      && PreviousStillLive(d, d.journal.value) && d.running.None?
    case RestoreDatabase(id) =>
      && d.journal.Some? && d.journal.value.transitionId == id && !Settling(d, d.journal.value)
      && d.journal.value.previousDatabase.Present?
      && HasCandidateDirectory(d, id) && d.workspaces[id].database.Some?
      && d.workspaces[id].database.value.image == d.journal.value.previousDatabase.manifest
      && d.running.None?
    case RemoveDatabase =>
      && d.journal.Some? && !Settling(d, d.journal.value)
      && d.journal.value.previousDatabase.Absent? && d.running.None?
    case StartServices(_) => true  // the delivery executor restarts by the record alone
    case StopServices => true
    case ServiceWrite => d.running.Some? && d.live.Some?
    case PassReadiness(id) =>
      && d.journal.Some? && d.journal.value.transitionId == id && d.journal.value.phase.DatabasePromoted?
      && d.running == Some(d.journal.value.candidate)
    case PassSmoke(id) =>
      && d.journal.Some? && d.journal.value.transitionId == id && d.journal.value.phase.DatabasePromoted?
      && d.running == Some(d.journal.value.candidate) && id in d.ready
    case PublishRelease(artifact) => artifact.releaseId !in d.releases
    case InstallRuntime(_) => true
    case RemoveRelease(releaseId) =>
      d.journal.None? && releaseId !in ReleaseReferences(Record(d))
    case RemoveRuntime(revision) =>
      d.journal.None? && revision !in RuntimeReferences(Record(d))
  }

  function Apply(d: Disk, action: Action): Disk {
    match action
    case CreateJournal(j) =>
      d.(journal := Some(j), ready := d.ready - {j.transitionId}, smoked := d.smoked - {j.transitionId})
    case AdvanceJournal(next) => d.(journal := Some(next))
    case ClearJournal => d.(journal := None)
    case CommitRecord(record) => d.(activation := Some(ActivationFile(record, d.clock)), clock := d.clock + 1)
    case RestoreRecord(previous) =>
      d.(activation := if previous.Some? then Some(ActivationFile(previous.value, d.clock)) else None,
         clock := d.clock + 1)
    case TakeSnapshot(id) =>
      // Checkpointing the source gives it new times; its data is what the snapshot holds.
      if d.live.None? then d else
      d.(snapshots := d.snapshots[id := d.live.value.image],
         live := Some(d.live.value.(identity := d.live.value.identity.(stamp := d.clock))),
         clock := d.clock + 1)
    case RemoveSnapshot(id) => d.(snapshots := d.snapshots - {id})
    case MakeWorkspace(id) => d.(workspaces := d.workspaces[id := Bare])
    case MakeCandidateDirectory(id) => d.(workspaces := d.workspaces[id := WithCandidate(None)])
    case WriteCandidate(id, image) =>
      d.(workspaces := d.workspaces[id := WithCandidate(
                         Some(DatabaseFile(FileIdentity(d.clock, d.clock), image)))],
         clock := d.clock + 1)
    case EmptyCandidate(id) => d.(workspaces := d.workspaces[id := WithCandidate(None)])
    case RemoveCandidateDirectory(id) => d.(workspaces := d.workspaces[id := Bare])
    case RemoveWorkspace(id) => d.(workspaces := d.workspaces - {id})
    case Promote(id) => MoveCandidateLive(d, id)
    case RestoreDatabase(id) => MoveCandidateLive(d, id)
    case RemoveDatabase => d.(live := None)
    case StartServices(artifact) => d.(running := Some(artifact))
    case StopServices => d.(running := None)
    case ServiceWrite =>
      if d.live.None? then d else
      d.(live := Some(DatabaseFile(d.live.value.identity.(stamp := d.clock),
                                   d.live.value.image.(contents := d.clock))),
         clock := d.clock + 1)
    case PassReadiness(id) => d.(ready := d.ready + {id})
    case PassSmoke(id) => d.(smoked := d.smoked + {id})
    case PublishRelease(artifact) => d.(releases := d.releases[artifact.releaseId := artifact.runtimeRevision])
    case InstallRuntime(revision) => d.(runtimes := d.runtimes + {revision})
    case RemoveRelease(releaseId) => d.(releases := d.releases - {releaseId})
    case RemoveRuntime(revision) => d.(runtimes := d.runtimes - {revision})
  }

  /** The rename that replaces the live entry: same file object, new times. */
  function MoveCandidateLive(d: Disk, id: nat): Disk {
    if HasCandidateDirectory(d, id) && d.workspaces[id].database.Some? then
      var file := d.workspaces[id].database.value;
      d.(live := Some(file.(identity := file.identity.(stamp := d.clock))),
         workspaces := d.workspaces[id := WithCandidate(None)],
         clock := d.clock + 1)
    else d
  }

  /** With no journal, the live database and the activation record name the same release. */
  predicate Paired(d: Disk) {
    match CurrentOf(Record(d))
    case None => d.live.None?
    case Some(owner) => d.live.Some? && d.live.value.image.owner == owner
  }

  /** The releases and the snapshot that a record can be run from and rolled back to are on disk. */
  predicate Retained(d: Disk, record: Option<ActivationRecord>) {
    record.Some? ==>
      && Published(d, record.value.current)
      && (record.value.previous.Some? ==>
            var previous := record.value.previous.value;
            && Published(d, previous.artifact)
            && previous.snapshotId in d.snapshots
            && d.snapshots[previous.snapshotId].owner == previous.artifact)
  }

  predicate RecordMatchesJournal(d: Disk, j: Journal) {
    || Record(d) == j.previousActivation
    || (Record(d) == Some(CommittedRecord(j)) && (j.phase.DatabasePromoted? || j.phase.RollbackRequired?)
        && j.transitionId in d.ready && j.transitionId in d.smoked)
  }

  /** The restore source recorded by the journal is the one on disk. */
  predicate SnapshotMatchesJournal(d: Disk, j: Journal) {
    match j.previousDatabase
    case Unrecorded => j.phase.ServiceStopRequested?
    case Absent => j.previousActivation.None? && !j.phase.ServiceStopRequested?
    case Present(manifest, source) =>
      && !j.phase.ServiceStopRequested?
      && j.previousActivation.Some? && manifest.owner == j.previousActivation.value.current
      && j.transitionId in d.snapshots && d.snapshots[j.transitionId] == manifest
      && source.stamp < d.clock
  }

  /** What the live database can be while the journal exists. */
  predicate LiveMatchesJournal(d: Disk, j: Journal) {
    && (PreviousLineage(d, j) || CandidateLive(d, j))
    && (j.phase.ServiceStopRequested? ==> PreviousLineage(d, j))
    && (Settling(d, j) ==> CandidateLive(d, j))
    && (PreviousStillLive(d, j) ==> PreviousLineage(d, j))
    && (CandidateLive(d, j) && !Committed(d, j) ==> HasCandidateDirectory(d, j.transitionId))
    && (j.previousDatabase.Present? && PreviousStillLive(d, j) ==>
          d.live.value.image == j.previousDatabase.manifest)
  }

  predicate JournalInvariant(d: Disk, j: Journal) {
    && CurrentOf(j.previousActivation) != Some(j.candidate)
    && Published(d, j.candidate)
    && Retained(d, j.previousActivation)
    && RecordMatchesJournal(d, j)
    && SnapshotMatchesJournal(d, j)
    && LiveMatchesJournal(d, j)
  }

  predicate Invariant(d: Disk) {
    && (d.live.Some? ==> d.live.value.identity.stamp < d.clock)
    && Retained(d, Record(d))
    && match d.journal
       case None => Paired(d)
       case Some(j) => JournalInvariant(d, j)
  }

  lemma JournalStepKeepsInvariant(d: Disk, action: Action)
    requires Invariant(d) && Enabled(d, action)
    requires action.CreateJournal? || action.AdvanceJournal? || action.ClearJournal?
    ensures Invariant(Apply(d, action))
  {
  }

  lemma RecordStepKeepsInvariant(d: Disk, action: Action)
    requires Invariant(d) && Enabled(d, action)
    requires action.CommitRecord? || action.RestoreRecord?
    ensures Invariant(Apply(d, action))
  {
  }

  lemma SnapshotStepKeepsInvariant(d: Disk, action: Action)
    requires Invariant(d) && Enabled(d, action)
    requires action.TakeSnapshot? || action.RemoveSnapshot?
    ensures Invariant(Apply(d, action))
  {
  }

  lemma WorkspaceStepKeepsInvariant(d: Disk, action: Action)
    requires Invariant(d) && Enabled(d, action)
    requires action.MakeWorkspace? || action.MakeCandidateDirectory? || action.WriteCandidate? ||
             action.EmptyCandidate? || action.RemoveCandidateDirectory? || action.RemoveWorkspace?
    ensures Invariant(Apply(d, action))
  {
  }

  lemma DatabaseStepKeepsInvariant(d: Disk, action: Action)
    requires Invariant(d) && Enabled(d, action)
    requires action.Promote? || action.RestoreDatabase? || action.RemoveDatabase?
    ensures Invariant(Apply(d, action))
  {
  }

  lemma StartAndStopKeepInvariant(d: Disk, action: Action)
    requires Invariant(d) && Enabled(d, action)
    requires action.StartServices? || action.StopServices?
    ensures Invariant(Apply(d, action))
  {
  }

  lemma ServiceStepKeepsInvariant(d: Disk, action: Action)
    requires Invariant(d) && Enabled(d, action)
    requires action.ServiceWrite? || action.PassReadiness? || action.PassSmoke?
    ensures Invariant(Apply(d, action))
  {
  }

  lemma ArtifactStepKeepsInvariant(d: Disk, action: Action)
    requires Invariant(d) && Enabled(d, action)
    requires action.PublishRelease? || action.InstallRuntime? || action.RemoveRelease? || action.RemoveRuntime?
    ensures Invariant(Apply(d, action))
  {
  }

  /** Every durable write of the protocol keeps the invariant. */
  lemma StepKeepsInvariant(d: Disk, action: Action)
    requires Invariant(d) && Enabled(d, action)
    ensures Invariant(Apply(d, action))
  {
    if action.CreateJournal? || action.AdvanceJournal? || action.ClearJournal? {
      JournalStepKeepsInvariant(d, action);
    } else if action.CommitRecord? || action.RestoreRecord? {
      RecordStepKeepsInvariant(d, action);
    } else if action.TakeSnapshot? || action.RemoveSnapshot? {
      SnapshotStepKeepsInvariant(d, action);
    } else if action.Promote? || action.RestoreDatabase? || action.RemoveDatabase? {
      DatabaseStepKeepsInvariant(d, action);
    } else if action.PublishRelease? || action.InstallRuntime? || action.RemoveRelease? || action.RemoveRuntime? {
      ArtifactStepKeepsInvariant(d, action);
    } else if action.StartServices? || action.StopServices? {
      StartAndStopKeepInvariant(d, action);
    } else if action.ServiceWrite? || action.PassReadiness? || action.PassSmoke? {
      ServiceStepKeepsInvariant(d, action);
    } else {
      WorkspaceStepKeepsInvariant(d, action);
    }
  }
}
