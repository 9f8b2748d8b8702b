/**
 The durable records of the production activation protocol: the activation record, the
 recovery journal and the database files they talk about. Release, runtime and transition
 identities are fixed-width lowercase hexadecimal text in the source; they are read here as
 the numbers they spell.
 */
module ActivationRecords {
  import opened Outcomes

  datatype Artifact = Artifact(releaseId: nat, runtimeRevision: nat)

  datatype PreviousArtifact = PreviousArtifact(
    artifact: Artifact,
    snapshotId: nat,
    compatibilityEpoch: Option<nat>)

  datatype ActivationRecord = ActivationRecord(
    transitionId: nat,
    current: Artifact,
    previous: Option<PreviousArtifact>,
    compatibilityEpoch: Option<nat>)

  /** The stored activation record together with the file identity its compare-and-swap checks. */
  datatype ActivationFile = ActivationFile(record: ActivationRecord, identity: nat)

  /** The inode names the file object; the stamp stands for its times and size. */
  datatype FileIdentity = FileIdentity(inode: nat, stamp: nat)

  /** The release pair whose schema the database has, and a token for the data in it. */
  datatype Image = Image(owner: Artifact, contents: nat)

  datatype DatabaseFile = DatabaseFile(identity: FileIdentity, image: Image)

  datatype PreviousDatabase =
    | Unrecorded
    | Absent
    | Present(manifest: Image, source: FileIdentity)

  datatype Phase = ServiceStopRequested | Prepared | DatabasePromoted | RollbackRequired

  datatype Journal = Journal(
    transitionId: nat,
    candidate: Artifact,
    previousActivation: Option<ActivationRecord>,
    previousDatabase: PreviousDatabase,
    phase: Phase)

  const COMPATIBILITY_EPOCH: nat := 1

  function EpochOf(epoch: Option<nat>): nat {
    if epoch.Some? then epoch.value else 0
  }

  function RecordOf(file: Option<ActivationFile>): Option<ActivationRecord> {
    if file.Some? then Some(file.value.record) else None
  }

  /** Equality of records in which a missing compatibility epoch reads as epoch zero. */
  predicate RecordsEqual(left: Option<ActivationRecord>, right: Option<ActivationRecord>) {
    match (left, right)
    case (Some(l), Some(r)) =>
      && l.transitionId == r.transitionId
      && EpochOf(l.compatibilityEpoch) == EpochOf(r.compatibilityEpoch)
      && l.current == r.current
      && (match (l.previous, r.previous)
          case (Some(lp), Some(rp)) =>
            && lp.snapshotId == rp.snapshotId
            && lp.artifact == rp.artifact
            && EpochOf(lp.compatibilityEpoch) == EpochOf(rp.compatibilityEpoch)
          case (None, None) => true
          case _ => false)
    case (None, None) => true
    case _ => false
  }

  predicate MatchesCandidate(record: Option<ActivationRecord>, journal: Journal) {
    record.Some? && record.value.transitionId == journal.transitionId && record.value.current == journal.candidate
  }

  function CurrentOf(record: Option<ActivationRecord>): Option<Artifact> {
    if record.Some? then Some(record.value.current) else None
  }

  function JournalFor(transitionId: nat, record: Option<ActivationRecord>, candidate: Artifact): Journal {
    Journal(transitionId, candidate, record, Unrecorded, ServiceStopRequested)
  }

  function NextRecord(transitionId: nat, record: Option<ActivationRecord>, candidate: Artifact): ActivationRecord {
    ActivationRecord(
      transitionId,
      candidate,
      if record.Some? then
        Some(PreviousArtifact(record.value.current, transitionId,
                              Some(EpochOf(record.value.compatibilityEpoch))))
      else None,
      Some(COMPATIBILITY_EPOCH))
  }

  /** The record that commits the journal's candidate. */
  function CommittedRecord(journal: Journal): ActivationRecord {
    NextRecord(journal.transitionId, journal.previousActivation, journal.candidate)
  }

  /** What `commitProductionActivationState` demands of a new record. */
  predicate CommitIsValid(current: Option<ActivationRecord>, next: ActivationRecord) {
    match current
    case None => next.previous.None?
    case Some(record) =>
      && next.previous.Some?
      && next.previous.value.snapshotId == next.transitionId
      && next.previous.value.artifact == record.current
  }

  /** What `restorePreviousProductionActivationState` demands of the record it puts back. */
  predicate RestoreIsValid(current: Option<ActivationRecord>, previous: Option<ActivationRecord>) {
    && current.Some?
    && match previous
       case None => current.value.previous.None?
       case Some(record) =>
         && current.value.previous.Some?
         && current.value.previous.value.snapshotId == current.value.transitionId
         && current.value.previous.value.artifact == record.current
  }
}
