/**
 The durable records of one production delivery operation: the capsule that authorizes it,
 its in-flight journal entry, its terminal receipt and its executor owner.
 */
module DeliveryRecords {
  import opened Outcomes
  import opened ActivationRecords

  datatype OperationPhase =
    | IntentRecorded
    | ExecutorConfirmed
    | TargetExecutorAdmitted
    | TargetExecutorOwnerTransferred
    | ServicesStopped
    | CurrentSnapshotCreated
    | TargetDatabaseReady
    | TargetServicesStarted
    | TargetVerified
    | TargetSmokeVerified
    | NormalRuntimeStarting

  const PHASES: seq<OperationPhase> := [
    IntentRecorded, ExecutorConfirmed, TargetExecutorAdmitted, TargetExecutorOwnerTransferred,
    ServicesStopped, CurrentSnapshotCreated, TargetDatabaseReady, TargetServicesStarted,
    TargetVerified, TargetSmokeVerified, NormalRuntimeStarting]

  function Index(phase: OperationPhase): (r: nat)
    ensures r < |PHASES| && PHASES[r] == phase
  {
    match phase
    case IntentRecorded => 0
    case ExecutorConfirmed => 1
    case TargetExecutorAdmitted => 2
    case TargetExecutorOwnerTransferred => 3
    case ServicesStopped => 4
    case CurrentSnapshotCreated => 5
    case TargetDatabaseReady => 6
    case TargetServicesStarted => 7
    case TargetVerified => 8
    case TargetSmokeVerified => 9
    case NormalRuntimeStarting => 10
  }

  lemma PhaseAt(i: nat)
    requires i < |PHASES|
    ensures Index(PHASES[i]) == i
  {
  }

  predicate CanAdvance(current: OperationPhase, next: OperationPhase) {
    Index(next) == Index(current) + 1
  }

  datatype Payload =
    | Deploy(expectedHead: nat, release: Artifact)
    | RollbackRelease(snapshotId: nat, release: Artifact)

  datatype CurrentRelease = CurrentRelease(activationId: nat, artifact: Artifact, rollbackSnapshotId: nat)

  datatype TargetRelease = TargetRelease(snapshotId: Option<nat>, artifact: Artifact)

  datatype Capsule = Capsule(
    transitionId: nat,
    runId: nat,
    current: CurrentRelease,
    target: TargetRelease,
    executor: Artifact,
    payload: Payload,
    queuedAtMs: nat)

  datatype TerminalResult =
    | Succeeded(completedAtMs: nat, activation: ActivationRecord)
    | Failed(completedAtMs: nat, observed: Option<ActivationRecord>)
    | UnknownOutcome(completedAtMs: nat, observed: Option<ActivationRecord>)

  datatype OperationRecord =
    | InProgress(capsule: Capsule, updatedAtMs: nat, phase: OperationPhase)
    | Terminal(capsule: Capsule, updatedAtMs: nat, result: TerminalResult)

  datatype Owner = Owner(transitionId: nat, artifact: Artifact)

  /** The stored owner with the file identity its compare-and-swap checks. */
  datatype OwnerFile = OwnerFile(owner: Owner, identity: nat)

  predicate CapsuleIsConsistent(capsule: Capsule) {
    && capsule.runId == capsule.transitionId
    && capsule.current.rollbackSnapshotId == capsule.transitionId
    && capsule.current.artifact.releaseId != capsule.target.artifact.releaseId
    && match capsule.payload
       case RollbackRelease(snapshotId, release) =>
         && capsule.target.snapshotId == Some(snapshotId)
         && snapshotId != capsule.transitionId
         && capsule.target.artifact == release
       case Deploy(expectedHead, release) =>
         && capsule.target.snapshotId == None
         && expectedHead == capsule.target.artifact.releaseId
         && release == capsule.target.artifact
  }

  predicate MatchesCurrent(activation: Option<ActivationRecord>, capsule: Capsule) {
    && activation.Some?
    && activation.value.transitionId == capsule.current.activationId
    && activation.value.current == capsule.current.artifact
  }

  predicate MatchesTarget(activation: Option<ActivationRecord>, capsule: Capsule) {
    && activation.Some?
    && activation.value.transitionId == capsule.transitionId
    && activation.value.current == capsule.target.artifact
    && activation.value.previous.Some?
    && activation.value.previous.value.snapshotId == capsule.current.rollbackSnapshotId
    && activation.value.previous.value.artifact == capsule.current.artifact
  }

  predicate ResultIsConsistent(capsule: Capsule, result: TerminalResult) {
    match result
    case Succeeded(_, activation) => MatchesTarget(Some(activation), capsule)
    case Failed(_, observed) => observed.None? || MatchesCurrent(observed, capsule) || MatchesTarget(observed, capsule)
    case UnknownOutcome(_, observed) =>
      observed.None? || MatchesCurrent(observed, capsule) || MatchesTarget(observed, capsule)
  }

  predicate RecordIsConsistent(record: OperationRecord) {
    && CapsuleIsConsistent(record.capsule)
    && record.updatedAtMs >= record.capsule.queuedAtMs
    && (record.Terminal? ==>
          record.updatedAtMs == record.result.completedAtMs && ResultIsConsistent(record.capsule, record.result))
  }

  /**
   A receipt says what the durable activation says: success names the target pair, failure the
   untouched current pair.
   */
  predicate Truthful(receipt: OperationRecord, activation: Option<ActivationRecord>) {
    receipt.Terminal? ==>
      match receipt.result
      case Succeeded(_, recorded) => activation == Some(recorded) && MatchesTarget(activation, receipt.capsule)
      case Failed(_, observed) => activation == observed && MatchesCurrent(activation, receipt.capsule)
      case UnknownOutcome(_, observed) => observed.Some? ==> activation == observed
  }

  /** The same activation can never count as both: the two releases differ. */
  lemma CurrentAndTargetExclude(activation: Option<ActivationRecord>, capsule: Capsule)
    requires CapsuleIsConsistent(capsule) && MatchesTarget(activation, capsule)
    ensures !MatchesCurrent(activation, capsule)
  {
  }

  /** What a cutover commits from the current pair is the target pair exactly if it commits the target. */
  lemma CutoverCommitsTheTarget(activation: Option<ActivationRecord>, capsule: Capsule, artifact: Artifact)
    requires CapsuleIsConsistent(capsule) && MatchesCurrent(activation, capsule)
    ensures MatchesTarget(Some(NextRecord(capsule.transitionId, activation, artifact)), capsule) <==>
            artifact == capsule.target.artifact
  {
  }

  /** Each pair pins the record down: transition and releases, up to compatibility epochs. */
  lemma PairsNameOneRecord(a: ActivationRecord, b: ActivationRecord, capsule: Capsule)
    ensures MatchesCurrent(Some(a), capsule) && MatchesCurrent(Some(b), capsule) ==>
              a.transitionId == b.transitionId && a.current == b.current
    ensures MatchesTarget(Some(a), capsule) && MatchesTarget(Some(b), capsule) ==>
              && a.transitionId == b.transitionId && a.current == b.current
              && a.previous.Some? && b.previous.Some?
              && a.previous.value.artifact == b.previous.value.artifact
              && a.previous.value.snapshotId == b.previous.value.snapshotId
  {
  }

  /** The target pair of one operation is the current pair of one that starts from it. */
  lemma TargetBecomesCurrent(activation: Option<ActivationRecord>, done: Capsule, next: Capsule)
    requires MatchesTarget(activation, done)
    requires next.current.activationId == done.transitionId
    ensures MatchesCurrent(activation, next) <==> next.current.artifact == done.target.artifact
  {
  }

  function LaterOf(a: nat, b: nat): nat {
    if a >= b then a else b
  }

  function IdOf(record: Option<OperationRecord>): Option<nat> {
    if record.Some? then Some(record.value.capsule.transitionId) else None
  }

  function OwnerOf(file: Option<OwnerFile>): Option<Owner> {
    if file.Some? then Some(file.value.owner) else None
  }

  function ExecutorOwner(capsule: Capsule): Owner {
    Owner(capsule.transitionId, capsule.executor)
  }
}
