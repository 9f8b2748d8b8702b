/**
 The production delivery executor: one run drives the operation in flight to a terminal
 receipt, or reconciles it. It works on two hosts at once, the delivery files `h` and the
 production host `p` on which it recovers, activates and restarts releases; what its receipts
 say must be what the activation record on `p` says.
 */
module DeliveryExecutor {
  import opened Outcomes
  import opened ActivationRecords
  import opened DeliveryRecords
  import opened DeliveryLedger
  import opened DeliveryOwnership
  import ActivationProtocol
  import ActivationRuns
  import ProductionHost
  import ReleaseActivation
  import DeliveryHost

  datatype Execution = Finished(receipt: OperationRecord) | HandedOff | Raised

  /** What the executor holds in memory while it drives an operation. */
  datatype Grip = Grip(record: OperationRecord, owner: Option<OwnerFile>, services: bool)

  /** The held record is the in-flight entry or an earlier form of it. */
  predicate Tracks(h: DeliveryHost.Host, grip: Grip)
    reads h
  {
    && Consistent(DeskOf(h))
    && h.ledger.inFlight.Some? && h.ledger.inFlight.value.InProgress?
    && grip.record.InProgress? && RecordIsConsistent(grip.record)
    && Forward(grip.record, h.ledger.inFlight.value)
    && grip.record.capsule.transitionId !in h.ledger.receipts
    && Owns(h.owner, grip.record) && Owns(grip.owner, grip.record)
  }

  predicate Owns(owner: Option<OwnerFile>, record: OperationRecord) {
    owner.Some? && owner.value.owner.transitionId == record.capsule.transitionId
  }

  /** A receipt of the driven operation is durable. */
  predicate Settled(h: DeliveryHost.Host, grip: Grip)
    reads h
  {
    && Consistent(DeskOf(h))
    && grip.record.capsule.transitionId in h.ledger.receipts
    && IdOf(h.ledger.inFlight) == Some(grip.record.capsule.transitionId)
    && Owns(h.owner, grip.record)
  }

  /** Nothing has thrown since the held values were written. */
  predicate Exact(h: DeliveryHost.Host, grip: Grip)
    reads h
  {
    h.alive && h.ledger.inFlight == Some(grip.record) && h.owner == grip.owner
  }

  /** The same operation is still being driven; no receipt was stored. */
  predicate SameOperation(before: Grip, after: Grip) {
    after.record.capsule == before.record.capsule
  }

  /** The receipts grew by at most one, of this capsule, and it tells the truth. */
  predicate OnlyTruthful(before: Ledger, after: Ledger, capsule: Capsule, activation: Option<ActivationRecord>) {
    || after.receipts == before.receipts
    || (var id := capsule.transitionId;
        && id !in before.receipts && id in after.receipts
        && after.receipts == before.receipts[id := after.receipts[id]]
        && after.receipts[id].Terminal? && after.receipts[id].capsule == capsule
        && Truthful(after.receipts[id], activation))
  }

  /** One adjacent phase; a throw leaves the entry where it was or one phase further. */
  method AdvanceOnce(h: DeliveryHost.Host, grip: Grip, phase: OperationPhase) returns (r: Outcome<OperationRecord>)
    requires Tracks(h, grip) && CanAdvance(grip.record.phase, phase)
    modifies h`ledger, h`alive
    ensures Tracks(h, grip) && h.ledger.receipts == old(h.ledger).receipts
    ensures r.Returned? ==>
              && r.value.InProgress? && r.value.capsule == grip.record.capsule && r.value.phase == phase
              && Forward(grip.record, r.value) && Tracks(h, grip.(record := r.value))
    ensures r.Returned? ==> h.alive
    ensures h.calm && old(Exact(h, grip)) ==> r.Returned? && Exact(h, grip.(record := r.value))
    ensures !old(h.alive) ==> !h.alive
  {
    var now: nat := *;
    r := h.AdvanceOperation(grip.record, phase, LaterOf(now, grip.record.updatedAtMs));
  }

  method AdvanceTo(h: DeliveryHost.Host, grip: Grip, target: OperationPhase) returns (ok: bool, next: Grip)
    requires Tracks(h, grip)
    modifies h`ledger, h`alive
    ensures Tracks(h, next) && SameOperation(grip, next) && h.ledger.receipts == old(h.ledger).receipts
    ensures next.owner == grip.owner && next.services == grip.services
    ensures ok ==> next.record.phase == LaterPhase(grip.record.phase, target)
    ensures h.calm && old(Exact(h, grip)) ==> ok && Exact(h, next)
    ensures !ok ==> next == grip
    ensures ok && old(h.alive) ==> h.alive
    ensures !old(h.alive) ==> !h.alive
  {
    next := grip;
    ok := true;
    var i := Index(grip.record.phase) + 1;
    while i <= Index(target)
      invariant ok && Follows(h, grip, next) && i == Index(next.record.phase) + 1
      invariant i <= Index(target) + 1 || next == grip
      invariant h.ledger.receipts == old(h.ledger).receipts
      invariant h.calm && old(Exact(h, grip)) ==> Exact(h, next)
      invariant h.alive == old(h.alive)
      decreases Index(target) + 1 - i
    {
      PhaseAt(i);
      var advanced := AdvanceOnce(h, next, PHASES[i]);
      if advanced.Threw? { return false, grip; }
      next := next.(record := advanced.value);
      i := i + 1;
    }
  }

  /** A later grip on the same operation, which the earlier one still tracks too. */
  predicate Follows(h: DeliveryHost.Host, before: Grip, after: Grip)
    reads h
  {
    && Tracks(h, after) && before.record.InProgress? && RecordIsConsistent(before.record)
    && after == before.(record := after.record) && Forward(before.record, after.record)
  }

  method TakeOwnership(h: DeliveryHost.Host, grip: Grip, artifact: Artifact) returns (ok: bool, next: Grip)
    requires Tracks(h, grip)
    modifies h`owner, h`alive
    ensures Tracks(h, next) && next.record == grip.record && next.services == grip.services
    ensures ok ==> h.alive && old(h.owner) == grip.owner
    ensures ok ==> OwnerOf(h.owner) == Some(Owner(grip.record.capsule.transitionId, artifact))
    ensures h.calm && old(Exact(h, grip)) ==> ok && Exact(h, next)
    ensures !old(h.alive) ==> !h.alive
  {
    var committed := h.CommitOwner(grip.owner, Owner(grip.record.capsule.transitionId, artifact));
    ok := committed.Returned?;
    next := if ok then grip.(owner := committed.value) else grip;
  }

  /** The owner a deploy and a verified cutover hand the operation to. */
  function TargetOwner(capsule: Capsule): Owner {
    Owner(capsule.transitionId, capsule.target.artifact)
  }

  /** The activation's progress callback: advance, and hand ownership over once smoke passed. */
  method ReportProgress(h: DeliveryHost.Host, grip: Grip, phase: OperationPhase) returns (ok: bool, next: Grip)
    requires Tracks(h, grip)
    modifies h`ledger, h`owner, h`alive
    ensures Tracks(h, next) && SameOperation(grip, next) && next.services == grip.services
    ensures h.ledger.receipts == old(h.ledger).receipts
    ensures next.record.phase in {grip.record.phase, LaterPhase(grip.record.phase, phase)}
    ensures ok ==> next.record.phase == LaterPhase(grip.record.phase, phase)
    ensures ok && phase.TargetSmokeVerified? ==>
              h.alive && OwnerOf(h.owner) == Some(TargetOwner(grip.record.capsule))
    ensures h.calm && old(Exact(h, grip)) ==> ok && Exact(h, next)
    ensures !old(h.alive) ==> !h.alive
  {
    ok, next := AdvanceTo(h, grip, phase);
    if !ok { return; }
    if phase.ServicesStopped? {
      ok := h.Depend();
    } else if phase.TargetSmokeVerified? {
      ok := h.Depend();
      if !ok { return; }
      ok, next := TakeOwnership(h, next, grip.record.capsule.target.artifact);
    }
  }

  /** The durable activation record. */
  function Durable(p: ProductionHost.Host): Option<ActivationRecord>
    reads p
  {
    ActivationProtocol.Record(p.disk)
  }

  /** Neither host throws, except that unready releases never become ready. */
  predicate Calm(h: DeliveryHost.Host, p: ProductionHost.Host) {
    h.calm && p.calm
  }

  method LoadActivation(h: DeliveryHost.Host, p: ProductionHost.Host)
    returns (ok: bool, loaded: Option<ActivationRecord>)
    modifies h`alive
    ensures ok ==> h.alive && loaded == Durable(p)
    ensures !ok ==> loaded.None?
    ensures h.calm || !old(h.alive) ==> h.alive == old(h.alive)
    ensures h.calm && old(h.alive) ==> ok
  {
    ok := h.Depend();
    loaded := if ok then Durable(p) else None;
  }

  /** The run finds no transition, the current pair in the record and a target it can cut over to. */
  predicate TargetAdmitted(d: ActivationProtocol.Disk, capsule: Capsule) {
    && MatchesCurrent(ActivationProtocol.Record(d), capsule)
    && ReleaseActivation.ActivationAdmitted(d, capsule.target.artifact, capsule.transitionId,
                                            capsule.target.snapshotId)
  }

  /** The current release comes up when it is started, or nothing will ask for it. */
  predicate OneStarts(capsule: Capsule, unready: set<Artifact>) {
    capsule.target.artifact in unready ==> capsule.current.artifact !in unready
  }

  /**
   No transition is left. If the target comes up the record is the target's, over the data that was
   live or over that of the chosen snapshot; otherwise record and data are as they were.
   */
  predicate Decided(before: ActivationProtocol.Disk, after: ActivationProtocol.Disk, capsule: Capsule,
                    unready: set<Artifact>) {
    && after.journal.None?
    && if capsule.target.artifact !in unready then
         && MatchesTarget(ActivationProtocol.Record(after), capsule)
         && ReleaseActivation.DataIsCarried(before, after, capsule.target.artifact, capsule.target.snapshotId)
       else
         && ActivationProtocol.Record(after) == ActivationProtocol.Record(before)
         && ProductionHost.SameImage(after, before)
  }

  /** What an activation reports. */
  const PROGRESS: set<OperationPhase> := {
    ServicesStopped, CurrentSnapshotCreated, TargetDatabaseReady, TargetServicesStarted, TargetVerified,
    TargetSmokeVerified}

  function LaterPhase(a: OperationPhase, b: OperationPhase): OperationPhase {
    if Index(b) > Index(a) then b else a
  }

  /** Any reports of an activation, up to the first that throws. */
  method ReportAny(h: DeliveryHost.Host, grip: Grip) returns (ok: bool, next: Grip)
    requires Tracks(h, grip)
    modifies h`ledger, h`owner, h`alive
    ensures Tracks(h, next) && SameOperation(grip, next) && next.services == grip.services
    ensures h.ledger.receipts == old(h.ledger).receipts
    ensures LaterPhase(next.record.phase, TargetSmokeVerified) == LaterPhase(grip.record.phase, TargetSmokeVerified)
    ensures h.calm && old(Exact(h, grip)) ==> ok && Exact(h, next)
    ensures !old(h.alive) ==> !h.alive
  {
    ok, next := true, grip;
    var rounds: int := *;
    var i := 0;
    while i < rounds
      invariant Tracks(h, next) && SameOperation(grip, next) && next.services == grip.services
      invariant h.ledger.receipts == old(h.ledger).receipts
      invariant LaterPhase(next.record.phase, TargetSmokeVerified) ==
                LaterPhase(grip.record.phase, TargetSmokeVerified)
      invariant h.calm && old(Exact(h, grip)) ==> ok && Exact(h, next)
      invariant !old(h.alive) ==> !h.alive
    {
      var phase :| phase in PROGRESS;
      ok, next := ReportProgress(h, next, phase);
      if !ok { return; }
      i := i + 1;
    }
  }

  /**
   The paired release activation with its progress reports. The two hosts share one process but no
   file, so the reports are made first and the activation then runs, or dies wherever the process
   did; an activation that returns has made the last report, of the smoke check, too. Together
   they leave every pair of states that interleaving leaves.
   */
  method Activate(h: DeliveryHost.Host, p: ProductionHost.Host, grip: Grip)
    returns (r: Outcome<ActivationRecord>, next: Grip)
    requires Tracks(h, grip) && p.Valid()
    requires p.disk.journal.None? && MatchesCurrent(Durable(p), grip.record.capsule)
    modifies h, p
    ensures Tracks(h, next) && SameOperation(grip, next) && next.services == grip.services
    ensures h.ledger.receipts == old(h.ledger).receipts
    ensures p.Valid() && p.Extends(old(p.states), old(p.steps))
    ensures r.Returned? ==> h.alive && Durable(p) == Some(r.value) && p.disk.journal.None?
    ensures r.Returned? ==> r.value.current == grip.record.capsule.target.artifact
    ensures r.Returned? ==> OwnerOf(h.owner) == Some(TargetOwner(grip.record.capsule))
    ensures r.Returned? ==> next.record.phase == LaterPhase(grip.record.phase, TargetSmokeVerified)
    ensures Calm(h, p) && old(Exact(h, grip)) ==> Exact(h, next)
    ensures Calm(h, p) && old(Exact(h, grip)) && old(TargetAdmitted(p.disk, grip.record.capsule)) &&
            OneStarts(grip.record.capsule, p.unready) ==>
      && Decided(old(p.disk), p.disk, grip.record.capsule, p.unready)
      && (r.Returned? <==> grip.record.capsule.target.artifact !in p.unready)
    ensures !old(h.alive) ==> !h.alive
  {
    var started := h.alive;
    var reported;
    reported, next := ReportAny(h, grip);
    r := RunActivation(h, p, grip.record.capsule, started);
    if r.Returned? && reported {
      reported, next := ReportProgress(h, next, TargetSmokeVerified);
    }
    if !reported { r := Threw; }
  }

  /** `activateRelease` for the operation's target, in a process that was alive when it began. */
  method RunActivation(h: DeliveryHost.Host, p: ProductionHost.Host, capsule: Capsule, started: bool)
    returns (r: Outcome<ActivationRecord>)
    requires p.Valid()
    modifies h`alive, p
    ensures p.Valid() && p.Extends(old(p.states), old(p.steps))
    ensures r.Returned? ==> h.alive && Durable(p) == Some(r.value) && p.disk.journal.None?
    ensures r.Returned? && old(p.disk).journal.None? ==> r.value.current == capsule.target.artifact
    ensures p.calm && started && old(h.alive) &&
            old(ReleaseActivation.ActivationAdmitted(p.disk, capsule.target.artifact, capsule.transitionId,
                                                     capsule.target.snapshotId)) ==>
              ReleaseActivation.AllOrNothing(r, old(p.disk), p.disk, capsule.target.artifact, capsule.transitionId,
                                             capsule.target.snapshotId, p.unready)
    ensures h.alive ==> old(h.alive)
    ensures p.calm && started && old(h.alive) ==> h.alive
  {
    p.alive := started;
    ghost var blind, restored, idle;
    r, blind, restored, idle := ReleaseActivation.ActivateRelease(p, capsule.target.artifact, capsule.transitionId,
                                                            capsule.target.snapshotId);
    h.alive := h.alive && p.alive;
    if !h.alive { r := Threw; }
  }

  /** Recovery of whatever was interrupted, and collection around current, previous and target. */
  method AdmitArtifacts(h: DeliveryHost.Host, p: ProductionHost.Host, target: Artifact) returns (ok: bool)
    requires p.Valid()
    modifies h`alive, p
    ensures p.Valid() && p.Extends(old(p.states), old(p.steps))
    ensures ok ==> h.alive && p.disk.journal.None? && ActivationProtocol.Complete(old(p.disk))
    ensures p.calm && old(h.alive) ==> h.alive
    ensures p.calm && old(h.alive) && old(p.disk).journal.None? && ActivationProtocol.Complete(old(p.disk)) &&
            ActivationProtocol.Published(old(p.disk), target) ==>
      && ok && ReleaseActivation.OnlyArtifacts(old(p.disk), p.disk)
      && ActivationProtocol.Complete(p.disk) && ActivationProtocol.Published(p.disk, target)
    ensures !old(h.alive) ==> !h.alive
  {
    p.alive := h.alive;
    ok := ReleaseActivation.PrepareArtifactAdmission(p, [target]);
    h.alive := h.alive && p.alive;
    ok := ok && h.alive;
  }

  /** The release is not published yet, or it is under this runtime. */
  predicate Publishable(d: ActivationProtocol.Disk, artifact: Artifact) {
    artifact.releaseId in d.releases ==> d.releases[artifact.releaseId] == artifact.runtimeRevision
  }

  /** Nothing moved but the release and the runtime of this artifact, and these only appeared. */
  predicate OnlyProvided(a: ActivationProtocol.Disk, b: ActivationProtocol.Disk, artifact: Artifact) {
    && b == a.(releases := b.releases, runtimes := b.runtimes)
    && (b.releases == a.releases ||
        (artifact.releaseId !in a.releases && b.releases == a.releases[artifact.releaseId := artifact.runtimeRevision]))
    && (b.runtimes == a.runtimes || b.runtimes == a.runtimes + {artifact.runtimeRevision})
  }

  /**
   Publication of the target where it is not there yet, and then installation of its runtime. A
   release that is already published under another runtime is refused.
   */
  method PublishTarget(h: DeliveryHost.Host, p: ProductionHost.Host, target: Artifact) returns (ok: bool)
    requires p.Valid()
    modifies h`alive, p
    ensures p.Valid() && p.Extends(old(p.states), old(p.steps))
    ensures OnlyProvided(old(p.disk), p.disk, target)
    ensures p.calm && old(h.alive) ==> h.alive
    ensures ok ==> h.alive && ActivationProtocol.Published(p.disk, target)
    ensures p.calm && old(h.alive) ==>
              (ok <==> Publishable(old(p.disk), target))
    ensures !old(h.alive) ==> !h.alive
  {
    p.alive := h.alive;
    ok := p.Depend();
    if ok && target.releaseId !in p.disk.releases {
      ok := p.Perform(ActivationProtocol.PublishRelease(target));
    }
    ok := ok && p.disk.releases[target.releaseId] == target.runtimeRevision;
    if ok {
      ok := p.Perform(ActivationProtocol.InstallRuntime(target.runtimeRevision));
    }
    h.alive := h.alive && p.alive;
    ok := ok && h.alive;
  }

  /** Stores a receipt; whatever happens, nothing but this receipt can have been stored. */
  method CompleteWith(h: DeliveryHost.Host, p: ProductionHost.Host, grip: Grip, result: TerminalResult)
    returns (r: Execution)
    requires Tracks(h, grip)
    requires RecordIsConsistent(ReceiptFor(grip.record, result)) ==>
               Truthful(ReceiptFor(grip.record, result), Durable(p))
    modifies h`ledger, h`alive
    ensures OnlyTruthful(old(h.ledger), h.ledger, grip.record.capsule, Durable(p))
    ensures Tracks(h, grip) || Settled(h, grip)
    ensures r.Finished? ==> h.alive && r.receipt == ReceiptFor(grip.record, result) && HoldsReceipt(h.ledger, r.receipt)
    ensures !r.HandedOff?
    ensures h.calm && old(Exact(h, grip)) && result.completedAtMs >= grip.record.updatedAtMs ==>
              if RecordIsConsistent(ReceiptFor(grip.record, result)) then r.Finished?
              else r.Raised? && Tracks(h, grip) && Exact(h, grip)
    ensures !old(h.alive) ==> !h.alive
  {
    var completed := h.CompleteOperation(grip.record, result);
    r := if completed.Returned? then Finished(completed.value) else Raised;
  }

  /** Settles, prepares and starts the release the record names, and waits until it is ready. */
  method RestartNormalRuntime(h: DeliveryHost.Host, p: ProductionHost.Host, current: Artifact) returns (ok: bool)
    requires p.Valid()
    modifies h`alive, p
    ensures p.Valid() && p.Extends(old(p.states), old(p.steps))
    ensures ProductionHost.Drifted(old(p.disk), p.disk)
    ensures p.calm ==> p.disk.live == old(p.disk).live
    ensures ok ==> h.alive && p.disk.running == Some(current)
    ensures p.calm && old(h.alive) ==> h.alive
    ensures p.calm && old(h.alive) && ActivationProtocol.Published(old(p.disk), current) && current !in p.unready ==> ok
    ensures !old(h.alive) ==> !h.alive
  {
    p.alive := h.alive;
    ok := p.LoadArtifacts(current);
    if ok {
      ok := p.Settle();
      if ok {
        ok := p.PrepareAndStartServices(current);
        if ok {
          ok := p.VerifyReady(current);
        }
      }
    }
    h.alive := h.alive && p.alive;
    ok := ok && h.alive;
  }

  method CompleteAfterNormalRuntimeReady(h: DeliveryHost.Host, p: ProductionHost.Host, grip: Grip,
                                         activation: ActivationRecord) returns (r: Execution)
    requires Tracks(h, grip) && p.Valid() && Durable(p) == Some(activation)
    modifies h`ledger, h`alive, p
    ensures p.Valid() && p.Extends(old(p.states), old(p.steps)) && ProductionHost.Drifted(old(p.disk), p.disk)
    ensures p.calm ==> p.disk.live == old(p.disk).live
    ensures OnlyTruthful(old(h.ledger), h.ledger, grip.record.capsule, Durable(p))
    ensures Tracks(h, grip) || Settled(h, grip)
    ensures r.Finished? ==> h.alive && r.receipt.capsule == grip.record.capsule && HoldsReceipt(h.ledger, r.receipt)
    ensures r.Finished? ==> Succeeds(r.receipt, p.disk)
    ensures !r.HandedOff?
    ensures Calm(h, p) && old(Exact(h, grip)) && r.Raised? ==> Tracks(h, grip) && Exact(h, grip)
    ensures Calm(h, p) && old(Exact(h, grip)) && activation.current !in p.unready &&
            MatchesTarget(Some(activation), grip.record.capsule) ==>
              r.Finished?
    ensures !old(h.alive) ==> !h.alive
  {
    var ok := RestartNormalRuntime(h, p, activation.current);
    if !ok { return Raised; }
    var now: nat := *;
    r := CompleteWith(h, p, grip, Succeeded(LaterOf(now, grip.record.updatedAtMs), activation));
  }

  /** A success receipt beside a disk on which its target is recorded and runs. */
  predicate Succeeds(receipt: OperationRecord, d: ActivationProtocol.Disk) {
    && receipt.Terminal? && receipt.result.Succeeded?
    && MatchesTarget(ActivationProtocol.Record(d), receipt.capsule)
    && d.running == Some(receipt.capsule.target.artifact)
  }

  /** The receipt of an operation that did not succeed, read off the durable activation. */
  method TerminalFailure(h: DeliveryHost.Host, p: ProductionHost.Host, grip: Grip) returns (r: Execution)
    requires Tracks(h, grip)
    modifies h`ledger, h`alive
    ensures OnlyTruthful(old(h.ledger), h.ledger, grip.record.capsule, Durable(p))
    ensures Tracks(h, grip) || Settled(h, grip)
    ensures r.Finished? ==> h.alive && r.receipt.capsule == grip.record.capsule && HoldsReceipt(h.ledger, r.receipt)
    ensures r.Finished? ==> r.receipt.Terminal? && !r.receipt.result.Succeeded?
    ensures !r.HandedOff?
    ensures h.calm && old(Exact(h, grip)) ==>
              r.Finished? && (r.receipt.result.Failed? <==> MatchesCurrent(Durable(p), grip.record.capsule))
    ensures !old(h.alive) ==> !h.alive
  {
    var capsule := grip.record.capsule;
    var read, activation := LoadActivation(h, p);
    var now: nat := *;
    var at := LaterOf(now, grip.record.updatedAtMs);
    var result :=
      if MatchesCurrent(activation, capsule) then Failed(at, activation)
      else UnknownOutcome(at, if MatchesTarget(activation, capsule) then activation else None);
    r := CompleteWith(h, p, grip, result);
  }

  predicate TransfersOwner(grip: Grip) {
    && grip.record.capsule.payload.Deploy?
    && OwnerOf(grip.owner) != Some(TargetOwner(grip.record.capsule))
  }

  /**
   The target is published with its runtime, it owns the operation, and the entry in flight says
   so. Its executor can take over.
   */
  predicate Transferred(h: DeliveryHost.Host, p: ProductionHost.Host, capsule: Capsule)
    reads h, p
  {
    && ActivationProtocol.Published(p.disk, capsule.target.artifact)
    && OwnerOf(h.owner) == Some(TargetOwner(capsule))
    && h.ledger.inFlight.Some? && h.ledger.inFlight.value.InProgress?
    && h.ledger.inFlight.value.capsule == capsule && capsule.transitionId !in h.ledger.receipts
    && Index(h.ledger.inFlight.value.phase) >= Index(TargetExecutorOwnerTransferred)
  }

  /** A deploy that the target's own executor must continue: publish, transfer ownership, hand off. */
  method TransferOwner(h: DeliveryHost.Host, p: ProductionHost.Host, grip: Grip) returns (r: Execution, next: Grip)
    requires Tracks(h, grip) && p.Valid()
    modifies h, p
    ensures p.Valid() && p.Extends(old(p.states), old(p.steps))
    ensures OnlyProvided(old(p.disk), p.disk, grip.record.capsule.target.artifact)
    ensures Tracks(h, next) && SameOperation(grip, next) && next.services == grip.services
    ensures h.ledger.receipts == old(h.ledger).receipts
    ensures !r.Finished?
    ensures r.HandedOff? ==> h.alive && Transferred(h, p, grip.record.capsule)
    ensures Calm(h, p) && old(Exact(h, grip)) ==>
              (r.HandedOff? <==> Publishable(old(p.disk), grip.record.capsule.target.artifact))
    ensures Calm(h, p) && old(Exact(h, grip)) ==> Exact(h, next)
    ensures !old(h.alive) ==> !h.alive
  {
    next := grip;
    var ok := h.Depend();
    if !ok { return Raised, next; }
    ok := PublishTarget(h, p, grip.record.capsule.target.artifact);
    if !ok { return Raised, next; }
    ok, next := AdvanceTo(h, grip, TargetExecutorAdmitted);
    if !ok { return Raised, next; }
    ok, next := TakeOwnership(h, next, grip.record.capsule.target.artifact);
    if !ok { return Raised, next; }
    var transferred;
    ok, transferred := AdvanceTo(h, next, TargetExecutorOwnerTransferred);
    if !ok { return Raised, next; }
    r, next := HandedOff, transferred;
  }

  /** The last phase of a cutover, and its success. */
  method StartNormalRuntime(h: DeliveryHost.Host, p: ProductionHost.Host, grip: Grip, activation: ActivationRecord)
    returns (r: Execution, next: Grip)
    requires Tracks(h, grip) && p.Valid() && Durable(p) == Some(activation)
    modifies h, p
    ensures p.Valid() && p.Extends(old(p.states), old(p.steps)) && ProductionHost.Drifted(old(p.disk), p.disk)
    ensures p.calm ==> p.disk.live == old(p.disk).live
    ensures SameOperation(grip, next) && next.services == grip.services
    ensures OnlyTruthful(old(h.ledger), h.ledger, grip.record.capsule, Durable(p))
    ensures Tracks(h, next) || Settled(h, next)
    ensures r.Finished? ==> h.alive && r.receipt.capsule == grip.record.capsule && HoldsReceipt(h.ledger, r.receipt)
    ensures r.Finished? ==> Succeeds(r.receipt, p.disk)
    ensures !r.HandedOff?
    ensures Calm(h, p) && old(Exact(h, grip)) && r.Raised? ==> Tracks(h, next) && Exact(h, next)
    ensures Calm(h, p) && old(Exact(h, grip)) && activation.current !in p.unready &&
            MatchesTarget(Some(activation), grip.record.capsule) ==>
              r.Finished?
    ensures !old(h.alive) ==> !h.alive
  {
    var ok;
    ok, next := AdvanceTo(h, grip, NormalRuntimeStarting);
    if !ok { return Raised, next; }
    r := CompleteAfterNormalRuntimeReady(h, p, next, activation);
  }

  /** The activation already names the target: verify it and finish. */
  method FinishActiveTarget(h: DeliveryHost.Host, p: ProductionHost.Host, grip: Grip)
    returns (r: Execution, next: Grip)
    requires Tracks(h, grip) && p.Valid() && MatchesTarget(Durable(p), grip.record.capsule)
    modifies h, p
    ensures p.Valid() && p.Extends(old(p.states), old(p.steps)) && ProductionHost.Drifted(old(p.disk), p.disk)
    ensures p.calm ==> p.disk.live == old(p.disk).live
    ensures SameOperation(grip, next) && next.services == grip.services
    ensures OnlyTruthful(old(h.ledger), h.ledger, grip.record.capsule, Durable(p))
    ensures Tracks(h, next) || Settled(h, next)
    ensures r.Finished? ==> h.alive && r.receipt.capsule == grip.record.capsule && HoldsReceipt(h.ledger, r.receipt)
    ensures r.Finished? ==> Succeeds(r.receipt, p.disk)
    ensures r.Finished? ==> Index(grip.record.phase) >= Index(TargetSmokeVerified)
    ensures !r.HandedOff?
    ensures Calm(h, p) && old(Exact(h, grip)) && r.Raised? ==> Tracks(h, next) && Exact(h, next)
    ensures Calm(h, p) && old(Exact(h, grip)) ==>
              (r.Finished? <==> Index(grip.record.phase) >= Index(TargetSmokeVerified) &&
                                grip.record.capsule.target.artifact !in p.unready)
    ensures !old(h.alive) ==> !h.alive
  {
    next := grip;
    if !grip.record.phase.TargetSmokeVerified? && !grip.record.phase.NormalRuntimeStarting? { return Raised, next; }
    var ok := VerifyActive(h, p, grip.record.capsule.target.artifact);
    if !ok { return Raised, next; }
    r, next := StartNormalRuntime(h, p, grip, Durable(p).value);
  }

  /** Loads the active target and waits until it is ready. */
  method VerifyActive(h: DeliveryHost.Host, p: ProductionHost.Host, target: Artifact) returns (ok: bool)
    requires p.Valid()
    modifies h`alive, p
    ensures p.Valid() && p.Extends(old(p.states), old(p.steps)) && ProductionHost.Drifted(old(p.disk), p.disk)
    ensures p.calm ==> p.disk.live == old(p.disk).live
    ensures ok ==> h.alive && ActivationProtocol.Published(p.disk, target)
    ensures p.calm && old(h.alive) ==>
              h.alive && ok == (ActivationProtocol.Published(old(p.disk), target) && target !in p.unready)
    ensures !old(h.alive) ==> !h.alive
  {
    p.alive := h.alive;
    ok := p.LoadArtifacts(target);
    if ok {
      ok := p.VerifyReady(target);
    }
    h.alive := h.alive && p.alive;
    ok := ok && h.alive;
  }

  /** The whole cutover from the current pair: activation, then the normal runtime, then the receipt. */
  method CutOver(h: DeliveryHost.Host, p: ProductionHost.Host, grip: Grip) returns (r: Execution, next: Grip)
    requires Tracks(h, grip) && p.Valid()
    requires p.disk.journal.None? && MatchesCurrent(Durable(p), grip.record.capsule)
    modifies h, p
    ensures p.Valid() && p.Extends(old(p.states), old(p.steps))
    ensures SameOperation(grip, next) && next.services == grip.services
    ensures OnlyTruthful(old(h.ledger), h.ledger, grip.record.capsule, Durable(p))
    ensures Tracks(h, next) || Settled(h, next)
    ensures r.Finished? ==> h.alive && r.receipt.capsule == grip.record.capsule && HoldsReceipt(h.ledger, r.receipt)
    ensures r.Finished? ==> Succeeds(r.receipt, p.disk) && p.disk.journal.None?
    ensures !r.HandedOff?
    ensures Calm(h, p) && old(Exact(h, grip)) && r.Raised? ==> Tracks(h, next) && Exact(h, next)
    ensures Calm(h, p) && old(Exact(h, grip)) && old(TargetAdmitted(p.disk, grip.record.capsule)) &&
            OneStarts(grip.record.capsule, p.unready) ==>
      && Decided(old(p.disk), p.disk, grip.record.capsule, p.unready)
      && (r.Finished? <==>
            grip.record.capsule.target.artifact !in p.unready && !grip.record.phase.NormalRuntimeStarting?)
    ensures !old(h.alive) ==> !h.alive
  {
    next := grip;
    var ok := h.Depend();
    if !ok { return Raised, next; }
    var activated;
    activated, next := Activate(h, p, grip);
    if activated.Threw? || !next.record.phase.TargetSmokeVerified? { return Raised, next; }
    r, next := StartNormalRuntime(h, p, next, activated.value);
  }

  /** Everything between the confirmation of the executor and the terminal receipt. */
  method Drive(h: DeliveryHost.Host, p: ProductionHost.Host, grip: Grip) returns (r: Execution, next: Grip)
    requires Tracks(h, grip) && !grip.services && p.Valid()
    modifies h, p
    ensures p.Valid() && p.Extends(old(p.states), old(p.steps))
    ensures SameOperation(grip, next)
    ensures OnlyTruthful(old(h.ledger), h.ledger, grip.record.capsule, Durable(p))
    ensures Tracks(h, next) || Settled(h, next)
    ensures r.Finished? ==> h.alive && r.receipt.capsule == grip.record.capsule && HoldsReceipt(h.ledger, r.receipt)
    ensures r.Finished? ==> Succeeds(r.receipt, p.disk) && p.disk.journal.None?
    ensures r.Finished? ==> ActivationProtocol.Complete(old(p.disk))
    ensures r.HandedOff? ==>
      && TransfersOwner(grip) && h.alive && Transferred(h, p, grip.record.capsule)
      && OnlyProvided(old(p.disk), p.disk, grip.record.capsule.target.artifact)
    ensures Calm(h, p) && old(Exact(h, grip)) && TransfersOwner(grip) ==>
              (r.HandedOff? <==> Publishable(old(p.disk), grip.record.capsule.target.artifact)) && !r.Finished?
    ensures Calm(h, p) && TransfersOwner(grip) ==> Durable(p) == old(Durable(p))
    ensures TransfersOwner(grip) ==> !next.services
    ensures Calm(h, p) && old(Exact(h, grip)) && r.Raised? ==> Tracks(h, next) && Exact(h, next)
    ensures Calm(h, p) && old(Exact(h, grip)) && r.Raised? && !TransfersOwner(grip) ==> next.services
    ensures Calm(h, p) && old(Exact(h, grip)) && !TransfersOwner(grip) &&
            old(TargetAdmitted(p.disk, grip.record.capsule)) && OneStarts(grip.record.capsule, p.unready) ==>
      && Decided(old(p.disk), p.disk, grip.record.capsule, p.unready)
      && (r.Finished? <==>
            grip.record.capsule.target.artifact !in p.unready && !grip.record.phase.NormalRuntimeStarting?)
    ensures !old(h.alive) ==> !h.alive
  {
    if TransfersOwner(grip) {
      r, next := TransferOwner(h, p, grip);
      return;
    }
    next := grip.(services := true);
    var ok := AdmitArtifacts(h, p, grip.record.capsule.target.artifact);
    if !ok { return Raised, next; }
    var read, observed := LoadActivation(h, p);
    if !read { return Raised, next; }
    if MatchesTarget(observed, grip.record.capsule) {
      r, next := FinishActiveTarget(h, p, next);
    } else if MatchesCurrent(observed, grip.record.capsule) {
      r, next := CutOver(h, p, next);
    } else {
      r := Raised;
    }
  }

  /** Both releases of the operation come up when they are started. */
  predicate BothStart(p: ProductionHost.Host, capsule: Capsule) {
    capsule.current.artifact !in p.unready && capsule.target.artifact !in p.unready
  }

  /** If the record names a release of the operation, that release comes up. */
  predicate RecordedStarts(d: ActivationProtocol.Disk, capsule: Capsule, unready: set<Artifact>) {
    var record := ActivationProtocol.Record(d);
    MatchesCurrent(record, capsule) || MatchesTarget(record, capsule) ==> record.value.current !in unready
  }

  /** The target's executor owns an operation whose target is recorded, and the current one's any other. */
  function RecordedOwner(activation: Option<ActivationRecord>, capsule: Capsule): Owner {
    Owner(capsule.transitionId,
          if MatchesTarget(activation, capsule) then capsule.target.artifact else capsule.current.artifact)
  }

  /**
   The executor's catch: give ownership to whatever is active, restart it, store what happened.
   `blind` says that the activation record could not be read, and then the current release gets
   it. An owner file that is not the held one any more is left alone.
   */
  method Recover(h: DeliveryHost.Host, p: ProductionHost.Host, grip: Grip)
    returns (r: Execution, ghost blind: bool)
    requires (Tracks(h, grip) || Settled(h, grip)) && p.Valid()
    modifies h, p
    ensures p.Valid() && p.Extends(old(p.states), old(p.steps)) && ProductionHost.Drifted(old(p.disk), p.disk)
    ensures p.calm ==> p.disk.live == old(p.disk).live
    ensures OnlyTruthful(old(h.ledger), h.ledger, grip.record.capsule, Durable(p))
    ensures Tracks(h, grip) || Settled(h, grip)
    ensures r.Finished? ==> h.alive && r.receipt.capsule == grip.record.capsule && HoldsReceipt(h.ledger, r.receipt)
    ensures r.Finished? ==> r.receipt.Terminal? && (r.receipt.result.Succeeded? ==> Succeeds(r.receipt, p.disk))
    ensures !r.HandedOff?
    ensures r.Finished? ==>
              if old(h.owner) != grip.owner then h.owner == old(h.owner)
              else OwnerOf(h.owner) ==
                   Some(RecordedOwner(if blind then None else Durable(p), grip.record.capsule))
    ensures r.Finished? && blind ==> !r.receipt.result.Succeeded?
    ensures Calm(h, p) && old(h.alive) ==> !blind
    ensures Calm(h, p) && old(Tracks(h, grip) && Exact(h, grip)) ==>
              OwnerOf(h.owner) == Some(RecordedOwner(Durable(p), grip.record.capsule))
    ensures Calm(h, p) && old(Tracks(h, grip) && Exact(h, grip)) &&
            (grip.services ==> old(RecordedStarts(p.disk, grip.record.capsule, p.unready))) ==>
      && r.Finished?
      && (r.receipt.result.Failed? <==> MatchesCurrent(Durable(p), grip.record.capsule))
      && (r.receipt.result.Succeeded? <==> grip.services && MatchesTarget(Durable(p), grip.record.capsule))
    ensures !old(h.alive) ==> !h.alive
  {
    var capsule := grip.record.capsule;
    blind := false;
    var inspection := h.InspectOperation(None);
    if inspection.Threw? || inspection.value.Done? { return Raised, blind; }
    assert Tracks(h, grip);
    var read, recovery := LoadActivation(h, p);
    blind := !read;
    if !h.alive { return Raised, blind; }
    var artifact := RecordedOwner(recovery, capsule).artifact;
    var held := grip;
    if grip.owner.value.owner.artifact != artifact {
      var ok;
      ok, held := TakeOwnership(h, grip, artifact);
      if !ok { return Raised, blind; }
    }
    if MatchesTarget(recovery, capsule) {
      CurrentAndTargetExclude(recovery, capsule);
    }
    if grip.services && (MatchesCurrent(recovery, capsule) || MatchesTarget(recovery, capsule)) {
      r := RestartAndReport(h, p, held, recovery.value);
    } else {
      r := TerminalFailure(h, p, held);
    }
  }

  /** Restarts what the record names, then stores a success for the target and a failure otherwise. */
  method RestartAndReport(h: DeliveryHost.Host, p: ProductionHost.Host, grip: Grip, recovery: ActivationRecord)
    returns (r: Execution)
    requires Tracks(h, grip) && p.Valid() && Durable(p) == Some(recovery)
    modifies h`ledger, h`alive, p
    ensures p.Valid() && p.Extends(old(p.states), old(p.steps)) && ProductionHost.Drifted(old(p.disk), p.disk)
    ensures p.calm ==> p.disk.live == old(p.disk).live
    ensures OnlyTruthful(old(h.ledger), h.ledger, grip.record.capsule, Durable(p))
    ensures Tracks(h, grip) || Settled(h, grip)
    ensures r.Finished? ==> h.alive && r.receipt.capsule == grip.record.capsule && HoldsReceipt(h.ledger, r.receipt)
    ensures r.Finished? ==> r.receipt.Terminal? && (r.receipt.result.Succeeded? ==> Succeeds(r.receipt, p.disk))
    ensures r.Finished? ==> p.disk.running == Some(recovery.current)
    ensures !r.HandedOff?
    ensures Calm(h, p) && recovery.current !in p.unready && old(Exact(h, grip)) ==>
      && r.Finished?
      && (r.receipt.result.Succeeded? <==> MatchesTarget(Durable(p), grip.record.capsule))
      && (r.receipt.result.Failed? <==>
            MatchesCurrent(Durable(p), grip.record.capsule) && !MatchesTarget(Durable(p), grip.record.capsule))
    ensures !old(h.alive) ==> !h.alive
  {
    var ok := RestartNormalRuntime(h, p, recovery.current);
    if !ok { return Raised; }
    if MatchesTarget(Some(recovery), grip.record.capsule) {
      var now: nat := *;
      r := CompleteWith(h, p, grip, Succeeded(LaterOf(now, grip.record.updatedAtMs), recovery));
    } else {
      r := TerminalFailure(h, p, grip);
    }
  }

  /** The try block and its catch. */
  method DriveOrRecover(h: DeliveryHost.Host, p: ProductionHost.Host, grip: Grip)
    returns (r: Execution, ghost caught: bool)
    requires Tracks(h, grip) && !grip.services && p.Valid()
    modifies h, p
    ensures Consistent(DeskOf(h)) && Owns(h.owner, grip.record)
    ensures p.Valid() && p.Extends(old(p.states), old(p.steps))
    ensures OnlyTruthful(old(h.ledger), h.ledger, grip.record.capsule, Durable(p))
    ensures r.Finished? ==> h.alive && r.receipt.capsule == grip.record.capsule && HoldsReceipt(h.ledger, r.receipt)
    ensures r.Finished? ==> r.receipt.Terminal? && (r.receipt.result.Succeeded? ==> Succeeds(r.receipt, p.disk))
    ensures r.HandedOff? ==>
      && TransfersOwner(grip) && h.alive && Transferred(h, p, grip.record.capsule)
      && OnlyProvided(old(p.disk), p.disk, grip.record.capsule.target.artifact)
    ensures Calm(h, p) && old(Exact(h, grip)) && TransfersOwner(grip) ==>
      && (r.HandedOff? <==> Publishable(old(p.disk), grip.record.capsule.target.artifact))
      && (!r.HandedOff? ==> r.Finished? && !r.receipt.result.Succeeded?)
    ensures Calm(h, p) && old(Exact(h, grip)) && caught ==>
              OwnerOf(h.owner) == Some(RecordedOwner(Durable(p), grip.record.capsule))
    ensures r.Finished? && !caught ==>
              Succeeds(r.receipt, p.disk) && p.disk.journal.None? && ActivationProtocol.Complete(old(p.disk))
    ensures Calm(h, p) && old(Exact(h, grip)) && !TransfersOwner(grip) && BothStart(p, grip.record.capsule) ==>
      && r.Finished?
      && (r.receipt.result.Succeeded? <==> MatchesTarget(Durable(p), grip.record.capsule))
      && (r.receipt.result.Failed? <==> MatchesCurrent(Durable(p), grip.record.capsule))
    ensures Calm(h, p) && old(Exact(h, grip)) && !TransfersOwner(grip) &&
            old(TargetAdmitted(p.disk, grip.record.capsule)) && OneStarts(grip.record.capsule, p.unready) ==>
      && r.Finished? && Decided(old(p.disk), p.disk, grip.record.capsule, p.unready)
      && (r.receipt.result.Succeeded? <==> grip.record.capsule.target.artifact !in p.unready)
      && (r.receipt.result.Failed? <==> grip.record.capsule.target.artifact in p.unready)
      && (caught <==> r.receipt.result.Failed? || grip.record.phase.NormalRuntimeStarting?)
  {
    var held;
    r, held := Drive(h, p, grip);
    caught := r.Raised?;
    if r.Raised? {
      ghost var blind;
      r, blind := Recover(h, p, held);
    }
  }

  /** The executor may act on the operation: nobody owns it yet, or its own transition does. */
  predicate MayDrive(d: Desk, id: nat) {
    d.owner.None? || d.owner.value.transitionId == id
  }

  /** Loads or initializes the executor owner and confirms the executor. */
  method TakeUp(h: DeliveryHost.Host, record: OperationRecord, id: nat) returns (ok: bool, grip: Grip)
    requires Consistent(DeskOf(h)) && Inspect(h.ledger, None) == Active(record, id)
    modifies h
    ensures Consistent(DeskOf(h))
    ensures h.ledger.receipts == old(h.ledger).receipts
    ensures OwnerKept(old(OwnerOf(h.owner)), OwnerOf(h.owner))
    ensures ok ==> Tracks(h, grip) && grip.record.capsule == record.capsule && !grip.services
    ensures ok ==> grip.record.phase == LaterPhase(record.phase, ExecutorConfirmed)
    ensures ok ==> OwnerOf(grip.owner) ==
                   Some(if old(h.owner).Some? then old(h.owner).value.owner else ExecutorOwner(record.capsule))
    ensures h.calm && old(h.alive) ==>
              (ok <==> MayDrive(old(DeskOf(h)), id)) && (ok ==> Exact(h, grip))
    ensures !old(h.alive) ==> !h.alive
  {
    grip := Grip(record, None, false);
    var owner;
    ok, owner := h.LoadOwner();
    if !ok { return; }
    if owner.None? {
      var committed := h.CommitOwner(owner, ExecutorOwner(record.capsule));
      if committed.Threw? { return false, grip; }
      owner := committed.value;
    }
    if owner.value.owner.transitionId != id { return false, grip; }
    grip := Grip(record, owner, false);
    ok := h.Depend();
    if ok && record.phase.IntentRecorded? {
      ok, grip := AdvanceTo(h, grip, ExecutorConfirmed);
    }
  }

  predicate OwnerKept(before: Option<Owner>, after: Option<Owner>) {
    before.Some? ==> after.Some? && after.value.transitionId == before.value.transitionId
  }

  /** The run can go no other way than through its own receipt. */
  predicate Drives(d: Desk, id: nat) {
    Inspect(d.ledger, None).Active? && Inspect(d.ledger, None).id == id
  }

  /** The deploy still has to be handed to the executor of its target release. */
  predicate HandsOff(d: Desk) {
    && d.ledger.inFlight.Some?
    && var capsule := d.ledger.inFlight.value.capsule;
    && capsule.payload.Deploy?
    && (if d.owner.Some? then d.owner.value else ExecutorOwner(capsule)).artifact != capsule.target.artifact
  }

  /** Nothing throws in the whole run, and the operation is this executor's to drive. */
  predicate Unhindered(h: DeliveryHost.Host, p: ProductionHost.Host, id: nat)
    reads h
  {
    Calm(h, p) && h.alive && Drives(DeskOf(h), id) && MayDrive(DeskOf(h), id)
  }

  /** The same, and the operation stays with this executor to its end. */
  predicate Undisturbed(h: DeliveryHost.Host, p: ProductionHost.Host, id: nat)
    reads h
  {
    Unhindered(h, p, id) && !HandsOff(DeskOf(h))
  }

  /**
   One executor run. It stores at most one receipt, of the operation in flight, and that
   receipt is truthful about the activation the run leaves behind, on every path and through
   every throw or death. A success leaves the target running, and one that was not caught leaves
   no journal, so that the live database is the target's. An operation that already has its
   receipt is only read. A hand-off leaves the target published and owning the operation, and an
   unhindered run hands off exactly if the target can be published. An undisturbed run that may
   cut over to the target ends in success exactly when the target comes up, and in failure with
   record and data unchanged otherwise.
   */
  method Execute(h: DeliveryHost.Host, p: ProductionHost.Host, id: nat) returns (r: Execution, ghost caught: bool)
    requires Consistent(DeskOf(h)) && p.Valid()
    modifies h, p
    ensures Consistent(DeskOf(h)) && p.Valid() && p.Extends(old(p.states), old(p.steps))
    ensures OwnerKept(old(OwnerOf(h.owner)), OwnerOf(h.owner))
    ensures if old(Drives(DeskOf(h), id))
            then OnlyTruthful(old(h.ledger), h.ledger, old(h.ledger).inFlight.value.capsule, Durable(p))
            else DeskOf(h) == old(DeskOf(h)) && p.disk == old(p.disk)
    ensures r.Finished? ==> h.alive && HoldsReceipt(h.ledger, r.receipt) && r.receipt.capsule.transitionId == id
    ensures r.Finished? ==> Inspect(h.ledger, Some(id)) == Done(r.receipt, id)
    ensures r.Finished? && old(Drives(DeskOf(h), id)) && r.receipt.result.Succeeded? ==> Succeeds(r.receipt, p.disk)
    ensures r.Finished? && old(Drives(DeskOf(h), id)) && !caught ==>
      && Succeeds(r.receipt, p.disk)
      && p.disk.journal.None? && DatabaseIsOf(p.disk, r.receipt.capsule.target.artifact)
    ensures r.Finished? && old(Drives(DeskOf(h), id)) && !caught ==> ActivationProtocol.Complete(old(p.disk))
    ensures h.calm && old(h.alive) && old(Inspect(h.ledger, None)).Done? && old(Inspect(h.ledger, None)).id == id ==>
              r == Finished(old(Inspect(h.ledger, None)).record)
    ensures r.HandedOff? ==>
      && old(Drives(DeskOf(h), id) && HandsOff(DeskOf(h)))
      && h.alive && Transferred(h, p, old(h.ledger).inFlight.value.capsule)
      && OnlyProvided(old(p.disk), p.disk, old(h.ledger).inFlight.value.capsule.target.artifact)
    ensures old(Unhindered(h, p, id) && HandsOff(DeskOf(h))) ==>
      && (r.HandedOff? <==> Publishable(old(p.disk), old(h.ledger).inFlight.value.capsule.target.artifact))
      && (!r.HandedOff? ==> r.Finished? && !r.receipt.result.Succeeded?)
    ensures old(Unhindered(h, p, id)) && caught ==>
              OwnerOf(h.owner) == Some(RecordedOwner(Durable(p), old(h.ledger).inFlight.value.capsule))
    ensures old(Undisturbed(h, p, id)) && BothStart(p, old(h.ledger).inFlight.value.capsule) ==>
      && r.Finished?
      && (r.receipt.result.Succeeded? <==> MatchesTarget(Durable(p), r.receipt.capsule))
      && (r.receipt.result.Failed? <==> MatchesCurrent(Durable(p), r.receipt.capsule))
    ensures old(Undisturbed(h, p, id)) && old(TargetAdmitted(p.disk, h.ledger.inFlight.value.capsule)) &&
            OneStarts(old(h.ledger).inFlight.value.capsule, p.unready) ==>
      && r.Finished? && Decided(old(p.disk), p.disk, r.receipt.capsule, p.unready)
      && (r.receipt.result.Succeeded? <==> r.receipt.capsule.target.artifact !in p.unready)
      && (r.receipt.result.Failed? <==> r.receipt.capsule.target.artifact in p.unready)
      && (caught <==> r.receipt.result.Failed? || old(h.ledger).inFlight.value.phase.NormalRuntimeStarting?)
  {
    r, caught := Raised, false;
    var inspection := h.InspectOperation(None);
    if inspection.Threw? { return; }
    match inspection.value {
      case Done(receipt, found) =>
        r := if found == id then Finished(receipt) else Raised;
      case Active(record, found) =>
        if found != id { return; }
        var ok, grip := TakeUp(h, record, id);
        if !ok { return; }
        r, caught := DriveOrRecover(h, p, grip);
      case _ =>
    }
  }

  /** What a cutover to the target still needs if the target may have to be published first. */
  predicate DeployAdmitted(d: ActivationProtocol.Disk, capsule: Capsule) {
    && MatchesCurrent(ActivationProtocol.Record(d), capsule)
    && d.journal.None? && ActivationProtocol.Complete(d) && ReleaseActivation.FreshId(d, capsule.transitionId)
    && Publishable(d, capsule.target.artifact)
  }

  /** Publishing what was missing is all that a deploy had to wait for. */
  lemma ProvidedIsAdmitted(a: ActivationProtocol.Disk, b: ActivationProtocol.Disk, capsule: Capsule)
    requires CapsuleIsConsistent(capsule) && capsule.payload.Deploy? && DeployAdmitted(a, capsule)
    requires OnlyProvided(a, b, capsule.target.artifact) && ActivationProtocol.Published(b, capsule.target.artifact)
    ensures TargetAdmitted(b, capsule)
  {
  }

  /**
   `runProductionDeliveryExecutor`: one run and, after a hand-off, a run of the target's own
   executor. A deploy that nothing disturbs and whose target is still to be published ends in
   success exactly if the target comes up, with the data carried over.
   */
  method RunExecutor(h: DeliveryHost.Host, p: ProductionHost.Host, id: nat) returns (r: Execution)
    requires Consistent(DeskOf(h)) && p.Valid()
    modifies h, p
    ensures Consistent(DeskOf(h)) && p.Valid() && p.Extends(old(p.states), old(p.steps))
    ensures !r.HandedOff?
    ensures r.Finished? ==> h.alive && HoldsReceipt(h.ledger, r.receipt) && r.receipt.capsule.transitionId == id
    ensures old(Unhindered(h, p, id) && HandsOff(DeskOf(h))) &&
            old(DeployAdmitted(p.disk, h.ledger.inFlight.value.capsule)) &&
            OneStarts(old(h.ledger).inFlight.value.capsule, p.unready) ==>
      && r.Finished? && Decided(old(p.disk), p.disk, r.receipt.capsule, p.unready)
      && (r.receipt.result.Succeeded? <==> r.receipt.capsule.target.artifact !in p.unready)
      && (r.receipt.result.Failed? <==> r.receipt.capsule.target.artifact in p.unready)
  {
    ghost var caught;
    r, caught := Execute(h, p, id);
    if !r.HandedOff? { return; }
    r := Raised;
    ghost var handed := p.disk;
    var ready := FindTarget(h, p, id);
    if !ready { return; }
    p.Serve();
    if Calm(h, p) && DeployAdmitted(old(p.disk), h.ledger.inFlight.value.capsule) {
      ProvidedIsAdmitted(old(p.disk), p.disk, h.ledger.inFlight.value.capsule);
    }
    var child;
    child, caught := Execute(h, p, id);
    if !child.Finished? { return; }
    var inspection := h.InspectOperation(Some(id));
    if inspection.Returned? && inspection.value.Done? {
      r := Finished(inspection.value.record);
    }
  }

  /** The operation is in progress under its own owner, and the target's executor can be started. */
  method FindTarget(h: DeliveryHost.Host, p: ProductionHost.Host, id: nat) returns (ok: bool)
    requires Consistent(DeskOf(h)) && p.Valid()
    modifies h`alive
    ensures ok ==>
      && h.alive && Inspect(h.ledger, None).Active? && h.owner.Some? && h.owner.value.owner.transitionId == id
      && ActivationProtocol.Published(p.disk, Inspect(h.ledger, None).record.capsule.target.artifact)
    ensures h.calm && old(h.alive) ==>
      && h.alive
      && (ok <==> Inspect(h.ledger, None).Active? && h.owner.Some? && h.owner.value.owner.transitionId == id &&
                  ActivationProtocol.Published(p.disk, Inspect(h.ledger, None).record.capsule.target.artifact))
  {
    ok := false;
    var inspection := h.InspectOperation(None);
    if inspection.Threw? || !inspection.value.Active? { return; }
    var read, owner := h.LoadOwner();
    if !read || owner.None? || owner.value.owner.transitionId != id { return; }
    ok := h.Depend();
    ok := ok && ActivationProtocol.Published(p.disk, inspection.value.record.capsule.target.artifact);
  }

  predicate DatabaseIsOf(d: ActivationProtocol.Disk, artifact: Artifact) {
    d.live.Some? && d.live.value.image.owner == artifact
  }

  /**
   What a success means for the database: it is the target's if no journal is left, or if the
   one left is still going forward. Only a rollback or a later transition can be underway otherwise.
   */
  lemma SuccessNamesTheDatabase(d: ActivationProtocol.Disk, capsule: Capsule)
    requires ActivationProtocol.Invariant(d) && MatchesTarget(ActivationProtocol.Record(d), capsule)
    ensures d.journal.None? ==> DatabaseIsOf(d, capsule.target.artifact)
    ensures d.journal.Some? && ActivationProtocol.Settling(d, d.journal.value) ==>
              DatabaseIsOf(d, capsule.target.artifact)
    ensures !DatabaseIsOf(d, capsule.target.artifact) ==>
              && d.journal.Some?
              && (d.journal.value.phase.RollbackRequired? ||
                  d.journal.value.previousActivation == ActivationProtocol.Record(d))
  {
  }

  /** What a failure means for it: without a journal, or before anything was promoted, it is the current one's. */
  lemma FailureNamesTheDatabase(d: ActivationProtocol.Disk, capsule: Capsule)
    requires ActivationProtocol.Invariant(d) && MatchesCurrent(ActivationProtocol.Record(d), capsule)
    ensures d.journal.None? ==> DatabaseIsOf(d, capsule.current.artifact)
    ensures !DatabaseIsOf(d, capsule.current.artifact) ==>
              && d.journal.Some? && !d.journal.value.phase.ServiceStopRequested?
              && (d.journal.value.previousActivation == ActivationProtocol.Record(d) ||
                  d.journal.value.phase.RollbackRequired?)
  {
  }

  /** Every stored receipt told the truth about some state of the production run it was stored beside. */
  ghost predicate Sworn(receipts: map<nat, OperationRecord>, testimony: map<nat, nat>,
                        states: seq<ActivationProtocol.Disk>) {
    forall id :: id in receipts ==>
      && id in testimony && testimony[id] < |states|
      && Truthful(receipts[id], ActivationProtocol.Record(states[testimony[id]]))
  }

  lemma SwornLater(receipts: map<nat, OperationRecord>, testimony: map<nat, nat>,
                   states: seq<ActivationProtocol.Disk>, later: seq<ActivationProtocol.Disk>)
    requires Sworn(receipts, testimony, states) && states <= later
    ensures Sworn(receipts, testimony, later)
  {
    forall id | id in receipts ensures states[testimony[id]] == later[testimony[id]] {
    }
  }

  lemma SwornAfterRun(before: Ledger, after: Ledger, capsule: Capsule, testimony: map<nat, nat>,
                      states: seq<ActivationProtocol.Disk>, now: nat)
    requires Sworn(before.receipts, testimony, states) && now < |states|
    requires OnlyTruthful(before, after, capsule, ActivationProtocol.Record(states[now]))
    ensures Sworn(after.receipts,
                  if capsule.transitionId in before.receipts then testimony
                  else testimony[capsule.transitionId := now], states)
  {
    var id := capsule.transitionId;
    if id !in before.receipts {
      forall x | x in after.receipts && x != id
        ensures x in before.receipts && after.receipts[x] == before.receipts[x] {}
    }
  }

  /**
   Any number of preparations, executor runs, activations by hand, marker clears and receipt
   retentions, each of which may throw or die anywhere. The operation directory never holds a
   conflict, the owner stays linked to its operation, record and database are paired in every
   journal-free state of the whole run, and every receipt was true of the state in which it was
   stored.
   */
  method Deliver(h: DeliveryHost.Host, p: ProductionHost.Host, ghost initial: map<nat, nat>)
    returns (inspection: Inspection, ghost testimony: map<nat, nat>)
    requires Consistent(DeskOf(h)) && p.Valid() && Sworn(h.ledger.receipts, initial, p.states)
    modifies h, p
    ensures Consistent(DeskOf(h)) && p.Valid() && p.Extends(old(p.states), old(p.steps))
    ensures Sworn(h.ledger.receipts, testimony, p.states)
    ensures forall k :: 0 <= k < |p.states| && p.states[k].journal.None? ==> ActivationProtocol.Paired(p.states[k])
    ensures !inspection.Conflict?
  {
    testimony := initial;
    var rounds: int := *;
    var i := 0;
    while i < rounds
      invariant Consistent(DeskOf(h)) && p.Valid() && p.Extends(old(p.states), old(p.steps))
      invariant Sworn(h.ledger.receipts, testimony, p.states)
    {
      testimony := DeliverOnce(h, p, testimony);
      i := i + 1;
    }
    inspection := Inspect(h.ledger, None);
    SoundMeansNoConflict(h.ledger);
    forall k | 0 <= k < |p.states| && p.states[k].journal.None? ensures ActivationProtocol.Paired(p.states[k]) {
      ActivationRuns.RunKeepsInvariant(p.states, p.steps, k);
    }
  }

  /** One process of any kind. */
  method DeliverOnce(h: DeliveryHost.Host, p: ProductionHost.Host, ghost before: map<nat, nat>)
    returns (ghost testimony: map<nat, nat>)
    requires Consistent(DeskOf(h)) && p.Valid() && Sworn(h.ledger.receipts, before, p.states)
    modifies h, p
    ensures Consistent(DeskOf(h)) && p.Valid() && p.Extends(old(p.states), old(p.steps))
    ensures Sworn(h.ledger.receipts, testimony, p.states)
  {
    testimony := before;
    var id: nat, now: nat := *, *;
    h.alive := true;
    if * {
      var capsule: Capsule := *;
      PrepareOnce(h, capsule, now);
    } else if * {
      testimony := ExecuteOnce(h, p, id, before);
    } else if * {
      ClearOnce(h, id);
    } else if * {
      var current: Option<nat>, previous: Option<nat>, active: Option<nat> := *, *, *;
      if ProtectsOwner(DeskOf(h), Retain(current, previous, active)) {
        RetainOnce(h, Retain(current, previous, active));
      }
    } else {
      var request: ReleaseActivation.Request := *;
      ReleaseActivation.Operate(p, [request]);
      SwornLater(h.ledger.receipts, testimony, old(p.states), p.states);
    }
  }

  method PrepareOnce(h: DeliveryHost.Host, capsule: Capsule, now: nat)
    requires Consistent(DeskOf(h))
    modifies h
    ensures Consistent(DeskOf(h)) && h.ledger.receipts == old(h.ledger).receipts
  {
    ghost var before := DeskOf(h);
    var prepared := PrepareOperation(h, capsule, now);
    PrepareKeepsConsistent(before, capsule, now, DeskOf(h));
  }

  method ClearOnce(h: DeliveryHost.Host, id: nat)
    requires Consistent(DeskOf(h))
    modifies h
    ensures Consistent(DeskOf(h)) && h.ledger.receipts == old(h.ledger).receipts
  {
    ghost var before := DeskOf(h);
    var cleared := ClearMarker(h, id);
    ClearKeepsConsistent(before, id, DeskOf(h));
  }

  method RetainOnce(h: DeliveryHost.Host, call: Call)
    requires Consistent(DeskOf(h)) && call.Retain? && ProtectsOwner(DeskOf(h), call)
    modifies h
    ensures Consistent(DeskOf(h))
    ensures forall id :: id in h.ledger.receipts ==>
              id in old(h.ledger).receipts && h.ledger.receipts[id] == old(h.ledger).receipts[id]
  {
    ghost var before := DeskOf(h);
    var retained := h.RetainReceipts(call.current, call.previous, call.active);
    RetentionKeepsConsistent(before, call, DeskOf(h));
  }

  method ExecuteOnce(h: DeliveryHost.Host, p: ProductionHost.Host, id: nat, ghost before: map<nat, nat>)
    returns (ghost testimony: map<nat, nat>)
    requires Consistent(DeskOf(h)) && p.Valid() && Sworn(h.ledger.receipts, before, p.states)
    modifies h, p
    ensures Consistent(DeskOf(h)) && p.Valid() && p.Extends(old(p.states), old(p.steps))
    ensures Sworn(h.ledger.receipts, testimony, p.states)
  {
    testimony := before;
    p.Restart();
    ghost var desk := DeskOf(h);
    var run, caught := Execute(h, p, id);
    SwornLater(desk.ledger.receipts, before, old(p.states), p.states);
    if Drives(desk, id) {
      var capsule := desk.ledger.inFlight.value.capsule;
      SwornAfterRun(desk.ledger, h.ledger, capsule, before, p.states, |p.steps|);
      testimony := before[id := |p.steps|];
    }
  }
}
