/**
 Preparing an operation and clearing its marker: each is two durable writes, one in the
 operation directory and one in the executor owner file, and each can be replayed after a
 crash between them.
 */
module DeliveryOwnership {
  import opened Outcomes
  import opened ActivationRecords
  import opened DeliveryRecords
  import opened DeliveryLedger
  import DeliveryHost

  datatype Desk = Desk(ledger: Ledger, owner: Option<Owner>)

  function DeskOf(h: DeliveryHost.Host): Desk
    reads h
  {
    Desk(h.ledger, OwnerOf(h.owner))
  }

  /** The owner belongs to the operation in flight, or to a finished one not yet cleared. */
  predicate Linked(d: Desk) {
    d.owner.Some? ==>
      || IdOf(d.ledger.inFlight) == Some(d.owner.value.transitionId)
      || (d.ledger.inFlight.None? && d.owner.value.transitionId in d.ledger.receipts)
  }

  predicate Consistent(d: Desk) {
    && Sound(d.ledger)
    && (d.ledger.inFlight.Some? ==> RecordIsConsistent(d.ledger.inFlight.value))
    && Linked(d)
  }

  // ---------------------------------------------------------------- prepare

  function IntentTime(capsule: Capsule, now: nat): nat {
    LaterOf(now, capsule.queuedAtMs)
  }

  predicate PrepareAccepted(d: Desk, capsule: Capsule) {
    && CapsuleIsConsistent(capsule)
    && match Inspect(d.ledger, Some(capsule.transitionId))
       case Active(record, _) =>
         record.capsule == capsule && (d.owner.None? || d.owner == Some(ExecutorOwner(capsule)))
       case Missing(_) => d.owner.None? && Inspect(d.ledger, None).Missing?
       case _ => false
  }

  /** The record an accepted preparation returns. */
  function PreparedRecord(d: Desk, capsule: Capsule, now: nat): OperationRecord {
    match Inspect(d.ledger, Some(capsule.transitionId))
    case Active(record, _) => record
    case _ => Intent(capsule, IntentTime(capsule, now))
  }

  function Created(d: Desk, capsule: Capsule, now: nat): Desk {
    d.(ledger := d.ledger.(inFlight := Some(PreparedRecord(d, capsule, now))))
  }

  function Prepared(d: Desk, capsule: Capsule, now: nat): Desk {
    Created(d, capsule, now).(owner := Some(ExecutorOwner(capsule)))
  }

  predicate PrepareMayLeave(d: Desk, capsule: Capsule, now: nat, e: Desk) {
    || e == d
    || (PrepareAccepted(d, capsule) && (e == Created(d, capsule, now) || e == Prepared(d, capsule, now)))
  }

  method PrepareOperation(h: DeliveryHost.Host, capsule: Capsule, now: nat) returns (r: Outcome<OperationRecord>)
    modifies h
    ensures PrepareMayLeave(old(DeskOf(h)), capsule, now, DeskOf(h))
    ensures r.Returned? ==> PrepareAccepted(old(DeskOf(h)), capsule)
    ensures r.Returned? ==> DeskOf(h) == Prepared(old(DeskOf(h)), capsule, now) && h.ledger.inFlight == Some(r.value)
    ensures h.calm && old(h.alive) ==> (r.Returned? <==> PrepareAccepted(old(DeskOf(h)), capsule))
    ensures !old(h.alive) ==> !h.alive
  {
    if !CapsuleIsConsistent(capsule) { return Threw; }
    var existing := h.InspectOperation(Some(capsule.transitionId));
    if existing.Threw? { return Threw; }
    var read, ownerState := h.LoadOwner();
    if !read { return Threw; }
    var expectedOwner := ExecutorOwner(capsule);
    match existing.value {
      case Active(record, _) =>
        if record.capsule != capsule { return Threw; }
        if ownerState.None? {
          var committed := h.CommitOwner(ownerState, expectedOwner);
          if committed.Threw? { return Threw; }
        } else if ownerState.value.owner != expectedOwner {
          return Threw;
        }
        return Returned(record);
      case Missing(_) =>
        if ownerState.Some? { return Threw; }
        var created := h.CreateOperation(capsule, IntentTime(capsule, now));
        if created.Threw? { return Threw; }
        var committed := h.CommitOwner(ownerState, expectedOwner);
        if committed.Threw? { return Threw; }
        return created;
      case _ => return Threw;
    }
  }

  /**
   Replay of a preparation: whatever an interrupted call left, the same call is accepted again
   and ends where the uninterrupted one ends. Only an intent that was never written takes the
   later call's time.
   */
  lemma PrepareReplays(d: Desk, capsule: Capsule, now: nat, e: Desk, later: nat)
    requires PrepareAccepted(d, capsule) && PrepareMayLeave(d, capsule, now, e)
    ensures PrepareAccepted(e, capsule)
    ensures e != d ==> Prepared(e, capsule, later) == Prepared(d, capsule, now)
    ensures Prepared(e, capsule, now) == Prepared(d, capsule, now)
  {
  }

  /** An unaccepted preparation changes nothing, so it stays unaccepted. */
  lemma PrepareIsRefusedUnchanged(d: Desk, capsule: Capsule, now: nat, e: Desk)
    requires !PrepareAccepted(d, capsule) && PrepareMayLeave(d, capsule, now, e)
    ensures e == d
  {
  }

  lemma PrepareKeepsConsistent(d: Desk, capsule: Capsule, now: nat, e: Desk)
    requires Consistent(d) && PrepareMayLeave(d, capsule, now, e)
    ensures Consistent(e)
    ensures d.owner.Some? ==> e.owner == d.owner
  {
  }

  /** While an owner remains, only its own operation can be prepared. */
  lemma OwnerFencesPreparation(d: Desk, capsule: Capsule)
    requires Consistent(d) && d.owner.Some? && PrepareAccepted(d, capsule)
    ensures d.owner == Some(ExecutorOwner(capsule)) && IdOf(d.ledger.inFlight) == Some(capsule.transitionId)
  {
  }

  // ---------------------------------------------------------------- clear

  predicate ReceiptClears(d: Desk, id: nat) {
    match Inspect(d.ledger, Some(id))
    case Done(receipt, _) => Accepted(d.ledger, Clear(receipt))
    case _ => false
  }

  predicate ClearAccepted(d: Desk, id: nat) {
    ReceiptClears(d, id) && (d.owner.Some? ==> d.owner.value.transitionId == id)
  }

  function Unmarked(d: Desk): Desk {
    d.(ledger := d.ledger.(inFlight := None))
  }

  function Cleared(d: Desk): Desk {
    Unmarked(d).(owner := None)
  }

  predicate ClearMayLeave(d: Desk, id: nat, e: Desk) {
    || e == d
    || (ReceiptClears(d, id) && e == Unmarked(d))
    || (ClearAccepted(d, id) && e == Cleared(d))
  }

  method ClearMarker(h: DeliveryHost.Host, id: nat) returns (r: Outcome<OperationRecord>)
    modifies h
    ensures ClearMayLeave(old(DeskOf(h)), id, DeskOf(h))
    ensures r.Returned? ==> ClearAccepted(old(DeskOf(h)), id) && DeskOf(h) == Cleared(old(DeskOf(h)))
    ensures r.Returned? ==> id in h.ledger.receipts && r.value == h.ledger.receipts[id]
    ensures h.calm && old(h.alive) ==> (r.Returned? <==> ClearAccepted(old(DeskOf(h)), id))
    ensures !old(h.alive) ==> !h.alive
  {
    var inspection := h.InspectOperation(Some(id));
    if inspection.Threw? || !inspection.value.Done? { return Threw; }
    var receipt := inspection.value.record;
    var ok := h.ClearOperation(receipt);
    if !ok { return Threw; }
    var read, owner := h.LoadOwner();
    if !read { return Threw; }
    if owner.Some? {
      if owner.value.owner.transitionId != id { return Threw; }
      ok := h.ClearOwner(owner.value);
      if !ok { return Threw; }
    }
    return Returned(receipt);
  }

  /** Replay of a clear ends where the uninterrupted one ends, also when nothing is left to do. */
  lemma ClearReplays(d: Desk, id: nat, e: Desk)
    requires ClearAccepted(d, id) && ClearMayLeave(d, id, e)
    ensures ClearAccepted(e, id) && Cleared(e) == Cleared(d)
  {
  }

  lemma ClearKeepsConsistent(d: Desk, id: nat, e: Desk)
    requires Consistent(d) && ClearMayLeave(d, id, e)
    ensures Consistent(e)
  {
  }

  /** The owner leaves only through the clear of its own transition, whose receipt is stored. */
  lemma OwnerLeavesOnlyByItsClear(d: Desk, id: nat, e: Desk)
    requires ClearMayLeave(d, id, e) && e.owner != d.owner
    ensures d.owner.Some? && d.owner.value.transitionId == id && e.owner.None?
    ensures id in e.ledger.receipts && e.ledger.inFlight.None?
  {
  }

  // ---------------------------------------------------------------- retention beside an owner

  predicate RetentionMayLeave(d: Desk, call: Call, e: Desk) {
    call.Retain? && MayLeave(d.ledger, call, e.ledger) && e.owner == d.owner
  }

  /** Receipt retention takes the receipts of the activation, not of the executor owner. */
  predicate ProtectsOwner(d: Desk, call: Call) {
    call.Retain? && Accepted(d.ledger, call) && d.owner.Some? ==>
      d.owner.value.transitionId in Protected(call)
  }

  lemma RetentionKeepsConsistent(d: Desk, call: Call, e: Desk)
    requires Consistent(d) && RetentionMayLeave(d, call, e) && ProtectsOwner(d, call)
    ensures Consistent(e)
  {
  }

  /**
   Exactly when an accepted retention can cut an owner off from its receipt: when it does not
   protect the owner's transition.
   */
  lemma RetentionIsSafeExactly(d: Desk, call: Call)
    requires Consistent(d) && call.Retain? && Accepted(d.ledger, call)
    ensures ProtectsOwner(d, call) <==> forall e :: RetentionMayLeave(d, call, e) ==> Consistent(e)
  {
    if ProtectsOwner(d, call) {
      forall e | RetentionMayLeave(d, call, e) ensures Consistent(e) {
        RetentionKeepsConsistent(d, call, e);
      }
    } else {
      assert IdOf(d.ledger.inFlight) == call.active;
      var e := d.(ledger := After(d.ledger, call));
      assert RetentionMayLeave(d, call, e);
      assert !Linked(e);
    }
  }

  /** An owner whose operation has left both the in-flight entry and the receipts. */
  predicate Stranded(d: Desk) {
    d.owner.Some? && d.ledger.inFlight.None? && d.owner.value.transitionId !in d.ledger.receipts
  }

  /**
   A stranded owner is final: no operation can be prepared, the marker cannot be cleared, and
   no call of any kind brings the host out of it.
   */
  lemma StrandedIsFinal(d: Desk, capsule: Capsule, now: nat, id: nat, retention: Call, e: Desk)
    requires Stranded(d)
    requires PrepareMayLeave(d, capsule, now, e) || ClearMayLeave(d, id, e) || RetentionMayLeave(d, retention, e)
    ensures !PrepareAccepted(d, capsule) && !ClearAccepted(d, id)
    ensures Stranded(e) && e.owner == d.owner
  {
  }

  // ---------------------------------------------------------------- a stranded owner

  const NOBODY: Desk := Desk(EMPTY, None)

  function Settled(): Desk {
    var receipt := ReceiptFor(Intent(SampleCapsule(0), 0), UnknownOutcome(0, None));
    Desk(Ledger(Some(receipt), map[receipt.capsule.transitionId := receipt]), Some(ExecutorOwner(SampleCapsule(0))))
  }

  /** Preparing and completing one operation leads there. */
  lemma SettledIsReached()
    ensures PrepareAccepted(NOBODY, SampleCapsule(0))
    ensures var prepared, call := Prepared(NOBODY, SampleCapsule(0), 0),
                                  Complete(Intent(SampleCapsule(0), 0), UnknownOutcome(0, None));
      Accepted(prepared.ledger, call) && Settled() == prepared.(ledger := After(prepared.ledger, call))
  {
  }

  /**
   An operation completed with an unknown outcome, and its clear died after the in-flight entry
   was gone. The operation never became the activation, so retention by the activation's
   transitions drops its receipt, and its owner is stranded.
   */
  lemma RetentionStrandsAnOwner()
    ensures ClearAccepted(Settled(), 7) && ClearMayLeave(Settled(), 7, Unmarked(Settled()))
    ensures Consistent(Unmarked(Settled()))
    ensures var call := Retain(Some(3), Some(2), None);
      var stranded := Unmarked(Settled()).(ledger := After(Unmarked(Settled()).ledger, call));
      && Accepted(Unmarked(Settled()).ledger, call) && RetentionMayLeave(Unmarked(Settled()), call, stranded)
      && Stranded(stranded)
  {
    var d := Unmarked(Settled());
    assert d.ledger.receipts.Keys == {7};
  }
}
