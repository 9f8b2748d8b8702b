/**
 The delivery side of the host an executor runs on: the operation directory and the executor
 owner file. A durable write may throw before or after it happened, a read may throw, and the
 process may die there; a dead process changes nothing more. On a calm host nothing throws and
 nobody dies.
 */
module DeliveryHost {
  import opened Outcomes
  import opened ActivationRecords
  import opened DeliveryRecords
  import opened DeliveryLedger

  class Host {
    var ledger: Ledger
    var owner: Option<OwnerFile>
    var alive: bool
    const calm: bool

    constructor (ledger: Ledger, owner: Option<OwnerFile>, calm: bool)
      ensures this.ledger == ledger && this.owner == owner
      ensures alive && this.calm == calm
    {
      this.ledger, this.owner, alive, this.calm := ledger, owner, true, calm;
    }

    /** A read, a check or an external command that may throw. */
    method Depend() returns (ok: bool)
      modifies this`alive
      ensures ok ==> alive
      ensures calm && old(alive) ==> ok
      ensures calm || !old(alive) ==> alive == old(alive)
    {
      ok := false;
      if !alive { return; }
      var fails: bool := *;
      if fails && !calm {
        alive := *;
        return;
      }
      ok := true;
    }

    /** One durable write into the operation directory. */
    method Write(next: Ledger) returns (ok: bool)
      modifies this`ledger, this`alive
      ensures ledger == old(ledger) || ledger == next
      ensures ok ==> alive && ledger == next
      ensures calm && old(alive) ==> ok
      ensures calm || !old(alive) ==> alive == old(alive)
      ensures !old(alive) ==> ledger == old(ledger)
    {
      ok := Depend();
      if !ok { return; }
      ledger := next;
      ok := Depend();
    }

    method WriteOwner(next: Option<OwnerFile>) returns (ok: bool)
      modifies this`owner, this`alive
      ensures owner == old(owner) || owner == next
      ensures ok ==> alive && owner == next
      ensures calm && old(alive) ==> ok
      ensures calm || !old(alive) ==> alive == old(alive)
      ensures !old(alive) ==> owner == old(owner)
    {
      ok := Depend();
      if !ok { return; }
      owner := next;
      ok := Depend();
    }

    /** Inspection of the operation in flight, or of one requested operation. */
    method InspectOperation(requested: Option<nat>) returns (r: Outcome<Inspection>)
      modifies this`alive
      ensures r.Returned? ==> alive && r.value == Inspect(ledger, requested)
      ensures calm && old(alive) ==> r.Returned?
      ensures calm || !old(alive) ==> alive == old(alive)
    {
      var ok := Depend();
      r := if ok then Returned(Inspect(ledger, requested)) else Threw;
    }

    method LoadOwner() returns (ok: bool, loaded: Option<OwnerFile>)
      modifies this`alive
      ensures ok ==> alive && loaded == owner
      ensures calm && old(alive) ==> ok
      ensures calm || !old(alive) ==> alive == old(alive)
    {
      ok := Depend();
      loaded := if ok then owner else None;
    }

    /** Compare-and-swap of the in-flight entry; an entry that already is `next` is accepted. */
    method ReplaceInFlight(expected: Option<OperationRecord>, next: OperationRecord) returns (ok: bool)
      modifies this`ledger, this`alive
      ensures ledger == old(ledger) ||
              (ledger == old(ledger).(inFlight := Some(next)) && old(ledger).inFlight == expected)
      ensures ok ==> alive && ledger == old(ledger).(inFlight := Some(next))
      ensures ok ==> old(ledger).inFlight == Some(next) || old(ledger).inFlight == expected
      ensures calm && old(alive) && (old(ledger).inFlight == Some(next) || old(ledger).inFlight == expected) ==> ok
      ensures calm || !old(alive) ==> alive == old(alive)
    {
      ok := Depend();
      if !ok || ledger.inFlight == Some(next) { return; }
      if ledger.inFlight != expected { return false; }
      ok := Write(ledger.(inFlight := Some(next)));
    }

    method CreateOperation(capsule: Capsule, at: nat) returns (r: Outcome<OperationRecord>)
      modifies this`ledger, this`alive
      ensures MayLeave(old(ledger), Create(capsule, at), ledger)
      ensures r.Returned? ==> alive && Accepted(old(ledger), Create(capsule, at)) && r.value == Intent(capsule, at)
      ensures r.Returned? ==> ledger == After(old(ledger), Create(capsule, at))
      ensures calm && old(alive) ==> (r.Returned? <==> Accepted(old(ledger), Create(capsule, at)))
      ensures calm || !old(alive) ==> alive == old(alive)
    {
      if !RecordIsConsistent(Intent(capsule, at)) { return Threw; }
      var inFlight := InspectOperation(None);
      if inFlight.Threw? || !inFlight.value.Missing? { return Threw; }
      var historical := InspectOperation(Some(capsule.transitionId));
      if historical.Threw? || !historical.value.Missing? { return Threw; }
      var ok := ReplaceInFlight(None, Intent(capsule, at));
      r := if ok then Returned(Intent(capsule, at)) else Threw;
    }

    method AdvanceOperation(expected: OperationRecord, phase: OperationPhase, at: nat)
      returns (r: Outcome<OperationRecord>)
      modifies this`ledger, this`alive
      ensures MayLeave(old(ledger), Advance(expected, phase, at), ledger)
      ensures r.Returned? ==> alive && Accepted(old(ledger), Advance(expected, phase, at))
      ensures r.Returned? ==> r.value == InProgress(expected.capsule, at, phase) && ledger.inFlight == Some(r.value)
      ensures r.Returned? ==> ledger == After(old(ledger), Advance(expected, phase, at))
      ensures calm && old(alive) ==> (r.Returned? <==> Accepted(old(ledger), Advance(expected, phase, at)))
      ensures calm || !old(alive) ==> alive == old(alive)
    {
      if !expected.InProgress? || !RecordIsConsistent(expected) || at < expected.updatedAtMs ||
         !CanAdvance(expected.phase, phase) {
        return Threw;
      }
      var next := InProgress(expected.capsule, at, phase);
      var ok := Depend();
      if !ok || expected.capsule.transitionId in ledger.receipts { return Threw; }
      ok := ReplaceInFlight(Some(expected), next);
      r := if ok then Returned(next) else Threw;
    }

    method StoreReceipt(receipt: OperationRecord) returns (ok: bool)
      requires receipt.Terminal?
      modifies this`ledger, this`alive
      ensures ledger == old(ledger) ||
              (receipt.capsule.transitionId !in old(ledger).receipts && ledger == Stored(old(ledger), receipt))
      ensures ok ==> alive && HoldsReceipt(ledger, receipt)
      ensures ok ==> receipt.capsule.transitionId !in old(ledger).receipts || HoldsReceipt(old(ledger), receipt)
      ensures calm && old(alive) ==>
                (ok <==> receipt.capsule.transitionId !in old(ledger).receipts || HoldsReceipt(old(ledger), receipt))
      ensures calm || !old(alive) ==> alive == old(alive)
    {
      ok := Depend();
      if !ok { return; }
      if receipt.capsule.transitionId in ledger.receipts {
        return HoldsReceipt(ledger, receipt);
      }
      ok := Write(Stored(ledger, receipt));
    }

    /** The receipt is durable before the in-flight entry is even looked at. */
    method CompleteOperation(expected: OperationRecord, result: TerminalResult) returns (r: Outcome<OperationRecord>)
      modifies this`ledger, this`alive
      ensures MayLeave(old(ledger), Complete(expected, result), ledger)
      ensures r.Returned? ==> alive && Accepted(old(ledger), Complete(expected, result))
      ensures r.Returned? ==> r.value == ReceiptFor(expected, result) && HoldsReceipt(ledger, r.value)
      ensures r.Returned? ==> ledger == After(old(ledger), Complete(expected, result))
      ensures calm && old(alive) ==> (r.Returned? <==> Accepted(old(ledger), Complete(expected, result)))
      ensures calm || !old(alive) ==> alive == old(alive)
    {
      var receipt := ReceiptFor(expected, result);
      if !expected.InProgress? || !RecordIsConsistent(expected) ||
         result.completedAtMs < expected.updatedAtMs || !RecordIsConsistent(receipt) {
        return Threw;
      }
      var ok := StoreReceipt(receipt);
      if !ok { return Threw; }
      ok := Depend();
      if !ok { return Threw; }
      if ledger.inFlight == Some(receipt) { return Returned(receipt); }
      ok := ReplaceInFlight(Some(expected), receipt);
      r := if ok then Returned(receipt) else Threw;
    }

    method ClearOperation(receipt: OperationRecord) returns (ok: bool)
      modifies this`ledger, this`alive
      ensures MayLeave(old(ledger), Clear(receipt), ledger)
      ensures ok ==> alive && Accepted(old(ledger), Clear(receipt)) && ledger == After(old(ledger), Clear(receipt))
      ensures calm && old(alive) ==> (ok <==> Accepted(old(ledger), Clear(receipt)))
      ensures calm || !old(alive) ==> alive == old(alive)
    {
      if !receipt.Terminal? { return false; }
      var id := receipt.capsule.transitionId;
      var inspection := InspectOperation(Some(id));
      if inspection.Threw? || inspection.value != Done(receipt, id) { return false; }
      ok := Depend();
      if !ok || ledger.inFlight.None? { return; }
      if ledger.inFlight.value.capsule != receipt.capsule { return false; }
      ok := Write(ledger.(inFlight := None));
    }

    /** Removes the unprotected receipts one by one. */
    method RemoveReceipts(kept: set<nat>) returns (ok: bool)
      requires alive
      modifies this`ledger, this`alive
      ensures PartlyRetained(old(ledger), ledger, kept)
      ensures ok ==> alive && ledger.receipts.Keys <= kept
      ensures calm ==> ok
    {
      var todo := ledger.receipts.Keys - kept;
      while todo != {}
        invariant alive && PartlyRetained(old(ledger), ledger, kept)
        invariant todo == ledger.receipts.Keys - kept
        decreases |todo|
      {
        var id :| id in todo;
        WithoutIsPartlyRetained(old(ledger), ledger, kept, id);
        ok := Write(Without(ledger, id));
        if !ok { return; }
        todo := todo - {id};
      }
      forall id | id in ledger.receipts.Keys ensures id in kept {
        assert id !in todo;
      }
      return true;
    }

    /** Verifies every entry before the first removal. */
    method RetainReceipts(current: Option<nat>, previous: Option<nat>, active: Option<nat>) returns (ok: bool)
      modifies this`ledger, this`alive
      ensures MayLeave(old(ledger), Retain(current, previous, active), ledger)
      ensures ok ==> alive && Accepted(old(ledger), Retain(current, previous, active))
      ensures ok ==> ledger == After(old(ledger), Retain(current, previous, active))
      ensures calm && old(alive) ==> (ok <==> Accepted(old(ledger), Retain(current, previous, active)))
      ensures calm || !old(alive) ==> alive == old(alive)
    {
      ok := Depend();
      if !ok { return; }
      if IdOf(ledger.inFlight) != active ||
         |ledger.receipts.Keys| + (if ledger.inFlight.Some? then 1 else 0) > MAXIMUM_DIRECTORY_ENTRIES ||
         !ReceiptsAreNamed(ledger.receipts) {
        return false;
      }
      ok := RemoveReceipts(Protected(Retain(current, previous, active)));
      if ok {
        RetainedCompletely(old(ledger), ledger, Retain(current, previous, active));
      }
    }

    /** Initializes or transfers the executor owner by compare-and-swap. */
    method CommitOwner(expected: Option<OwnerFile>, next: Owner) returns (r: Outcome<Option<OwnerFile>>)
      modifies this`owner, this`alive
      ensures owner == old(owner) || (OwnerOf(owner) == Some(next) && old(owner) == expected)
      ensures old(owner).Some? ==> owner.Some? && owner.value.owner.transitionId == old(owner).value.owner.transitionId
      ensures r.Returned? ==> alive && old(owner) == expected && r.value == owner && OwnerOf(owner) == Some(next)
      ensures calm && old(alive) ==>
                (r.Returned? <==> old(owner) == expected &&
                                  (expected.Some? ==> expected.value.owner.transitionId == next.transitionId))
      ensures calm || !old(alive) ==> alive == old(alive)
    {
      if expected.Some? && expected.value.owner.transitionId != next.transitionId { return Threw; }
      var ok := Depend();
      if !ok || owner != expected { return Threw; }
      var identity: nat := *;
      var file := Some(OwnerFile(next, identity));
      ok := WriteOwner(file);
      r := if ok then Returned(file) else Threw;
    }

    method ClearOwner(expected: OwnerFile) returns (ok: bool)
      modifies this`owner, this`alive
      ensures owner == old(owner) || (owner == None && old(owner) == Some(expected))
      ensures ok ==> alive && old(owner) == Some(expected) && owner == None
      ensures calm && old(alive) ==> (ok <==> old(owner) == Some(expected))
      ensures calm || !old(alive) ==> alive == old(alive)
    {
      ok := Depend();
      if !ok || owner != Some(expected) { return false; }
      ok := WriteOwner(None);
    }
  }
}
