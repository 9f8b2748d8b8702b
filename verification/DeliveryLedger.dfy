/**
 The operation directory: one in-flight entry and the receipts. Each call is described by the
 directories it may leave behind, also when it throws or its process dies between two durable
 writes; the theorems are about whole histories of such calls.
 */
module DeliveryLedger {
  import opened Outcomes
  import opened ActivationRecords
  import opened DeliveryRecords

  datatype Ledger = Ledger(inFlight: Option<OperationRecord>, receipts: map<nat, OperationRecord>)

  datatype Inspection =
    | Conflict(id: nat)
    | Active(record: OperationRecord, id: nat)
    | Missing(missing: Option<nat>)
    | Done(record: OperationRecord, id: nat)

  const MAXIMUM_DIRECTORY_ENTRIES: nat := 128

  const EMPTY: Ledger := Ledger(None, map[])

  function Inspect(s: Ledger, requested: Option<nat>): Inspection {
    var selected := if requested.Some? then requested else IdOf(s.inFlight);
    if selected.None? then Missing(None)
    else
      var id := selected.value;
      var activeMatches := IdOf(s.inFlight) == Some(id);
      if id in s.receipts then
        var receipt := s.receipts[id];
        if !receipt.Terminal? then Conflict(id)
        else if activeMatches &&
                (s.inFlight.value.capsule != receipt.capsule ||
                 (s.inFlight.value.Terminal? && s.inFlight.value != receipt)) then Conflict(id)
        else Done(receipt, id)
      else if !activeMatches then
        if s.inFlight.None? || requested.Some? then Missing(selected) else Conflict(id)
      else if s.inFlight.value.Terminal? then Conflict(id)
      else Active(s.inFlight.value, id)
  }

  predicate ReceiptsAreNamed(receipts: map<nat, OperationRecord>) {
    forall id :: id in receipts ==> receipts[id].Terminal? && receipts[id].capsule.transitionId == id
  }

  /** The in-flight entry agrees with the receipt of its own operation. */
  predicate Agrees(s: Ledger) {
    s.inFlight.Some? ==>
      var active := s.inFlight.value;
      var id := active.capsule.transitionId;
      && (id in s.receipts ==> s.receipts[id].capsule == active.capsule)
      && (active.Terminal? ==> id in s.receipts && s.receipts[id] == active)
  }

  predicate Sound(s: Ledger) {
    ReceiptsAreNamed(s.receipts) && Agrees(s)
  }

  /** Soundness is exactly that no inspection reports a conflict. */
  lemma SoundMeansNoConflict(s: Ledger)
    requires forall id :: id in s.receipts ==> s.receipts[id].capsule.transitionId == id
    ensures Sound(s) <==> forall requested :: !Inspect(s, requested).Conflict?
  {
    if forall requested :: !Inspect(s, requested).Conflict? {
      assert !Inspect(s, None).Conflict?;
      forall id | id in s.receipts ensures s.receipts[id].Terminal? {
        assert !Inspect(s, Some(id)).Conflict?;
      }
    }
  }

  // ---------------------------------------------------------------- calls

  datatype Call =
    | Create(capsule: Capsule, at: nat)
    | Advance(expected: OperationRecord, phase: OperationPhase, at: nat)
    | Complete(expected: OperationRecord, result: TerminalResult)
    | Clear(receipt: OperationRecord)
    | Retain(current: Option<nat>, previous: Option<nat>, active: Option<nat>)

  function Intent(capsule: Capsule, at: nat): OperationRecord {
    InProgress(capsule, at, IntentRecorded)
  }

  function ReceiptFor(expected: OperationRecord, result: TerminalResult): OperationRecord {
    Terminal(expected.capsule, result.completedAtMs, result)
  }

  function Stored(s: Ledger, receipt: OperationRecord): Ledger {
    s.(receipts := s.receipts[receipt.capsule.transitionId := receipt])
  }

  predicate HoldsReceipt(s: Ledger, receipt: OperationRecord) {
    receipt.capsule.transitionId in s.receipts && s.receipts[receipt.capsule.transitionId] == receipt
  }

  /** When an undisturbed call returns instead of throwing. */
  predicate Accepted(s: Ledger, call: Call) {
    match call
    case Create(capsule, at) =>
      && RecordIsConsistent(Intent(capsule, at))
      && Inspect(s, None).Missing?
      && Inspect(s, Some(capsule.transitionId)).Missing?
    case Advance(expected, phase, at) =>
      && expected.InProgress? && RecordIsConsistent(expected)
      && at >= expected.updatedAtMs && CanAdvance(expected.phase, phase)
      && expected.capsule.transitionId !in s.receipts
      && (s.inFlight == Some(expected) || s.inFlight == Some(InProgress(expected.capsule, at, phase)))
    case Complete(expected, result) =>
      && MayStore(s, expected, result)
      && (s.inFlight == Some(expected) || s.inFlight == Some(ReceiptFor(expected, result)))
    case Clear(receipt) =>
      && receipt.Terminal?
      && Inspect(s, Some(receipt.capsule.transitionId)) == Done(receipt, receipt.capsule.transitionId)
      && (s.inFlight.None? || s.inFlight.value.capsule == receipt.capsule)
    case Retain(_, _, active) =>
      && IdOf(s.inFlight) == active
      && |s.receipts.Keys| + (if s.inFlight.Some? then 1 else 0) <= MAXIMUM_DIRECTORY_ENTRIES
      && ReceiptsAreNamed(s.receipts)
  }

  /** The checks a completion passes before its receipt is durable. */
  predicate MayStore(s: Ledger, expected: OperationRecord, result: TerminalResult) {
    && expected.InProgress? && RecordIsConsistent(expected)
    && result.completedAtMs >= expected.updatedAtMs
    && RecordIsConsistent(ReceiptFor(expected, result))
    && (expected.capsule.transitionId !in s.receipts || HoldsReceipt(s, ReceiptFor(expected, result)))
  }

  function Present(id: Option<nat>): set<nat> {
    if id.Some? then {id.value} else {}
  }

  function Protected(call: Call): set<nat>
    requires call.Retain?
  {
    Present(call.current) + Present(call.previous) + Present(call.active)
  }

  /** The directory an accepted call ends with. */
  function After(s: Ledger, call: Call): Ledger {
    match call
    case Create(capsule, at) => s.(inFlight := Some(Intent(capsule, at)))
    case Advance(expected, phase, at) => s.(inFlight := Some(InProgress(expected.capsule, at, phase)))
    case Complete(expected, result) =>
      Stored(s, ReceiptFor(expected, result)).(inFlight := Some(ReceiptFor(expected, result)))
    case Clear(_) => s.(inFlight := None)
    case Retain(_, _, _) => s.(receipts := map id | id in s.receipts && id in Protected(call) :: s.receipts[id])
  }

  /** Some receipts outside the protected ones are gone. */
  predicate PartlyRetained(s: Ledger, t: Ledger, kept: set<nat>) {
    && t.inFlight == s.inFlight
    && (forall id :: id in t.receipts ==> id in s.receipts && t.receipts[id] == s.receipts[id])
    && (forall id :: id in s.receipts && id in kept ==> id in t.receipts)
  }

  function Without(s: Ledger, id: nat): Ledger {
    s.(receipts := map x | x in s.receipts && x != id :: s.receipts[x])
  }

  lemma WithoutIsPartlyRetained(s: Ledger, t: Ledger, kept: set<nat>, id: nat)
    requires PartlyRetained(s, t, kept) && id !in kept
    ensures PartlyRetained(s, Without(t, id), kept)
    ensures Without(t, id).receipts.Keys == t.receipts.Keys - {id}
  {
  }

  lemma RetainedCompletely(s: Ledger, t: Ledger, call: Call)
    requires call.Retain? && PartlyRetained(s, t, Protected(call)) && t.receipts.Keys <= Protected(call)
    ensures t == After(s, call)
  {
    assert t.receipts == After(s, call).receipts;
  }

  /** Every directory a call may leave behind, whether it returns, throws or dies. */
  predicate MayLeave(s: Ledger, call: Call, t: Ledger) {
    || t == s
    || (Accepted(s, call) && t == After(s, call))
    || (call.Complete? && MayStore(s, call.expected, call.result) &&
        t == Stored(s, ReceiptFor(call.expected, call.result)))
    || (call.Retain? && Accepted(s, call) && PartlyRetained(s, t, Protected(call)))
  }

  /**
   A completion names the incarnation in flight: no operation of the same identity with another
   capsule is in flight.
   */
  predicate NamesTheIncarnation(s: Ledger, call: Call) {
    call.Complete? && IdOf(s.inFlight) == Some(call.expected.capsule.transitionId) ==>
      s.inFlight.value.capsule == call.expected.capsule
  }

  lemma CallKeepsSound(s: Ledger, call: Call, t: Ledger)
    requires Sound(s) && MayLeave(s, call, t) && NamesTheIncarnation(s, call)
    ensures Sound(t)
  {
  }

  /**
   The condition is exact: a completion that passes its own checks can break the directory if
   and only if it names another incarnation than the one in flight.
   */
  lemma CompletionIsSafeExactly(s: Ledger, call: Call)
    requires Sound(s) && call.Complete? && MayStore(s, call.expected, call.result)
    ensures NamesTheIncarnation(s, call) <==> forall t :: MayLeave(s, call, t) ==> Sound(t)
  {
    if NamesTheIncarnation(s, call) {
      forall t | MayLeave(s, call, t) ensures Sound(t) {
        CallKeepsSound(s, call, t);
      }
    } else {
      var t := Stored(s, ReceiptFor(call.expected, call.result));
      assert MayLeave(s, call, t);
      assert !Agrees(t);
    }
  }

  /** What an inspection of a sound directory reports: the receipt first, then the entry in flight. */
  lemma InspectionSaysWhatIsThere(s: Ledger, id: nat)
    requires Sound(s)
    ensures id in s.receipts ==> Inspect(s, Some(id)) == Done(s.receipts[id], id)
    ensures id !in s.receipts && IdOf(s.inFlight) == Some(id) ==> Inspect(s, Some(id)) == Active(s.inFlight.value, id)
    ensures id !in s.receipts && IdOf(s.inFlight) != Some(id) ==> Inspect(s, Some(id)) == Missing(Some(id))
    ensures Inspect(s, None) == if s.inFlight.None? then Missing(None) else Inspect(s, IdOf(s.inFlight))
  {
  }

  /** An operation that is new to an idle directory can be created, completed and cleared, and leaves its receipt. */
  lemma NewOperationRuns(s: Ledger, capsule: Capsule, at: nat, result: TerminalResult)
    requires Sound(s) && s.inFlight.None? && capsule.transitionId !in s.receipts
    requires RecordIsConsistent(Intent(capsule, at)) && result.completedAtMs >= at
    requires ResultIsConsistent(capsule, result)
    ensures var created := After(s, Create(capsule, at));
      var completed := After(created, Complete(Intent(capsule, at), result));
      var receipt := ReceiptFor(Intent(capsule, at), result);
      && Accepted(s, Create(capsule, at)) && Accepted(created, Complete(Intent(capsule, at), result))
      && Accepted(completed, Clear(receipt))
      && After(completed, Clear(receipt)) == Ledger(None, s.receipts[capsule.transitionId := receipt])
  {
  }

  /** While it is in progress without a receipt it can enter its next phase, from each but the last. */
  lemma OperationAdvances(s: Ledger, at: nat)
    requires s.inFlight.Some? && s.inFlight.value.InProgress? && RecordIsConsistent(s.inFlight.value)
    requires s.inFlight.value.capsule.transitionId !in s.receipts && at >= s.inFlight.value.updatedAtMs
    requires Index(s.inFlight.value.phase) + 1 < |PHASES|
    ensures var next := PHASES[Index(s.inFlight.value.phase) + 1];
      && Accepted(s, Advance(s.inFlight.value, next, at))
      && After(s, Advance(s.inFlight.value, next, at)).inFlight ==
         Some(InProgress(s.inFlight.value.capsule, at, next))
  {
    PhaseAt(Index(s.inFlight.value.phase) + 1);
  }

  /** A retention of a directory within its bounds keeps exactly the receipts of the three transitions named. */
  lemma RetentionKeepsExactly(s: Ledger, current: Option<nat>, previous: Option<nat>)
    requires Sound(s) && |s.receipts.Keys| < 128
    ensures var call := Retain(current, previous, IdOf(s.inFlight));
      && Accepted(s, call)
      && forall id :: id in After(s, call).receipts <==>
           id in s.receipts && (current == Some(id) || previous == Some(id) || IdOf(s.inFlight) == Some(id))
  {
  }

  // ---------------------------------------------------------------- histories

  ghost predicate CallAt(states: seq<Ledger>, calls: seq<Call>, i: nat)
    requires |states| == |calls| + 1 && i < |calls|
  {
    MayLeave(states[i], calls[i], states[i + 1])
  }

  ghost predicate IsHistory(states: seq<Ledger>, calls: seq<Call>) {
    && |states| == |calls| + 1
    && states[0] == EMPTY
    && forall i :: 0 <= i < |calls| ==> CallAt(states, calls, i)
  }

  ghost predicate IsDisciplined(states: seq<Ledger>, calls: seq<Call>)
    requires |states| == |calls| + 1
  {
    forall i :: 0 <= i < |calls| ==> NamesTheIncarnation(states[i], calls[i])
  }

  /** No inspection of any state of a disciplined history reports a conflict. */
  lemma {:induction false} HistoryHasNoConflict(states: seq<Ledger>, calls: seq<Call>, k: nat)
    requires IsHistory(states, calls) && IsDisciplined(states, calls) && k < |states|
    ensures Sound(states[k]) && forall requested :: !Inspect(states[k], requested).Conflict?
  {
    if k > 0 {
      HistoryHasNoConflict(states, calls, k - 1);
      assert CallAt(states, calls, k - 1);
      CallKeepsSound(states[k - 1], calls[k - 1], states[k]);
    }
    SoundMeansNoConflict(states[k]);
  }

  /** The in-flight entry of one operation only moves forward. */
  predicate Forward(a: OperationRecord, b: OperationRecord) {
    && a.capsule == b.capsule && a.updatedAtMs <= b.updatedAtMs
    && (a.Terminal? ==> b == a)
    && (a.InProgress? && b.InProgress? ==> Index(a.phase) <= Index(b.phase))
  }

  predicate InFlightThroughout(states: seq<Ledger>, i: nat, j: nat)
    requires i <= j < |states|
  {
    forall k :: i <= k <= j ==> states[k].inFlight.Some?
  }

  lemma CallMovesForward(s: Ledger, call: Call, t: Ledger)
    requires Sound(s) && MayLeave(s, call, t) && s.inFlight.Some? && t.inFlight.Some?
    ensures Forward(s.inFlight.value, t.inFlight.value)
  {
  }

  /**
   One operation is in flight until it is cleared: its entry keeps its capsule, its phase and
   its time never go back, and a terminal entry stays.
   */
  lemma {:induction false} InFlightMovesForward(states: seq<Ledger>, calls: seq<Call>, i: nat, j: nat)
    requires IsHistory(states, calls) && IsDisciplined(states, calls)
    requires i <= j < |states| && InFlightThroughout(states, i, j)
    ensures Forward(states[i].inFlight.value, states[j].inFlight.value)
    decreases j
  {
    if i < j {
      assert InFlightThroughout(states, i, j - 1);
      InFlightMovesForward(states, calls, i, j - 1);
      HistoryHasNoConflict(states, calls, j - 1);
      assert CallAt(states, calls, j - 1);
      CallMovesForward(states[j - 1], calls[j - 1], states[j]);
    }
  }

  /** A new operation enters only an empty slot, and only without an earlier receipt. */
  lemma OperationsEnterOneByOne(states: seq<Ledger>, calls: seq<Call>, i: nat)
    requires IsHistory(states, calls) && IsDisciplined(states, calls) && i < |calls|
    requires states[i + 1].inFlight.Some? && IdOf(states[i].inFlight) != IdOf(states[i + 1].inFlight)
    ensures states[i].inFlight.None? && calls[i].Create?
    ensures states[i + 1].inFlight == Some(Intent(calls[i].capsule, calls[i].at))
    ensures calls[i].capsule.transitionId !in states[i].receipts
  {
    HistoryHasNoConflict(states, calls, i);
    assert CallAt(states, calls, i);
  }

  lemma CallKeepsReceipt(s: Ledger, call: Call, t: Ledger)
    requires Sound(s) && MayLeave(s, call, t) && s.inFlight.Some?
    requires s.inFlight.value.capsule.transitionId in s.receipts
    ensures var id := s.inFlight.value.capsule.transitionId;
      && id in t.receipts && t.receipts[id] == s.receipts[id]
      && (t.inFlight == s.inFlight || t.inFlight == Some(s.receipts[id]) || t.inFlight.None?)
  {
  }

  /**
   A stored receipt is final: while its operation is in flight no call removes or replaces it,
   and the entry can only stay, become the receipt, or be cleared.
   */
  lemma {:induction false} ReceiptIsFinal(states: seq<Ledger>, calls: seq<Call>, i: nat, j: nat,
                                          receipt: OperationRecord)
    requires IsHistory(states, calls) && IsDisciplined(states, calls)
    requires i <= j < |states| && InFlightThroughout(states, i, j)
    requires HoldsReceipt(states[i], receipt) && IdOf(states[i].inFlight) == Some(receipt.capsule.transitionId)
    ensures HoldsReceipt(states[j], receipt)
    ensures states[j].inFlight == states[i].inFlight || states[j].inFlight == Some(receipt)
    decreases j
  {
    if i < j {
      assert InFlightThroughout(states, i, j - 1);
      ReceiptIsFinal(states, calls, i, j - 1, receipt);
      HistoryHasNoConflict(states, calls, j - 1);
      assert CallAt(states, calls, j - 1);
      assert states[j - 1].inFlight.Some?;
      CallKeepsReceipt(states[j - 1], calls[j - 1], states[j]);
    }
  }

  /** Outside retention every receipt stays; retention drops only what it does not protect. */
  lemma ReceiptsLeaveOnlyByRetention(states: seq<Ledger>, calls: seq<Call>, i: nat, id: nat)
    requires IsHistory(states, calls) && i < |calls| && id in states[i].receipts
    ensures || (id in states[i + 1].receipts && states[i + 1].receipts[id] == states[i].receipts[id])
            || (calls[i].Retain? && id !in Protected(calls[i]) && id !in states[i + 1].receipts)
  {
    assert CallAt(states, calls, i);
  }

  // ---------------------------------------------------------------- the stale completion

  function SampleCapsule(queuedAtMs: nat): Capsule {
    Capsule(7, 7, CurrentRelease(3, Artifact(1, 1), 7), TargetRelease(None, Artifact(2, 1)), Artifact(1, 1),
            Deploy(2, Artifact(2, 1)), queuedAtMs)
  }

  function StaleCalls(): seq<Call> {
    var first := Intent(SampleCapsule(0), 0);
    var result := UnknownOutcome(0, None);
    [ Create(SampleCapsule(0), 0), Complete(first, result), Clear(ReceiptFor(first, result)),
      Retain(None, None, None), Create(SampleCapsule(1), 1), Complete(first, UnknownOutcome(5, None)) ]
  }

  function StaleStates(): seq<Ledger> {
    var calls := StaleCalls();
    var created := After(EMPTY, calls[0]);
    var completed := After(created, calls[1]);
    var cleared := After(completed, calls[2]);
    var again := After(EMPTY, calls[4]);
    [EMPTY, created, completed, cleared, EMPTY, again, Stored(again, ReceiptFor(calls[5].expected, calls[5].result))]
  }

  /**
   Passing back a record that a call returned is not enough. Once retention has dropped the
   receipt of an operation, the same identity can be created again with another capsule, and a
   completion with the first incarnation's record then leaves a conflict.
   */
  lemma StaleCompletionConflicts()
    ensures IsHistory(StaleStates(), StaleCalls())
    ensures !NamesTheIncarnation(StaleStates()[5], StaleCalls()[5])
    ensures Inspect(StaleStates()[6], None).Conflict?
  {
    var states, calls := StaleStates(), StaleCalls();
    assert After(states[3], calls[3]) == EMPTY;
    assert states[3].receipts.Keys == {7};
    forall i | 0 <= i < |calls| ensures CallAt(states, calls, i) {
      assert i == 0 || i == 1 || i == 2 || i == 3 || i == 4 || i == 5;
    }
  }
}
