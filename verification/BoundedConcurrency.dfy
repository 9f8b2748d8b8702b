/**
 A map with bounded concurrency: workers share one index and interleave at their awaits. Every
 schedule of the workers is a run of this machine.
 */
module BoundedConcurrency {
  import opened Outcomes

  /** A worker is about to test the index, awaits a transform, has left its loop, or has rejected. */
  datatype Worker = Ready | Awaiting(index: nat) | Left | Rejected(index: nat)

  /** A missing value is skipped without a transform. */
  datatype Job<!A, B> = Job(values: seq<Option<A>>, transform: A -> Outcome<B>)

  datatype State<B> = State(next: nat, results: seq<Option<B>>, workers: seq<Worker>, started: seq<nat>)

  function Smaller(a: nat, b: nat): nat {
    if a <= b then a else b
  }

  function Start<A, B>(job: Job<A, B>, limit: nat): State<B> {
    State(0, seq(|job.values|, _ => None), seq(Smaller(limit, |job.values|), _ => Ready), [])
  }

  function Step<A, B>(job: Job<A, B>, s: State<B>, w: nat): State<B> {
    if w >= |s.workers| then s
    else
      match s.workers[w]
      case Ready =>
        if s.next >= |job.values| then s.(workers := s.workers[w := Left])
        else if job.values[s.next].None? then s.(next := s.next + 1)
        else s.(next := s.next + 1, workers := s.workers[w := Awaiting(s.next)], started := s.started + [s.next])
      case Awaiting(index) =>
        if index >= |job.values| || job.values[index].None? || index >= |s.results| then s
        else
          (match job.transform(job.values[index].value)
           case Returned(value) => s.(results := s.results[index := Some(value)], workers := s.workers[w := Ready])
           case Threw => s.(workers := s.workers[w := Rejected(index)]))
      case _ => s
  }

  predicate CanStep<B>(s: State<B>, w: nat) {
    w < |s.workers| && (s.workers[w].Ready? || s.workers[w].Awaiting?)
  }

  /** The sequential map: a missing value leaves a hole. */
  function Expected<A, B>(job: Job<A, B>, i: nat): Option<B>
    requires i < |job.values|
  {
    if job.values[i].None? then None
    else
      match job.transform(job.values[i].value)
      case Returned(value) => Some(value)
      case Threw => None
  }

  function SequentialMap<A, B>(job: Job<A, B>): seq<Option<B>> {
    seq(|job.values|, i requires 0 <= i < |job.values| => Expected(job, i))
  }

  predicate Throws<A, B>(job: Job<A, B>, i: nat)
    requires i < |job.values|
  {
    job.values[i].Some? && job.transform(job.values[i].value).Threw?
  }

  ghost predicate SomeThrow<A, B>(job: Job<A, B>) {
    exists i :: 0 <= i < |job.values| && Throws(job, i)
  }

  // ---------------------------------------------------------------- the invariant

  predicate Holds(worker: Worker, index: nat) {
    (worker.Awaiting? || worker.Rejected?) && worker.index == index
  }

  ghost predicate WorkerIsSound<A, B>(job: Job<A, B>, s: State<B>, worker: Worker) {
    match worker
    case Ready => true
    case Awaiting(index) =>
      index < s.next <= |job.values| && index < |s.results| && job.values[index].Some? && s.results[index].None?
    case Left => s.next == |job.values|
    case Rejected(index) =>
      && index < s.next <= |job.values| && index < |s.results| && s.results[index].None?
      && Throws(job, index)
  }

  ghost predicate IsHeld<B>(s: State<B>, index: nat) {
    exists w :: 0 <= w < |s.workers| && Holds(s.workers[w], index)
  }

  /** A taken index has its final result, or exactly its worker still holds it. */
  ghost predicate IndexIsSound<A, B>(job: Job<A, B>, s: State<B>, index: nat)
    requires index < |job.values| == |s.results|
  {
    if index < s.next then (s.results[index] == Expected(job, index) && !Throws(job, index)) || IsHeld(s, index)
    else s.results[index].None?
  }

  ghost predicate AllIndicesSound<A, B>(job: Job<A, B>, s: State<B>) {
    && s.next <= |job.values| == |s.results|
    && forall i :: 0 <= i < |job.values| ==> IndexIsSound(job, s, i)
  }

  ghost predicate AllWorkersSound<A, B>(job: Job<A, B>, s: State<B>) {
    forall w :: 0 <= w < |s.workers| ==> WorkerIsSound(job, s, s.workers[w])
  }

  ghost predicate HeldOnce<B>(s: State<B>) {
    forall w, v, i: nat ::
      0 <= w < |s.workers| && 0 <= v < |s.workers| && Holds(s.workers[w], i) && Holds(s.workers[v], i) ==>
        w == v
  }

  /** Each defined index below the shared one was started exactly once, in order. */
  ghost predicate StartedOnce<A, B>(job: Job<A, B>, s: State<B>) {
    && (forall i, j :: 0 <= i < j < |s.started| ==> s.started[i] < s.started[j])
    && (forall i: nat :: i in s.started <==> i < s.next && i < |job.values| && job.values[i].Some?)
  }

  ghost predicate Invariant<A, B>(job: Job<A, B>, limit: nat, s: State<B>) {
    && |s.workers| == Smaller(limit, |job.values|)
    && AllIndicesSound(job, s)
    && AllWorkersSound(job, s)
    && HeldOnce(s)
    && StartedOnce(job, s)
  }

  lemma StartIsSound<A, B>(job: Job<A, B>, limit: nat)
    ensures Invariant(job, limit, Start(job, limit))
  {
  }

  lemma StepKeepsWorkers<A, B>(job: Job<A, B>, limit: nat, s: State<B>, w: nat)
    requires Invariant(job, limit, s)
    ensures AllWorkersSound(job, Step(job, s, w))
  {
    var t := Step(job, s, w);
    if s.next < |job.values| {
      assert IndexIsSound(job, s, s.next);
    }
    forall v | 0 <= v < |t.workers| ensures WorkerIsSound(job, t, t.workers[v]) {
      assert WorkerIsSound(job, s, s.workers[v]);
      if w < |s.workers| && v != w {
        assert t.workers[v] == s.workers[v];
        if s.workers[w].Awaiting? && (s.workers[v].Awaiting? || s.workers[v].Rejected?) {
          assert Holds(s.workers[w], s.workers[w].index) && Holds(s.workers[v], s.workers[v].index);
        }
      }
    }
  }

  lemma StepKeepsHeldOnce<A, B>(job: Job<A, B>, limit: nat, s: State<B>, w: nat)
    requires Invariant(job, limit, s)
    ensures HeldOnce(Step(job, s, w))
  {
    var t := Step(job, s, w);
    forall v, u, i: nat |
      w < |s.workers| && 0 <= v < |t.workers| && 0 <= u < |t.workers| &&
      Holds(t.workers[v], i) && Holds(t.workers[u], i)
      ensures v == u
    {
      assert WorkerIsSound(job, s, s.workers[v]) && WorkerIsSound(job, s, s.workers[u]);
      assert v != w ==> Holds(s.workers[v], i);
      assert u != w ==> Holds(s.workers[u], i);
      assert s.workers[w].Awaiting? ==> Holds(s.workers[w], s.workers[w].index);
    }
  }

  lemma StepKeepsHolder<A, B>(job: Job<A, B>, s: State<B>, w: nat, index: nat)
    requires IsHeld(s, index)
    requires w < |s.workers| ==> !Holds(s.workers[w], index)
    ensures IsHeld(Step(job, s, w), index)
  {
    var v :| 0 <= v < |s.workers| && Holds(s.workers[v], index);
    assert Holds(Step(job, s, w).workers[v], index);
  }

  lemma StepKeepsIndices<A, B>(job: Job<A, B>, limit: nat, s: State<B>, w: nat)
    requires Invariant(job, limit, s)
    ensures AllIndicesSound(job, Step(job, s, w))
  {
    var t := Step(job, s, w);
    if w < |s.workers| {
      assert WorkerIsSound(job, s, s.workers[w]);
      forall i | 0 <= i < |job.values| ensures IndexIsSound(job, t, i) {
        assert IndexIsSound(job, s, i);
        if Holds(s.workers[w], i) {
          if t.results[i].None? { assert Holds(t.workers[w], i); }
        } else if i < s.next && IsHeld(s, i) {
          StepKeepsHolder(job, s, w, i);
        } else if i == s.next < t.next && job.values[i].Some? {
          assert Holds(t.workers[w], i);
        }
      }
    }
  }

  lemma StepKeepsStarted<A, B>(job: Job<A, B>, limit: nat, s: State<B>, w: nat)
    requires Invariant(job, limit, s)
    ensures StartedOnce(job, Step(job, s, w))
  {
    var t := Step(job, s, w);
    forall i, j | 0 <= i < j < |t.started| ensures t.started[i] < t.started[j] {
      assert s.started[i] in s.started;
    }
  }

  /** Whichever worker runs next, the invariant stays. */
  lemma StepKeepsInvariant<A, B>(job: Job<A, B>, limit: nat, s: State<B>, w: nat)
    requires Invariant(job, limit, s)
    ensures Invariant(job, limit, Step(job, s, w))
  {
    StepKeepsWorkers(job, limit, s, w);
    StepKeepsHeldOnce(job, limit, s, w);
    StepKeepsIndices(job, limit, s, w);
    StepKeepsStarted(job, limit, s, w);
  }

  function WaitingWorkers(workers: seq<Worker>): nat {
    if workers == [] then 0
    else WaitingWorkers(workers[1..]) + (if workers[0].Awaiting? then 1 else 0)
  }

  lemma {:induction false} WaitingAreWorkers(workers: seq<Worker>)
    ensures WaitingWorkers(workers) <= |workers|
  {
    if workers != [] { WaitingAreWorkers(workers[1..]); }
  }

  /** The state once each of the first k workers has tested the index once. */
  function AfterFirst<A, B>(job: Job<A, B>, limit: nat, k: nat): State<B> {
    if k == 0 then Start(job, limit) else Step(job, AfterFirst(job, limit, k - 1), k - 1)
  }

  /** The bound is used to the full: limit transforms, or all there are, can be in flight at once. */
  lemma {:induction false} WorkersRunTogether<A, B>(job: Job<A, B>, limit: nat, k: nat)
    requires k <= limit && k <= |job.values|
    requires forall i :: 0 <= i < |job.values| ==> job.values[i].Some?
    ensures var s := AfterFirst(job, limit, k);
      && s.next == k && |s.started| == k && |s.workers| >= k
      && forall w :: 0 <= w < k ==> s.workers[w] == Awaiting(w)
    ensures forall w :: k <= w < |AfterFirst(job, limit, k).workers| ==> AfterFirst(job, limit, k).workers[w].Ready?
    ensures |AfterFirst(job, limit, k).workers| == |Start(job, limit).workers|
  {
    if k > 0 {
      WorkersRunTogether(job, limit, k - 1);
    }
  }

  /** At most min(limit, n) transforms are in flight, and no index twice. */
  lemma InFlightIsBounded<A, B>(job: Job<A, B>, limit: nat, s: State<B>)
    requires Invariant(job, limit, s)
    ensures WaitingWorkers(s.workers) <= limit && WaitingWorkers(s.workers) <= |job.values|
    ensures forall w, v :: 0 <= w < v < |s.workers| && s.workers[w].Awaiting? && s.workers[v].Awaiting? ==>
              s.workers[w].index != s.workers[v].index
  {
    WaitingAreWorkers(s.workers);
    forall w, v | 0 <= w < v < |s.workers| && s.workers[w].Awaiting? && s.workers[v].Awaiting?
      ensures s.workers[w].index != s.workers[v].index
    {
      assert Holds(s.workers[w], s.workers[w].index) && Holds(s.workers[v], s.workers[v].index);
    }
  }

  // ---------------------------------------------------------------- the end

  ghost predicate Finished<B>(s: State<B>) {
    forall w :: 0 <= w < |s.workers| ==> !CanStep(s, w)
  }

  ghost predicate AnyRejected<B>(s: State<B>) {
    exists w :: 0 <= w < |s.workers| && s.workers[w].Rejected?
  }

  lemma AtTheEnd<A, B>(job: Job<A, B>, limit: nat, s: State<B>, i: nat)
    requires Invariant(job, limit, s) && Finished(s) && limit > 0 && !AnyRejected(s) && i < |job.values|
    ensures s.results[i] == Expected(job, i) && !Throws(job, i)
  {
    assert !CanStep(s, 0) && WorkerIsSound(job, s, s.workers[0]);
    assert s.workers[0].Left?;
    assert IndexIsSound(job, s, i);
    forall w | 0 <= w < |s.workers| ensures !Holds(s.workers[w], i) {
      assert !CanStep(s, w);
    }
  }

  /** Without a rejection the results are the sequential map, in input order. */
  lemma EndIsTheMap<A, B>(job: Job<A, B>, limit: nat, s: State<B>)
    requires Invariant(job, limit, s) && Finished(s) && limit > 0 && !AnyRejected(s)
    ensures s.results == SequentialMap(job) && !SomeThrow(job)
  {
    forall i | 0 <= i < |job.values| ensures s.results[i] == Expected(job, i) && !Throws(job, i) {
      AtTheEnd(job, limit, s, i);
    }
  }

  lemma RejectionNeedsAThrow<A, B>(job: Job<A, B>, limit: nat, s: State<B>)
    requires Invariant(job, limit, s) && AnyRejected(s)
    ensures SomeThrow(job)
  {
    var w :| 0 <= w < |s.workers| && s.workers[w].Rejected?;
    assert WorkerIsSound(job, s, s.workers[w]);
  }

  // ---------------------------------------------------------------- any schedule

  function Weight(worker: Worker): nat {
    match worker
    case Ready => 1
    case Awaiting(_) => 2
    case _ => 0
  }

  function Weights(workers: seq<Worker>): nat {
    if workers == [] then 0 else Weight(workers[0]) + Weights(workers[1..])
  }

  function Remaining<A, B>(job: Job<A, B>, s: State<B>): nat {
    3 * (if s.next <= |job.values| then |job.values| - s.next else 0) + Weights(s.workers)
  }

  lemma {:induction false} WeightsUpdate(workers: seq<Worker>, w: nat, worker: Worker)
    requires w < |workers|
    ensures Weights(workers[w := worker]) == Weights(workers) - Weight(workers[w]) + Weight(worker)
  {
    if w == 0 {
      assert workers[0 := worker][1..] == workers[1..];
    } else {
      WeightsUpdate(workers[1..], w - 1, worker);
      assert workers[w := worker][1..] == workers[1..][w - 1 := worker];
    }
  }

  /** Every step of a worker that can run brings the end nearer. */
  lemma StepMakesProgress<A, B>(job: Job<A, B>, limit: nat, s: State<B>, w: nat)
    requires Invariant(job, limit, s) && CanStep(s, w)
    ensures Remaining(job, Step(job, s, w)) < Remaining(job, s)
  {
    assert WorkerIsSound(job, s, s.workers[w]);
    WeightsUpdate(s.workers, w, Step(job, s, w).workers[w]);
    assert s.workers[w := Step(job, s, w).workers[w]] == Step(job, s, w).workers;
  }

  /**
   The map under an arbitrary schedule: while some worker can run, any such worker does. With a
   positive limit it rejects exactly when some transform does, and otherwise returns the
   sequential map. With no workers at all nothing is transformed.
   */
  method MapWithBoundedConcurrency<A, B>(job: Job<A, B>, limit: nat) returns (r: Outcome<seq<Option<B>>>)
    ensures limit > 0 ==> (r.Threw? <==> SomeThrow(job))
    ensures limit > 0 && r.Returned? ==> r.value == SequentialMap(job)
    ensures limit == 0 ==> r == Returned(seq(|job.values|, _ => None))
  {
    var s := Start(job, limit);
    StartIsSound(job, limit);
    while exists w :: 0 <= w < |s.workers| && CanStep(s, w)
      invariant Invariant(job, limit, s)
      invariant limit == 0 ==> s == Start(job, limit)
      decreases Remaining(job, s)
    {
      var w :| 0 <= w < |s.workers| && CanStep(s, w);
      StepMakesProgress(job, limit, s, w);
      StepKeepsInvariant(job, limit, s, w);
      s := Step(job, s, w);
    }
    assert Finished(s);
    if exists w :: 0 <= w < |s.workers| && s.workers[w].Rejected? {
      RejectionNeedsAThrow(job, limit, s);
      return Threw;
    }
    if limit > 0 {
      EndIsTheMap(job, limit, s);
    }
    return Returned(s.results);
  }

  /** Without workers the result is the map exactly when there is nothing to transform. */
  lemma NoWorkersMapNothing<A, B>(job: Job<A, B>)
    requires !SomeThrow(job)
    ensures Start(job, 0).results == SequentialMap(job) <==>
            forall i :: 0 <= i < |job.values| ==> job.values[i].None?
  {
    forall i | 0 <= i < |job.values| && job.values[i].Some? ensures SequentialMap(job)[i].Some? {
      assert !Throws(job, i);
    }
    if exists i :: 0 <= i < |job.values| && job.values[i].Some? {
      var i :| 0 <= i < |job.values| && job.values[i].Some?;
      assert Start(job, 0).results[i].None?;
    }
  }
}
