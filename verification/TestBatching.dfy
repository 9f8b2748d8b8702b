/** Count-capped longest-first batching of timed tests. */
module TestBatching {
  import opened Outcomes

  datatype TimedTest = TimedTest(filePath: string, durationMs: int)

  datatype Batch = Batch(durationMs: int, tests: seq<TimedTest>)

  const MAXIMUM_SAFE_INTEGER: int := 9007199254740991

  // ---------------------------------------------------------------- inventories

  function Paths(tests: seq<TimedTest>): seq<string> {
    seq(|tests|, i requires 0 <= i < |tests| => tests[i].filePath)
  }

  function BatchPaths(batches: seq<Batch>): seq<string> {
    if batches == [] then [] else BatchPaths(batches[..|batches| - 1]) + Paths(batches[|batches| - 1].tests)
  }

  ghost predicate Distinct(paths: seq<string>) {
    forall i, j :: 0 <= i < j < |paths| ==> paths[i] != paths[j]
  }

  /** The paths that occur more than once. */
  method RepeatedPaths(paths: seq<string>) returns (duplicates: set<string>)
    ensures forall p :: p in duplicates <==> exists i, j :: 0 <= i < j < |paths| && paths[i] == p && paths[j] == p
    ensures duplicates == {} <==> Distinct(paths)
  {
    var seen: set<string> := {};
    duplicates := {};
    for n := 0 to |paths|
      invariant forall p :: p in seen <==> exists i :: 0 <= i < n && paths[i] == p
      invariant forall p :: p in duplicates <==> exists i, j :: 0 <= i < j < n && paths[i] == p && paths[j] == p
    {
      if paths[n] in seen {
        duplicates := duplicates + {paths[n]};
      }
      seen := seen + {paths[n]};
    }
    if duplicates == {} {
      forall i, j | 0 <= i < j < |paths| ensures paths[i] != paths[j] {
        assert paths[i] !in duplicates;
      }
    }
  }

  /** `exactInventoryError` finds nothing: no duplicates on either side, nothing missing or unexpected. */
  method InventoryIsExact(expected: seq<string>, actual: seq<string>) returns (exact: bool)
    ensures exact <==> Distinct(expected) && multiset(expected) == multiset(actual)
  {
    var duplicateExpected := RepeatedPaths(expected);
    var duplicateActual := RepeatedPaths(actual);
    var missing := set p | p in expected && p !in actual;
    var unexpected := set p | p in actual && p !in expected;
    exact := duplicateExpected == {} && duplicateActual == {} && missing == {} && unexpected == {};
    ExactMeansPermutation(expected, actual);
    assert missing == {} ==> forall p :: p in expected ==> p in actual by {
      if missing == {} {
        forall p | p in expected ensures p in actual { assert p !in missing; }
      }
    }
    assert unexpected == {} ==> forall p :: p in actual ==> p in expected by {
      if unexpected == {} {
        forall p | p in actual ensures p in expected { assert p !in unexpected; }
      }
    }
  }

  lemma {:induction false} DistinctMultiplicity(paths: seq<string>)
    ensures Distinct(paths) <==> forall p :: multiset(paths)[p] <= 1
  {
    if paths != [] {
      var front, last := paths[..|paths| - 1], paths[|paths| - 1];
      assert paths == front + [last];
      DistinctMultiplicity(front);
      if Distinct(paths) {
        assert last !in front;
        assert multiset(front)[last] == 0;
      } else if Distinct(front) {
        assert last in front;
        assert multiset(front)[last] >= 1;
        assert multiset(paths)[last] >= 2;
      } else {
        var p :| multiset(front)[p] > 1;
        assert multiset(paths)[p] > 1;
      }
    }
  }

  lemma ExactMeansPermutation(expected: seq<string>, actual: seq<string>)
    ensures (Distinct(expected) && Distinct(actual) &&
             (forall p :: p in expected ==> p in actual) && (forall p :: p in actual ==> p in expected))
            <==> (Distinct(expected) && multiset(expected) == multiset(actual))
  {
    DistinctMultiplicity(expected);
    DistinctMultiplicity(actual);
    assert forall p :: p in expected <==> multiset(expected)[p] > 0;
    assert forall p :: p in actual <==> multiset(actual)[p] > 0;
    if Distinct(expected) && Distinct(actual) &&
       (forall p :: p in expected ==> p in actual) && (forall p :: p in actual ==> p in expected) {
      forall p ensures multiset(expected)[p] == multiset(actual)[p] {
        assert p in expected <==> p in actual;
      }
      assert multiset(expected) == multiset(actual);
    }
  }

  // ---------------------------------------------------------------- longest first

  predicate PathAtMost(left: string, right: string) {
    if left == [] then true
    else if right == [] then false
    else if left[0] != right[0] then left[0] < right[0]
    else PathAtMost(left[1..], right[1..])
  }

  /** The comparator of the longest-first sort: longer first, then by path. */
  predicate NotAfter(left: TimedTest, right: TimedTest) {
    left.durationMs > right.durationMs ||
    (left.durationMs == right.durationMs && PathAtMost(left.filePath, right.filePath))
  }

  function Insert(test: TimedTest, sorted: seq<TimedTest>): (r: seq<TimedTest>)
    ensures multiset(r) == multiset(sorted) + multiset{test}
  {
    if sorted == [] then [test]
    else if NotAfter(sorted[0], test) then
      assert sorted == [sorted[0]] + sorted[1..];
      [sorted[0]] + Insert(test, sorted[1..])
    else [test] + sorted
  }

  function LongestFirst(tests: seq<TimedTest>): (r: seq<TimedTest>)
    ensures multiset(r) == multiset(tests)
  {
    if tests == [] then []
    else
      assert tests == tests[..|tests| - 1] + [tests[|tests| - 1]];
      Insert(tests[|tests| - 1], LongestFirst(tests[..|tests| - 1]))
  }

  ghost predicate Descending(tests: seq<TimedTest>) {
    forall i, j :: 0 <= i < j < |tests| ==> tests[i].durationMs >= tests[j].durationMs
  }

  lemma {:induction false} InsertKeepsOrder(test: TimedTest, sorted: seq<TimedTest>)
    requires Descending(sorted)
    ensures Descending(Insert(test, sorted))
  {
    if sorted != [] && NotAfter(sorted[0], test) {
      InsertKeepsOrder(test, sorted[1..]);
      var rest := Insert(test, sorted[1..]);
      forall j | 0 <= j < |rest| ensures rest[j].durationMs <= sorted[0].durationMs {
        assert rest[j] in multiset(rest);
        assert rest[j] == test || rest[j] in multiset(sorted[1..]);
      }
    }
  }

  lemma {:induction false} LongestFirstIsSorted(tests: seq<TimedTest>)
    ensures Descending(LongestFirst(tests)) && |LongestFirst(tests)| == |tests|
  {
    assert |multiset(LongestFirst(tests))| == |multiset(tests)|;
    if tests != [] {
      LongestFirstIsSorted(tests[..|tests| - 1]);
      InsertKeepsOrder(tests[|tests| - 1], LongestFirst(tests[..|tests| - 1]));
    }
  }

  lemma {:induction false} PathOrderIsTotal(a: string, b: string)
    ensures PathAtMost(a, b) || PathAtMost(b, a)
  {
    if a != [] && b != [] && a[0] == b[0] { PathOrderIsTotal(a[1..], b[1..]); }
  }

  lemma {:induction false} PathOrderIsTransitive(a: string, b: string, c: string)
    requires PathAtMost(a, b) && PathAtMost(b, c)
    ensures PathAtMost(a, c)
  {
    if a != [] && b != [] && c != [] && a[0] == b[0] == c[0] { PathOrderIsTransitive(a[1..], b[1..], c[1..]); }
  }

  ghost predicate Ordered(tests: seq<TimedTest>) {
    forall i, j :: 0 <= i < j < |tests| ==> NotAfter(tests[i], tests[j])
  }

  lemma OrderIsTransitive(a: TimedTest, b: TimedTest, c: TimedTest)
    requires NotAfter(a, b) && NotAfter(b, c)
    ensures NotAfter(a, c)
  {
    if a.durationMs == b.durationMs == c.durationMs {
      PathOrderIsTransitive(a.filePath, b.filePath, c.filePath);
    }
  }

  lemma {:induction false} InsertKeepsOrdered(test: TimedTest, sorted: seq<TimedTest>)
    requires Ordered(sorted)
    ensures Ordered(Insert(test, sorted))
  {
    if sorted != [] {
      PathOrderIsTotal(test.filePath, sorted[0].filePath);
      if NotAfter(sorted[0], test) {
        InsertKeepsOrdered(test, sorted[1..]);
        var rest := Insert(test, sorted[1..]);
        forall j | 0 <= j < |rest| ensures NotAfter(sorted[0], rest[j]) {
          assert rest[j] in multiset(rest);
          assert rest[j] == test || rest[j] in multiset(sorted[1..]);
        }
      } else {
        forall j | 0 <= j < |sorted| ensures NotAfter(test, sorted[j]) {
          if j > 0 { OrderIsTransitive(test, sorted[0], sorted[j]); }
        }
      }
    }
  }

  /** Longest first, and equally long tests by path: the order does not depend on the inventory's. */
  lemma {:induction false} LongestFirstIsOrdered(tests: seq<TimedTest>)
    ensures Ordered(LongestFirst(tests))
  {
    if tests != [] {
      LongestFirstIsOrdered(tests[..|tests| - 1]);
      InsertKeepsOrdered(tests[|tests| - 1], LongestFirst(tests[..|tests| - 1]));
    }
  }

  // ---------------------------------------------------------------- placement

  predicate Better(candidate: Batch, target: Batch) {
    candidate.durationMs < target.durationMs ||
    (candidate.durationMs == target.durationMs && |candidate.tests| < |target.tests|)
  }

  /** The first of the best non-full batches among the first n. */
  function Target(batches: seq<Batch>, cap: nat, n: nat): (r: Option<nat>)
    requires n <= |batches|
    ensures r.None? <==> forall i :: 0 <= i < n ==> |batches[i].tests| >= cap
    ensures r.Some? ==> r.value < n && |batches[r.value].tests| < cap
    ensures r.Some? ==> forall i :: 0 <= i < n && |batches[i].tests| < cap ==>
              && batches[i].durationMs >= batches[r.value].durationMs
              && (batches[i].durationMs == batches[r.value].durationMs ==>
                    |batches[i].tests| >= |batches[r.value].tests|)
    ensures r.Some? ==> forall i :: 0 <= i < r.value && |batches[i].tests| < cap ==>
              || batches[i].durationMs > batches[r.value].durationMs
              || |batches[i].tests| > |batches[r.value].tests|
  {
    if n == 0 then None
    else
      var best := Target(batches, cap, n - 1);
      if |batches[n - 1].tests| < cap && (best.None? || Better(batches[n - 1], batches[best.value])) then Some(n - 1)
      else best
  }

  function Place(batches: seq<Batch>, cap: nat, test: TimedTest): (r: seq<Batch>)
    ensures |r| == |batches|
  {
    var target := Target(batches, cap, |batches|);
    if target.None? then batches
    else
      var b := batches[target.value];
      batches[target.value := Batch(b.durationMs + test.durationMs, b.tests + [test])]
  }

  function PlaceAll(batches: seq<Batch>, cap: nat, tests: seq<TimedTest>): (r: seq<Batch>)
    ensures |r| == |batches|
    decreases |tests|
  {
    if tests == [] then batches else PlaceAll(Place(batches, cap, tests[0]), cap, tests[1..])
  }

  function EmptyBatches(count: nat): seq<Batch> {
    seq(count, _ => Batch(0, []))
  }

  function Ceiling(n: nat, k: nat): nat
    requires k > 0
  {
    (n + k - 1) / k
  }

  function Total(tests: seq<TimedTest>): int {
    if tests == [] then 0 else Total(tests[..|tests| - 1]) + tests[|tests| - 1].durationMs
  }

  function FileCount(batches: seq<Batch>): nat {
    if batches == [] then 0 else FileCount(batches[..|batches| - 1]) + |batches[|batches| - 1].tests|
  }

  function Normalized(tests: seq<TimedTest>): seq<TimedTest> {
    seq(|tests|, i requires 0 <= i < |tests| =>
      TimedTest(tests[i].filePath, if tests[i].durationMs < 1 then 1 else tests[i].durationMs))
  }

  function Plan(tests: seq<TimedTest>, batchCount: nat): (r: seq<Batch>)
    requires batchCount > 0
    ensures |r| == batchCount
  {
    PlaceAll(EmptyBatches(batchCount), Ceiling(|tests|, batchCount), LongestFirst(Normalized(tests)))
  }

  // ---------------------------------------------------------------- the spread bound

  function Take(tests: seq<TimedTest>, n: nat): seq<TimedTest> {
    if n <= |tests| then tests[..n] else tests
  }

  /**
   Some prefix of b exceeds the same prefix of f by at most one test, and every later test of
   b is no longer than the test at its index in f.
   */
  ghost predicate Dominated(b: seq<TimedTest>, f: seq<TimedTest>, longest: int) {
    exists i: nat :: DominatedFrom(b, f, longest, i)
  }

  ghost predicate DominatedFrom(b: seq<TimedTest>, f: seq<TimedTest>, longest: int, i: nat) {
    && i <= |b|
    && Total(b[..i]) <= Total(Take(f, i)) + longest
    && NoLonger(b, f, i)
  }

  /** From index i on, every test of b is no longer than f's test at the same index. */
  ghost predicate NoLonger(b: seq<TimedTest>, f: seq<TimedTest>, i: nat) {
    forall j :: i <= j < |b| ==> NoLongerAt(b, f, j)
  }

  predicate NoLongerAt(b: seq<TimedTest>, f: seq<TimedTest>, j: nat)
    requires j < |b|
  {
    j < |f| && b[j].durationMs <= f[j].durationMs
  }

  lemma TotalOfAppend(tests: seq<TimedTest>, test: TimedTest)
    ensures Total(tests + [test]) == Total(tests) + test.durationMs
  {
    assert (tests + [test])[..|tests|] == tests;
  }

  /** A longer f without its last test still dominates. */
  lemma DominatedByFront(b: seq<TimedTest>, f: seq<TimedTest>, longest: int, i: nat)
    requires DominatedFrom(b, f, longest, i) && |b| < |f|
    ensures DominatedFrom(b, f[..|f| - 1], longest, i)
  {
    var front := f[..|f| - 1];
    assert Take(front, i) == Take(f, i);
    forall j | i <= j < |b| ensures NoLongerAt(b, front, j) {
      assert NoLongerAt(b, f, j);
    }
  }

  /** So do both without their last tests at one index. */
  lemma DominatedFronts(b: seq<TimedTest>, f: seq<TimedTest>, longest: int, i: nat)
    requires DominatedFrom(b, f, longest, i) && i < |b|
    requires |f| == |b|
    ensures DominatedFrom(b[..|b| - 1], f[..|f| - 1], longest, i)
    ensures b[|b| - 1].durationMs <= f[|f| - 1].durationMs
  {
    var bFront, fFront := b[..|b| - 1], f[..|f| - 1];
    assert bFront[..i] == b[..i] && Take(fFront, i) == Take(f, i);
    forall j | i <= j < |bFront| ensures NoLongerAt(bFront, fFront, j) {
      assert NoLongerAt(b, f, j);
    }
    assert NoLongerAt(b, f, |b| - 1);
  }

  /** The bound the invariant is for. */
  lemma {:induction false} DominatedTotals(b: seq<TimedTest>, f: seq<TimedTest>, longest: int, i: nat)
    requires DominatedFrom(b, f, longest, i)
    requires forall t :: t in f ==> t.durationMs >= 0
    ensures Total(b) <= Total(f) + longest
    decreases |f|, |b|
  {
    if |b| == i && i >= |f| {
      assert b[..i] == b && Take(f, i) == f;
    } else if |b| < |f| {
      DominatedByFront(b, f, longest, i);
      assert f[|f| - 1] in f;
      DominatedTotals(b, f[..|f| - 1], longest, i);
    } else {
      assert NoLongerAt(b, f, |b| - 1);
      DominatedFronts(b, f, longest, i);
      DominatedTotals(b[..|b| - 1], f[..|f| - 1], longest, i);
    }
  }

  /** The order facts that hold while tests are placed longest first. */
  ghost predicate Placing(batches: seq<Batch>, cap: nat, rest: seq<TimedTest>, longest: int) {
    && Descending(rest)
    && (forall t :: t in rest ==> 1 <= t.durationMs <= longest)
    && AllPlaced(batches, cap, rest)
    && AllDominated(batches, longest)
  }

  ghost predicate AllPlaced(batches: seq<Batch>, cap: nat, rest: seq<TimedTest>) {
    forall a :: 0 <= a < |batches| ==> Placed(batches[a], cap, rest)
  }

  ghost predicate AllDominated(batches: seq<Batch>, longest: int) {
    forall a, c :: 0 <= a < |batches| && 0 <= c < |batches| ==>
      Dominated(batches[a].tests, batches[c].tests, longest)
  }

  ghost predicate Placed(batch: Batch, cap: nat, rest: seq<TimedTest>) {
    && batch.durationMs == Total(batch.tests) && |batch.tests| <= cap
    && (forall t :: t in batch.tests ==> t.durationMs >= 1)
    && (forall t, u :: t in batch.tests && u in rest ==> t.durationMs >= u.durationMs)
  }

  /** A receiver that was no longer than f restarts the comparison after its new test. */
  lemma ReceiverCatchesUp(b: seq<TimedTest>, f: seq<TimedTest>, test: TimedTest, longest: int)
    requires Total(b) <= Total(f) && test.durationMs <= longest && |f| <= |b| + 1
    ensures Dominated(b + [test], f, longest)
  {
    var grown := b + [test];
    TotalOfAppend(b, test);
    assert grown[..|grown|] == grown;
    assert Take(f, |grown|) == f;
    assert DominatedFrom(grown, f, longest, |grown|);
  }

  /** Otherwise f already holds a longer test at the index of the new one. */
  lemma ReceiverFindsLonger(b: seq<TimedTest>, f: seq<TimedTest>, test: TimedTest, longest: int)
    requires Dominated(b, f, longest) && |b| < |f| && test.durationMs <= f[|b|].durationMs
    ensures Dominated(b + [test], f, longest)
  {
    var i: nat :| DominatedFrom(b, f, longest, i);
    var grown := b + [test];
    assert grown[..i] == b[..i];
    forall j | i <= j < |grown| ensures NoLongerAt(grown, f, j) {
      if j < |b| { assert NoLongerAt(b, f, j); }
    }
    assert DominatedFrom(grown, f, longest, i);
  }

  /** The receiver of a test stays dominated by every other batch. */
  lemma ReceiverStaysDominated(b: Batch, f: Batch, cap: nat, test: TimedTest, longest: int)
    requires Dominated(b.tests, f.tests, longest) && test.durationMs <= longest
    requires b.durationMs == Total(b.tests) && f.durationMs == Total(f.tests)
    requires |b.tests| < cap && (|f.tests| < cap ==> b.durationMs <= f.durationMs)
    requires forall t :: t in f.tests ==> t.durationMs >= test.durationMs
    ensures Dominated(b.tests + [test], f.tests, longest)
  {
    if |f.tests| < cap && |f.tests| <= |b.tests| + 1 {
      ReceiverCatchesUp(b.tests, f.tests, test, longest);
    } else {
      assert f.tests[|b.tests|] in f.tests;
      ReceiverFindsLonger(b.tests, f.tests, test, longest);
    }
  }

  lemma TakeOfGrown(f: seq<TimedTest>, test: TimedTest, i: nat)
    requires test.durationMs >= 0
    ensures Total(Take(f + [test], i)) >= Total(Take(f, i))
  {
    if i <= |f| {
      assert Take(f + [test], i) == Take(f, i);
    } else {
      assert Take(f + [test], i) == f + [test] && Take(f, i) == f;
      TotalOfAppend(f, test);
    }
  }

  lemma GrowthKeepsNoLonger(b: seq<TimedTest>, f: seq<TimedTest>, test: TimedTest, i: nat)
    requires NoLonger(b, f, i)
    ensures NoLonger(b, f + [test], i)
  {
    forall j | i <= j < |b| ensures NoLongerAt(b, f + [test], j) {
      assert NoLongerAt(b, f, j);
    }
  }

  /** A batch that receives a test dominates what it dominated before. */
  lemma GrowthKeepsDominating(b: seq<TimedTest>, f: seq<TimedTest>, test: TimedTest, longest: int)
    requires Dominated(b, f, longest) && test.durationMs >= 0
    ensures Dominated(b, f + [test], longest)
  {
    var i: nat :| DominatedFrom(b, f, longest, i);
    TakeOfGrown(f, test, i);
    GrowthKeepsNoLonger(b, f, test, i);
    assert DominatedFrom(b, f + [test], longest, i);
  }

  lemma SelfDominated(b: seq<TimedTest>, longest: int)
    requires longest >= 0
    ensures Dominated(b, b, longest)
  {
    assert DominatedFrom(b, b, longest, 0);
  }

  lemma PairStaysDominated(batches: seq<Batch>, cap: nat, test: TimedTest, longest: int, a: nat, c: nat)
    requires a < |batches| && c < |batches| && 0 <= test.durationMs <= longest
    requires Dominated(batches[a].tests, batches[c].tests, longest)
    requires batches[a].durationMs == Total(batches[a].tests) && batches[c].durationMs == Total(batches[c].tests)
    requires forall t :: t in batches[c].tests ==> t.durationMs >= test.durationMs
    ensures Dominated(Place(batches, cap, test)[a].tests, Place(batches, cap, test)[c].tests, longest)
  {
    var target := Target(batches, cap, |batches|);
    if a == c {
      SelfDominated(Place(batches, cap, test)[a].tests, longest);
    } else if target == Some(a) {
      ReceiverStaysDominated(batches[a], batches[c], cap, test, longest);
    } else if target == Some(c) {
      GrowthKeepsDominating(batches[a].tests, batches[c].tests, test, longest);
    }
  }

  lemma BatchStaysPlaced(batches: seq<Batch>, cap: nat, rest: seq<TimedTest>, a: nat)
    requires rest != [] && a < |batches| && Placed(batches[a], cap, rest)
    requires Descending(rest) && rest[0].durationMs >= 1
    ensures Placed(Place(batches, cap, rest[0])[a], cap, rest[1..])
  {
    TotalOfAppend(batches[a].tests, rest[0]);
    forall u | u in rest[1..] ensures rest[0].durationMs >= u.durationMs && u in rest {
      var n :| 0 <= n < |rest[1..]| && rest[1..][n] == u;
      assert rest[n + 1] == u;
    }
  }

  lemma PlaceKeepsDominated(batches: seq<Batch>, cap: nat, rest: seq<TimedTest>, longest: int, a: nat, c: nat)
    requires rest != [] && Placing(batches, cap, rest, longest)
    requires a < |batches| && c < |batches|
    ensures Dominated(Place(batches, cap, rest[0])[a].tests, Place(batches, cap, rest[0])[c].tests, longest)
  {
    assert rest[0] in rest;
    assert Placed(batches[a], cap, rest) && Placed(batches[c], cap, rest);
    PairStaysDominated(batches, cap, rest[0], longest, a, c);
  }

  lemma PlaceKeepsAllDominated(batches: seq<Batch>, cap: nat, rest: seq<TimedTest>, longest: int)
    requires rest != [] && Placing(batches, cap, rest, longest)
    ensures AllDominated(Place(batches, cap, rest[0]), longest)
  {
    var after := Place(batches, cap, rest[0]);
    forall a, c | 0 <= a < |after| && 0 <= c < |after|
      ensures Dominated(after[a].tests, after[c].tests, longest)
    {
      PlaceKeepsDominated(batches, cap, rest, longest, a, c);
    }
  }

  lemma PlaceKeepsAllPlaced(batches: seq<Batch>, cap: nat, rest: seq<TimedTest>, longest: int)
    requires rest != [] && Placing(batches, cap, rest, longest)
    ensures AllPlaced(Place(batches, cap, rest[0]), cap, rest[1..])
  {
    assert rest[0] in rest;
    forall a | 0 <= a < |batches| ensures Placed(Place(batches, cap, rest[0])[a], cap, rest[1..]) {
      BatchStaysPlaced(batches, cap, rest, a);
    }
  }

  lemma PlaceKeepsPlacing(batches: seq<Batch>, cap: nat, rest: seq<TimedTest>, longest: int)
    requires rest != [] && Placing(batches, cap, rest, longest)
    ensures Placing(Place(batches, cap, rest[0]), cap, rest[1..], longest)
  {
    PlaceKeepsAllPlaced(batches, cap, rest, longest);
    PlaceKeepsAllDominated(batches, cap, rest, longest);
    assert forall t :: t in rest[1..] ==> t in rest;
  }

  lemma {:induction false} PlaceAllKeepsPlacing(batches: seq<Batch>, cap: nat, rest: seq<TimedTest>, longest: int)
    requires Placing(batches, cap, rest, longest)
    ensures Placing(PlaceAll(batches, cap, rest), cap, [], longest)
    decreases |rest|
  {
    if rest != [] {
      PlaceKeepsPlacing(batches, cap, rest, longest);
      PlaceAllKeepsPlacing(Place(batches, cap, rest[0]), cap, rest[1..], longest);
    }
  }

  lemma SortedInRange(tests: seq<TimedTest>, longest: int)
    requires forall t :: t in Normalized(tests) ==> t.durationMs <= longest
    ensures forall t :: t in LongestFirst(Normalized(tests)) ==> 1 <= t.durationMs <= longest
  {
    forall t | t in LongestFirst(Normalized(tests)) ensures 1 <= t.durationMs <= longest {
      assert t in multiset(LongestFirst(Normalized(tests)));
      assert t in Normalized(tests);
    }
  }

  lemma EmptyIsPlacing(count: nat, cap: nat, sorted: seq<TimedTest>, longest: int)
    requires longest >= 0 && Descending(sorted)
    requires forall t :: t in sorted ==> 1 <= t.durationMs <= longest
    ensures Placing(EmptyBatches(count), cap, sorted, longest)
  {
    var empty := EmptyBatches(count);
    forall a, c | 0 <= a < |empty| && 0 <= c < |empty| ensures Dominated(empty[a].tests, empty[c].tests, longest) {
      SelfDominated([], longest);
    }
  }

  lemma PlanIsPlacing(tests: seq<TimedTest>, batchCount: nat, longest: int)
    requires batchCount > 0 && longest >= 0
    requires forall t :: t in Normalized(tests) ==> t.durationMs <= longest
    ensures Placing(Plan(tests, batchCount), Ceiling(|tests|, batchCount), [], longest)
  {
    var sorted := LongestFirst(Normalized(tests));
    LongestFirstIsSorted(Normalized(tests));
    SortedInRange(tests, longest);
    EmptyIsPlacing(batchCount, Ceiling(|tests|, batchCount), sorted, longest);
    PlaceAllKeepsPlacing(EmptyBatches(batchCount), Ceiling(|tests|, batchCount), sorted, longest);
  }

  /** No two batches differ by more than the longest single test, even when full batches were skipped. */
  lemma SpreadIsAtMostOneTest(tests: seq<TimedTest>, batchCount: nat, a: nat, c: nat)
    requires a < batchCount && c < batchCount
    ensures Plan(tests, batchCount)[a].durationMs - Plan(tests, batchCount)[c].durationMs <= LongestDuration(tests)
  {
    var plan, longest := Plan(tests, batchCount), LongestDuration(tests);
    LongestBound(tests);
    PlanIsPlacing(tests, batchCount, longest);
    assert Placed(plan[a], Ceiling(|tests|, batchCount), []) && Placed(plan[c], Ceiling(|tests|, batchCount), []);
    assert Dominated(plan[a].tests, plan[c].tests, longest);
    var i: nat :| DominatedFrom(plan[a].tests, plan[c].tests, longest, i);
    DominatedTotals(plan[a].tests, plan[c].tests, longest, i);
  }

  // ---------------------------------------------------------------- the exact partition

  function Durations(batches: seq<Batch>): int {
    if batches == [] then 0 else Durations(batches[..|batches| - 1]) + batches[|batches| - 1].durationMs
  }

  lemma {:induction false} TotalOfPrepend(test: TimedTest, tests: seq<TimedTest>)
    ensures Total([test] + tests) == test.durationMs + Total(tests)
  {
    if tests == [] {
      assert [test] + tests == [] + [test];
      TotalOfAppend([], test);
    } else {
      var front, last := tests[..|tests| - 1], tests[|tests| - 1];
      assert tests == front + [last] && [test] + tests == ([test] + front) + [last];
      TotalOfPrepend(test, front);
      TotalOfAppend([test] + front, last);
    }
  }

  lemma PathsOfAppend(a: seq<TimedTest>, b: seq<TimedTest>)
    ensures Paths(a + b) == Paths(a) + Paths(b)
  {
  }

  lemma {:induction false} InsertKeepsSum(test: TimedTest, sorted: seq<TimedTest>)
    ensures Total(Insert(test, sorted)) == Total(sorted) + test.durationMs
    ensures multiset(Paths(Insert(test, sorted))) == multiset(Paths(sorted)) + multiset{test.filePath}
  {
    if sorted != [] && NotAfter(sorted[0], test) {
      assert sorted == [sorted[0]] + sorted[1..];
      InsertKeepsSum(test, sorted[1..]);
      TotalOfPrepend(sorted[0], Insert(test, sorted[1..]));
      TotalOfPrepend(sorted[0], sorted[1..]);
      PathsOfAppend([sorted[0]], Insert(test, sorted[1..]));
      PathsOfAppend([sorted[0]], sorted[1..]);
    } else {
      TotalOfPrepend(test, sorted);
      PathsOfAppend([test], sorted);
      if sorted == [] {
        assert [test] + sorted == [test];
      }
    }
  }

  lemma {:induction false} SortKeepsTotal(tests: seq<TimedTest>)
    ensures Total(LongestFirst(tests)) == Total(tests)
  {
    if tests != [] {
      var front, last := tests[..|tests| - 1], tests[|tests| - 1];
      SortKeepsTotal(front);
      InsertKeepsSum(last, LongestFirst(front));
    }
  }

  lemma PathBagOfAppend(tests: seq<TimedTest>, test: TimedTest)
    ensures multiset(Paths(tests + [test])) == multiset(Paths(tests)) + multiset{test.filePath}
  {
    PathsOfAppend(tests, [test]);
    assert Paths([test]) == [test.filePath];
  }

  lemma {:induction false} SortKeepsPaths(tests: seq<TimedTest>)
    ensures multiset(Paths(LongestFirst(tests))) == multiset(Paths(tests))
  {
    if tests != [] {
      var front, last := tests[..|tests| - 1], tests[|tests| - 1];
      assert tests == front + [last];
      PathBagOfAppend(front, last);
      InsertKeepsSum(last, LongestFirst(front));
      SortKeepsPaths(front);
    }
  }

  function Grown(batches: seq<Batch>, t: nat, test: TimedTest): seq<Batch>
    requires t < |batches|
  {
    batches[t := Batch(batches[t].durationMs + test.durationMs, batches[t].tests + [test])]
  }

  /** One batch grows by one test. */
  lemma {:induction false} GrowDurations(batches: seq<Batch>, t: nat, test: TimedTest)
    requires t < |batches|
    ensures Durations(Grown(batches, t, test)) == Durations(batches) + test.durationMs
  {
    var n := |batches| - 1;
    if t == n {
      assert Grown(batches, t, test)[..n] == batches[..n];
    } else {
      assert Grown(batches, t, test)[..n] == Grown(batches[..n], t, test);
      GrowDurations(batches[..n], t, test);
    }
  }

  /** The placed paths as a bag. */
  ghost function Bag(batches: seq<Batch>): multiset<string> {
    if batches == [] then multiset{} else Bag(batches[..|batches| - 1]) + multiset(Paths(batches[|batches| - 1].tests))
  }

  lemma {:induction false} BagIsPaths(batches: seq<Batch>)
    ensures Bag(batches) == multiset(BatchPaths(batches))
  {
    if batches != [] {
      BagIsPaths(batches[..|batches| - 1]);
    }
  }

  lemma GrownSplit(batches: seq<Batch>, t: nat, test: TimedTest)
    requires t < |batches|
    ensures var n := |batches| - 1;
      var grown := Grown(batches, t, test);
      && (t == n ==> grown[..n] == batches[..n] && grown[n].tests == batches[n].tests + [test])
      && (t < n ==> grown[..n] == Grown(batches[..n], t, test) && grown[n] == batches[n])
  {
  }

  lemma BagOfSplit(front: multiset<string>, back: multiset<string>, path: string)
    ensures front + multiset{path} + back == front + back + multiset{path}
    ensures front + (back + multiset{path}) == front + back + multiset{path}
  {
  }

  lemma {:induction false} GrowBag(batches: seq<Batch>, t: nat, test: TimedTest)
    requires t < |batches|
    ensures Bag(Grown(batches, t, test)) == Bag(batches) + multiset{test.filePath}
  {
    var n := |batches| - 1;
    GrownSplit(batches, t, test);
    BagOfSplit(Bag(batches[..n]), multiset(Paths(batches[n].tests)), test.filePath);
    if t == n {
      PathBagOfAppend(batches[n].tests, test);
    } else {
      GrowBag(batches[..n], t, test);
    }
  }

  lemma GrowPaths(batches: seq<Batch>, t: nat, test: TimedTest)
    requires t < |batches|
    ensures multiset(BatchPaths(Grown(batches, t, test))) == multiset(BatchPaths(batches)) + multiset{test.filePath}
  {
    GrowBag(batches, t, test);
    BagIsPaths(batches);
    BagIsPaths(Grown(batches, t, test));
  }

  lemma GrowCount(batches: seq<Batch>, t: nat, test: TimedTest)
    requires t < |batches|
    ensures |BatchPaths(Grown(batches, t, test))| == |BatchPaths(batches)| + 1
  {
    GrowPaths(batches, t, test);
    var before, after := BatchPaths(batches), BatchPaths(Grown(batches, t, test));
    assert |multiset(after)| == |multiset(before)| + 1;
  }

  lemma PlaceGrows(batches: seq<Batch>, cap: nat, test: TimedTest)
    requires Target(batches, cap, |batches|).Some?
    ensures Place(batches, cap, test) == Grown(batches, Target(batches, cap, |batches|).value, test)
  {
  }

  lemma {:induction false} EmptyHoldsNothing(count: nat)
    ensures BatchPaths(EmptyBatches(count)) == [] && Durations(EmptyBatches(count)) == 0
  {
    if count > 0 {
      assert EmptyBatches(count)[..count - 1] == EmptyBatches(count - 1);
      EmptyHoldsNothing(count - 1);
    }
  }

  /** Full batches hold the whole inventory. */
  lemma {:induction false} FullBatchesHold(batches: seq<Batch>, cap: nat)
    requires forall b :: b in batches ==> |b.tests| >= cap
    ensures |BatchPaths(batches)| >= |batches| * cap
  {
    if batches != [] {
      var front := batches[..|batches| - 1];
      assert forall b :: b in front ==> b in batches;
      FullBatchesHold(front, cap);
      assert |batches| * cap == |front| * cap + cap;
    }
  }

  /** With one batch empty and none above one test, fewer tests than batches were placed. */
  lemma {:induction false} SparseBatchesHold(batches: seq<Batch>)
    requires forall b :: b in batches ==> |b.tests| <= 1
    ensures |BatchPaths(batches)| <= |batches|
    ensures (exists b :: b in batches && b.tests == []) ==> |BatchPaths(batches)| < |batches|
  {
    if batches != [] {
      var front, last := batches[..|batches| - 1], batches[|batches| - 1];
      assert batches == front + [last];
      SparseBatchesHold(front);
    }
  }

  lemma CeilingIsEnough(n: nat, k: nat)
    requires k > 0
    ensures k * Ceiling(n, k) >= n && (n > 0 ==> Ceiling(n, k) > 0)
  {
    var q := (n + k - 1) / k;
    assert (n + k - 1) == q * k + (n + k - 1) % k;
  }

  /** While an empty batch remains, no batch has received a second test. */
  ghost predicate Spreading(batches: seq<Batch>) {
    && (forall b :: b in batches ==> b.durationMs >= |b.tests|)
    && (forall b :: b in batches && b.tests == [] ==> b.durationMs == 0)
    && ((exists b :: b in batches && b.tests == []) ==> forall b :: b in batches ==> |b.tests| <= 1)
  }

  lemma PlaceKeepsSpreading(batches: seq<Batch>, cap: nat, test: TimedTest)
    requires Spreading(batches) && cap > 0 && test.durationMs >= 1
    ensures Spreading(Place(batches, cap, test))
  {
    var after := Place(batches, cap, test);
    var target := Target(batches, cap, |batches|);
    if target.Some? {
      forall b | b in after ensures b in batches || b == after[target.value] {
        var n :| 0 <= n < |after| && after[n] == b;
      }
      if exists b :: b in after && b.tests == [] {
        var e :| e in after && e.tests == [];
        var n :| 0 <= n < |after| && after[n] == e;
        assert batches[n] == e;
        assert !Better(batches[n], batches[target.value]);
        assert batches[target.value] in batches;
      }
    }
  }

  lemma OnePlacement(batches: seq<Batch>, cap: nat, tests: seq<TimedTest>)
    requires tests != [] && |BatchPaths(batches)| + |tests| <= |batches| * cap
    ensures var after := Place(batches, cap, tests[0]);
      && Durations(after) == Durations(batches) + tests[0].durationMs
      && |BatchPaths(after)| == |BatchPaths(batches)| + 1
      && multiset(BatchPaths(after)) == multiset(BatchPaths(batches)) + multiset{tests[0].filePath}
  {
    NonFullBatchExists(batches, cap, |tests|);
    PlaceGrows(batches, cap, tests[0]);
    var t := Target(batches, cap, |batches|).value;
    GrowDurations(batches, t, tests[0]);
    GrowPaths(batches, t, tests[0]);
    GrowCount(batches, t, tests[0]);
  }

  lemma PathBagOfPrepend(test: TimedTest, tests: seq<TimedTest>)
    ensures multiset(Paths([test] + tests)) == multiset{test.filePath} + multiset(Paths(tests))
  {
    PathsOfAppend([test], tests);
    assert Paths([test]) == [test.filePath];
  }

  lemma {:induction false} PlaceAllDurations(batches: seq<Batch>, cap: nat, tests: seq<TimedTest>)
    requires |BatchPaths(batches)| + |tests| <= |batches| * cap
    ensures Durations(PlaceAll(batches, cap, tests)) == Durations(batches) + Total(tests)
    decreases |tests|
  {
    if tests != [] {
      var rest, after := tests[1..], Place(batches, cap, tests[0]);
      assert tests == [tests[0]] + rest;
      TotalOfPrepend(tests[0], rest);
      OnePlacement(batches, cap, tests);
      PlaceAllDurations(after, cap, rest);
      assert PlaceAll(batches, cap, tests) == PlaceAll(after, cap, rest);
    }
  }

  lemma BagAssociates(placed: multiset<string>, path: string, rest: multiset<string>)
    ensures placed + multiset{path} + rest == placed + (multiset{path} + rest)
  {
  }

  lemma {:induction false} PlaceAllBag(batches: seq<Batch>, cap: nat, tests: seq<TimedTest>)
    requires |BatchPaths(batches)| + |tests| <= |batches| * cap
    ensures multiset(BatchPaths(PlaceAll(batches, cap, tests))) ==
            multiset(BatchPaths(batches)) + multiset(Paths(tests))
    decreases |tests|
  {
    if tests != [] {
      var rest := tests[1..];
      assert tests == [tests[0]] + rest;
      PathBagOfPrepend(tests[0], rest);
      OnePlacement(batches, cap, tests);
      PlaceAllBag(Place(batches, cap, tests[0]), cap, rest);
      BagAssociates(multiset(BatchPaths(batches)), tests[0].filePath, multiset(Paths(rest)));
    }
  }

  /** Every step finds a non-full batch, and the placed tests are exactly the tests given. */
  lemma PlaceAllPartitions(batches: seq<Batch>, cap: nat, tests: seq<TimedTest>)
    requires |BatchPaths(batches)| + |tests| <= |batches| * cap
    ensures Durations(PlaceAll(batches, cap, tests)) == Durations(batches) + Total(tests)
    ensures multiset(BatchPaths(PlaceAll(batches, cap, tests))) ==
            multiset(BatchPaths(batches)) + multiset(Paths(tests))
  {
    PlaceAllDurations(batches, cap, tests);
    PlaceAllBag(batches, cap, tests);
  }

  lemma {:induction false} PlaceAllKeepsSpreading(batches: seq<Batch>, cap: nat, tests: seq<TimedTest>)
    requires Spreading(batches) && cap > 0
    requires forall t :: t in tests ==> t.durationMs >= 1
    ensures Spreading(PlaceAll(batches, cap, tests))
    decreases |tests|
  {
    if tests != [] {
      assert tests[0] in tests && forall t :: t in tests[1..] ==> t in tests;
      PlaceKeepsSpreading(batches, cap, tests[0]);
      PlaceAllKeepsSpreading(Place(batches, cap, tests[0]), cap, tests[1..]);
    }
  }

  lemma NonFullBatchExists(batches: seq<Batch>, cap: nat, remaining: nat)
    requires remaining > 0 && |BatchPaths(batches)| + remaining <= |batches| * cap
    ensures Target(batches, cap, |batches|).Some?
  {
    if Target(batches, cap, |batches|).None? {
      forall b | b in batches ensures |b.tests| >= cap {
        var n :| 0 <= n < |batches| && batches[n] == b;
      }
      FullBatchesHold(batches, cap);
    }
  }

  lemma PlanKeepsContents(tests: seq<TimedTest>, batchCount: nat)
    requires batchCount > 0
    ensures multiset(BatchPaths(Plan(tests, batchCount))) == multiset(Paths(tests))
    ensures Durations(Plan(tests, batchCount)) == Total(Normalized(tests))
  {
    CeilingIsEnough(|tests|, batchCount);
    EmptyHoldsNothing(batchCount);
    LongestFirstIsSorted(Normalized(tests));
    SortKeepsTotal(Normalized(tests));
    SortKeepsPaths(Normalized(tests));
    assert Paths(Normalized(tests)) == Paths(tests);
    PlaceAllPartitions(EmptyBatches(batchCount), Ceiling(|tests|, batchCount), LongestFirst(Normalized(tests)));
  }

  lemma PlanHasNoEmptyBatch(tests: seq<TimedTest>, batchCount: nat)
    requires 0 < batchCount <= |tests|
    ensures forall b :: b in Plan(tests, batchCount) ==> b.tests != []
  {
    var plan := Plan(tests, batchCount);
    CeilingIsEnough(|tests|, batchCount);
    LongestBound(tests);
    SortedInRange(tests, LongestDuration(tests));
    PlaceAllKeepsSpreading(EmptyBatches(batchCount), Ceiling(|tests|, batchCount), LongestFirst(Normalized(tests)));
    PlanKeepsContents(tests, batchCount);
    assert |multiset(BatchPaths(plan))| == |multiset(Paths(tests))|;
    if exists b :: b in plan && b.tests == [] {
      SparseBatchesHold(plan);
    }
  }

  /** A test of the inventory, with a duration of at least one millisecond. */
  predicate IsScheduled(tests: seq<TimedTest>, t: TimedTest) {
    exists i :: 0 <= i < |tests| && tests[i].filePath == t.filePath &&
                t.durationMs == (if tests[i].durationMs > 1 then tests[i].durationMs else 1)
  }

  lemma ShareIsRoundedUp(n: nat, k: nat, share: nat)
    requires k > 0 && share <= Ceiling(n, k)
    ensures (share - 1) * k < n || (n == 0 && share == 0)
  {
    var c := Ceiling(n, k);
    assert c * k <= n + k - 1;
    assert (share - 1) * k <= (c - 1) * k;
    assert (c - 1) * k == c * k - k;
  }

  /** Whatever is in a batch was there before or was placed. */
  lemma {:induction false} PlacedComeFrom(batches: seq<Batch>, cap: nat, tests: seq<TimedTest>, b: Batch)
    requires b in PlaceAll(batches, cap, tests)
    ensures forall t :: t in b.tests ==> t in tests || exists e :: e in batches && t in e.tests
    decreases |tests|
  {
    if tests != [] {
      var placed := Place(batches, cap, tests[0]);
      PlacedComeFrom(placed, cap, tests[1..], b);
      forall t | t in b.tests && t !in tests ensures exists e :: e in batches && t in e.tests {
        var e :| e in placed && t in e.tests;
        assert t !in tests[1..];
        var n :| 0 <= n < |placed| && placed[n] == e;
        assert placed[n].tests == batches[n].tests || placed[n].tests == batches[n].tests + [tests[0]];
        assert batches[n] in batches && t in batches[n].tests;
      }
    }
  }

  lemma BatchIsScheduled(tests: seq<TimedTest>, batchCount: nat, b: Batch)
    requires batchCount > 0 && b in Plan(tests, batchCount)
    ensures forall t :: t in b.tests ==> IsScheduled(tests, t)
  {
    var sorted := LongestFirst(Normalized(tests));
    PlacedComeFrom(EmptyBatches(batchCount), Ceiling(|tests|, batchCount), sorted, b);
    forall t | t in b.tests ensures IsScheduled(tests, t) {
      assert t in multiset(sorted);
      assert t in Normalized(tests);
      var i :| 0 <= i < |tests| && Normalized(tests)[i] == t;
    }
  }

  /**
   The plan is an exact partition: every test in exactly one batch with its own duration, at least
   one, no batch above its share of the files rounded up, none empty, and all totals exact.
   */
  lemma PlanIsExactPartition(tests: seq<TimedTest>, batchCount: nat)
    requires 0 < batchCount <= |tests|
    ensures multiset(BatchPaths(Plan(tests, batchCount))) == multiset(Paths(tests))
    ensures Durations(Plan(tests, batchCount)) == Total(Normalized(tests))
    ensures forall b :: b in Plan(tests, batchCount) ==>
      && 0 < |b.tests| && (|b.tests| - 1) * batchCount < |tests|
      && b.durationMs == Total(b.tests)
      && forall t :: t in b.tests ==> IsScheduled(tests, t)
  {
    PlanKeepsContents(tests, batchCount);
    PlanHasNoEmptyBatch(tests, batchCount);
    LongestBound(tests);
    PlanIsPlacing(tests, batchCount, LongestDuration(tests));
    var plan := Plan(tests, batchCount);
    forall b | b in plan
      ensures b.durationMs == Total(b.tests) && (|b.tests| - 1) * batchCount < |tests|
      ensures forall t :: t in b.tests ==> IsScheduled(tests, t)
    {
      var n :| 0 <= n < |plan| && plan[n] == b;
      assert Placed(b, Ceiling(|tests|, batchCount), []);
      ShareIsRoundedUp(|tests|, batchCount, |b.tests|);
      BatchIsScheduled(tests, batchCount, b);
    }
  }

  function LongestDuration(tests: seq<TimedTest>): (r: int)
    ensures r >= 1
  {
    if tests == [] then 1
    else
      var front := LongestDuration(tests[..|tests| - 1]);
      if tests[|tests| - 1].durationMs > front then tests[|tests| - 1].durationMs else front
  }

  lemma {:induction false} LongestBound(tests: seq<TimedTest>)
    ensures forall t :: t in Normalized(tests) ==> t.durationMs <= LongestDuration(tests)
  {
    if tests != [] {
      var n := |tests| - 1;
      LongestBound(tests[..n]);
      assert Normalized(tests) == Normalized(tests[..n]) + [Normalized(tests)[n]];
    }
  }

  lemma {:induction false} PathOrderIsStrict(a: string, b: string)
    requires PathAtMost(a, b) && PathAtMost(b, a)
    ensures a == b
  {
    if a != [] {
      PathOrderIsStrict(a[1..], b[1..]);
      assert a == [a[0]] + a[1..] && b == [b[0]] + b[1..];
    }
  }

  lemma FirstIsLeast(a: seq<TimedTest>, t: TimedTest)
    requires Ordered(a) && t in a
    ensures a[0] == t || NotAfter(a[0], t)
  {
    var k :| 0 <= k < |a| && a[k] == t;
  }

  lemma SameHead(a: seq<TimedTest>, b: seq<TimedTest>)
    requires Ordered(a) && Ordered(b) && a != [] && b != [] && a[0] in b && b[0] in a
    ensures a[0] == b[0]
  {
    FirstIsLeast(a, b[0]);
    FirstIsLeast(b, a[0]);
    if a[0] != b[0] {
      PathOrderIsStrict(a[0].filePath, b[0].filePath);
    }
  }

  lemma WithoutHead(a: seq<TimedTest>)
    requires a != []
    ensures multiset(a[1..]) == multiset(a) - multiset{a[0]}
  {
    assert a == [a[0]] + a[1..];
  }

  /** Two ordered lists of the same tests are the same list. */
  lemma {:induction false} OrderIsUnique(a: seq<TimedTest>, b: seq<TimedTest>)
    requires Ordered(a) && Ordered(b) && multiset(a) == multiset(b)
    ensures a == b
    decreases |a|
  {
    assert |a| == |multiset(a)| && |b| == |multiset(b)|;
    if a != [] {
      assert a[0] in multiset(b) && b[0] in multiset(a);
      SameHead(a, b);
      WithoutHead(a);
      WithoutHead(b);
      OrderIsUnique(a[1..], b[1..]);
      assert a == [a[0]] + a[1..] && b == [a[0]] + b[1..];
    }
  }

  /** The plan depends on the tests alone, not on the order in which the inventory lists them. */
  lemma PlanIgnoresInventoryOrder(tests: seq<TimedTest>, others: seq<TimedTest>, batchCount: nat)
    requires batchCount > 0 && multiset(tests) == multiset(others)
    ensures Plan(tests, batchCount) == Plan(others, batchCount)
  {
    assert |tests| == |multiset(tests)| && |others| == |multiset(others)|;
    SameWhenNormalized(tests, others);
    LongestFirstIsOrdered(Normalized(tests));
    LongestFirstIsOrdered(Normalized(others));
    OrderIsUnique(LongestFirst(Normalized(tests)), LongestFirst(Normalized(others)));
  }

  lemma {:induction false} SameWhenNormalized(tests: seq<TimedTest>, others: seq<TimedTest>)
    requires multiset(tests) == multiset(others)
    ensures multiset(Normalized(tests)) == multiset(Normalized(others))
    decreases |tests|
  {
    assert |tests| == |multiset(tests)| && |others| == |multiset(others)|;
    if tests != [] {
      var n := |tests| - 1;
      var last := tests[n];
      assert last in multiset(others);
      var k :| 0 <= k < |others| && others[k] == last;
      var rest := others[..k] + others[k + 1..];
      assert others == others[..k] + [last] + others[k + 1..];
      assert tests == tests[..n] + [last];
      assert multiset(tests[..n]) == multiset(tests) - multiset{last};
      assert multiset(rest) == multiset(others) - multiset{last};
      SameWhenNormalized(tests[..n], rest);
      NormalizedOfConcat(tests[..n], [last]);
      NormalizedOfConcat(others[..k] + [last], others[k + 1..]);
      NormalizedOfConcat(others[..k], [last]);
      NormalizedOfConcat(others[..k], others[k + 1..]);
    }
  }

  lemma NormalizedOfConcat(a: seq<TimedTest>, b: seq<TimedTest>)
    ensures Normalized(a + b) == Normalized(a) + Normalized(b)
  {
  }

  // ---------------------------------------------------------------- the planner

  ghost predicate Admissible(tests: seq<TimedTest>) {
    && (forall i :: 0 <= i < |tests| ==> tests[i].filePath != "" && 0 <= tests[i].durationMs <= MAXIMUM_SAFE_INTEGER)
    && Distinct(Paths(tests))
  }

  predicate TotalsAreSafe(batches: seq<Batch>) {
    forall i :: 0 <= i < |batches| ==> batches[i].durationMs <= MAXIMUM_SAFE_INTEGER
  }

  lemma {:induction false} TotalsOnlyGrow(batches: seq<Batch>, cap: nat, tests: seq<TimedTest>, t: nat)
    requires t < |batches| && forall u :: u in tests ==> u.durationMs >= 1
    ensures PlaceAll(batches, cap, tests)[t].durationMs >= batches[t].durationMs
    decreases |tests|
  {
    if tests != [] {
      assert tests[0] in tests && forall u :: u in tests[1..] ==> u in tests;
      TotalsOnlyGrow(Place(batches, cap, tests[0]), cap, tests[1..], t);
    }
  }

  /** Finds the first best non-full batch. */
  method FindTarget(batches: seq<Batch>, cap: nat) returns (target: Option<nat>)
    ensures target == Target(batches, cap, |batches|)
  {
    target := None;
    for n := 0 to |batches|
      invariant target == Target(batches, cap, n)
    {
      if |batches[n].tests| < cap && (target.None? || Better(batches[n], batches[target.value])) {
        target := Some(n);
      }
    }
  }

  /** What one pass of the placement loop relies on. */
  lemma PlacementStep(batches: seq<Batch>, cap: nat, sorted: seq<TimedTest>, i: nat)
    requires i < |sorted| && |BatchPaths(batches)| == i && |sorted| <= |batches| * cap
    requires forall t :: t in sorted ==> t.durationMs >= 1
    ensures Target(batches, cap, |batches|).Some?
    ensures var t := Target(batches, cap, |batches|).value;
      && Place(batches, cap, sorted[i]) == Grown(batches, t, sorted[i])
      && |BatchPaths(Grown(batches, t, sorted[i]))| == i + 1
      && PlaceAll(batches, cap, sorted[i..]) == PlaceAll(Grown(batches, t, sorted[i]), cap, sorted[i + 1..])
      && PlaceAll(batches, cap, sorted[i..])[t].durationMs >= batches[t].durationMs + sorted[i].durationMs
  {
    NonFullBatchExists(batches, cap, |sorted| - i);
    PlaceGrows(batches, cap, sorted[i]);
    var t := Target(batches, cap, |batches|).value;
    GrowCount(batches, t, sorted[i]);
    assert sorted[i..][0] == sorted[i] && sorted[i..][1..] == sorted[i + 1..];
    assert forall u :: u in sorted[i + 1..] ==> u in sorted;
    TotalsOnlyGrow(Grown(batches, t, sorted[i]), cap, sorted[i + 1..], t);
  }

  lemma PlacementStart(tests: seq<TimedTest>, batchCount: nat)
    requires 0 < batchCount
    ensures var sorted := LongestFirst(Normalized(tests));
      && |sorted| <= batchCount * Ceiling(|tests|, batchCount)
      && (forall t :: t in sorted ==> t.durationMs >= 1)
      && BatchPaths(EmptyBatches(batchCount)) == []
      && Plan(tests, batchCount) == PlaceAll(EmptyBatches(batchCount), Ceiling(|tests|, batchCount), sorted[0..])
  {
    LongestBound(tests);
    SortedInRange(tests, LongestDuration(tests));
    CeilingIsEnough(|tests|, batchCount);
    LongestFirstIsSorted(Normalized(tests));
    EmptyHoldsNothing(batchCount);
    assert LongestFirst(Normalized(tests))[0..] == LongestFirst(Normalized(tests));
  }

  ghost predicate Loaded(batches: seq<Batch>, count: nat, i: nat) {
    |batches| == count && |BatchPaths(batches)| == i
  }

  /** The longest-first loop: places every test, or stops at the first unsafe total. */
  method PlaceLongestFirst(tests: seq<TimedTest>, batchCount: nat) returns (r: Outcome<seq<Batch>>)
    requires 0 < batchCount
    ensures r.Returned? <==> TotalsAreSafe(Plan(tests, batchCount))
    ensures r.Returned? ==> r.value == Plan(tests, batchCount)
  {
    var batches := EmptyBatches(batchCount);
    var cap := Ceiling(|tests|, batchCount);
    var sorted := LongestFirst(Normalized(tests));
    ghost var plan := Plan(tests, batchCount);
    PlacementStart(tests, batchCount);
    var i := 0;
    while i < |sorted|
      invariant i <= |sorted| && Loaded(batches, batchCount, i)
      invariant TotalsAreSafe(batches)
      invariant PlaceAll(batches, cap, sorted[i..]) == plan
    {
      PlacementStep(batches, cap, sorted, i);
      var target := FindTarget(batches, cap);
      var t := target.value;
      var nextDurationMs := batches[t].durationMs + sorted[i].durationMs;
      if nextDurationMs > MAXIMUM_SAFE_INTEGER {
        assert plan[t].durationMs > MAXIMUM_SAFE_INTEGER;
        return Threw;
      }
      batches := Grown(batches, t, sorted[i]);
      i := i + 1;
    }
    assert sorted[i..] == [];
    return Returned(batches);
  }

  /** The planner throws exactly on a malformed inventory or an unsafe total, and else returns the plan. */
  method CreateTimedTestBatchPlan(tests: seq<TimedTest>, batchCount: int) returns (r: Outcome<seq<Batch>>)
    ensures r.Returned? <==>
              && 1 <= batchCount <= MAXIMUM_SAFE_INTEGER && batchCount <= |tests|
              && Admissible(tests) && TotalsAreSafe(Plan(tests, batchCount))
    ensures r.Returned? ==> r.value == Plan(tests, batchCount)
  {
    if batchCount < 1 || batchCount > MAXIMUM_SAFE_INTEGER || |tests| < batchCount { return Threw; }
    var duplicates := RepeatedPaths(Paths(tests));
    if duplicates != {} { return Threw; }
    if exists i :: 0 <= i < |tests| &&
         (tests[i].filePath == "" || tests[i].durationMs < 0 || tests[i].durationMs > MAXIMUM_SAFE_INTEGER) {
      return Threw;
    }
    r := PlaceLongestFirst(tests, batchCount);
    if r.Returned? {
      // The partition assertion that ends the source's planner cannot fire.
      PlanIsExactPartition(tests, batchCount);
      var exact := InventoryIsExact(Paths(tests), BatchPaths(r.value));
      if !exact { return Threw; }
    }
  }

  /** Runs batches in order and stops at the first nonzero exit code; `codes` is what each would give. */
  method RunSequentialTestBatches(codes: seq<int>) returns (exitCode: int, ran: nat)
    ensures exitCode == 0 <==> forall i :: 0 <= i < |codes| ==> codes[i] == 0
    ensures exitCode == 0 ==> ran == |codes|
    ensures exitCode != 0 ==> 0 < ran <= |codes| && codes[ran - 1] == exitCode
    ensures forall i :: 0 <= i < ran - 1 ==> codes[i] == 0
  {
    ran := 0;
    while ran < |codes|
      invariant ran <= |codes| && forall i :: 0 <= i < ran ==> codes[i] == 0
    {
      ran := ran + 1;
      if codes[ran - 1] != 0 { return codes[ran - 1], ran; }
    }
    exitCode := 0;
  }
}
