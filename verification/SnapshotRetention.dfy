/**
 Retention of production database snapshots: protected ones stay, and beside them the newest
 young ones up to a fixed number.
 */
module SnapshotRetention {
  import opened Outcomes
  import opened SnapshotIdentity

  const RETENTION_MAXIMUM: nat := 5
  const RETENTION_MAXIMUM_AGE_MS: nat := 172800000
  const ROOT_ENTRY_MAXIMUM: nat := 128

  /** The time embedded in an identity read as a number. */
  function Timestamp(id: nat): nat {
    id / RANDOM_BITS
  }

  lemma TimestampsFollowIds(a: nat, b: nat)
    requires a <= b
    ensures Timestamp(a) <= Timestamp(b)
  {
    QuotientOrder(a, b, RANDOM_BITS);
  }

  // ---------------------------------------------------------------- who survives

  predicate Young(id: nat, now: nat) {
    now - Timestamp(id) <= RETENTION_MAXIMUM_AGE_MS
  }

  function Candidates(published: set<nat>, protected: set<nat>, now: nat): set<nat> {
    set id | id in published && id !in protected && Young(id, now)
  }

  function Room(published: set<nat>, protected: set<nat>): nat {
    var kept := |published * protected|;
    if kept >= RETENTION_MAXIMUM then 0 else RETENTION_MAXIMUM - kept
  }

  function NewerThan(ids: set<nat>, id: nat): set<nat> {
    set other | other in ids && other > id
  }

  /** Fewer than n of the ids are newer. */
  predicate AmongNewest(ids: set<nat>, id: nat, n: nat) {
    id in ids && |NewerThan(ids, id)| < n
  }

  predicate Survives(published: set<nat>, protected: set<nat>, now: nat, id: nat) {
    || id in protected
    || AmongNewest(Candidates(published, protected, now), id, Room(published, protected))
  }

  function Survivors(published: set<nat>, protected: set<nat>, now: nat): set<nat> {
    set id | id in published && Survives(published, protected, now, id)
  }

  lemma SmallerSet(a: set<nat>, b: set<nat>)
    requires a <= b
    ensures |a| <= |b|
    ensures a < b ==> |a| < |b|
  {
    assert b == a + (b - a);
  }

  /** Removing one id changes a rank below it by one, and no rank at or above it. */
  lemma RankWithout(ids: set<nat>, gone: nat, id: nat)
    requires gone in ids
    ensures |NewerThan(ids - {gone}, id)| == |NewerThan(ids, id)| - (if gone > id then 1 else 0)
  {
    if gone > id {
      assert NewerThan(ids - {gone}, id) == NewerThan(ids, id) - {gone};
    } else {
      assert NewerThan(ids - {gone}, id) == NewerThan(ids, id);
    }
  }

  lemma LowerRank(ids: set<nat>, high: nat, low: nat)
    requires high in ids && low < high
    ensures |NewerThan(ids, low)| > |NewerThan(ids, high)|
  {
    assert high in NewerThan(ids, low) && high !in NewerThan(ids, high);
    SmallerSet(NewerThan(ids, high), NewerThan(ids, low));
  }

  /** Without an id that is not among the newest, the newest are the same. */
  lemma NewestWithout(ids: set<nat>, n: nat, gone: nat, id: nat)
    requires !AmongNewest(ids, gone, n) && id != gone
    ensures AmongNewest(ids - {gone}, id, n) <==> AmongNewest(ids, id, n)
  {
    if gone in ids {
      RankWithout(ids, gone, id);
      if gone > id {
        LowerRank(ids, gone, id);
      }
    } else {
      assert ids - {gone} == ids;
    }
  }

  lemma RoomWithout(published: set<nat>, protected: set<nat>, gone: nat)
    requires gone !in protected
    ensures Room(published - {gone}, protected) == Room(published, protected)
  {
    assert (published - {gone}) * protected == published * protected;
  }

  lemma CandidatesWithout(published: set<nat>, protected: set<nat>, now: nat, gone: nat)
    ensures Candidates(published - {gone}, protected, now) == Candidates(published, protected, now) - {gone}
  {
  }

  /** Removing a doomed snapshot does not change who survives. */
  lemma DoomedDoNotMatter(published: set<nat>, protected: set<nat>, now: nat, gone: nat)
    requires gone in published && !Survives(published, protected, now, gone)
    ensures Survivors(published - {gone}, protected, now) == Survivors(published, protected, now)
  {
    RoomWithout(published, protected, gone);
    CandidatesWithout(published, protected, now, gone);
    forall id | id != gone
      ensures Survives(published - {gone}, protected, now, id) <==> Survives(published, protected, now, id)
    {
      NewestWithout(Candidates(published, protected, now), Room(published, protected), gone, id);
    }
  }

  /** The doomed of an earlier time are doomed at any later one: only the oldest stop being young. */
  lemma DoomedStayDoomed(published: set<nat>, protected: set<nat>, now: nat, later: nat, id: nat)
    requires now <= later && id in published && !Survives(published, protected, now, id)
    ensures !Survives(published, protected, later, id)
  {
    var early, late := Candidates(published, protected, now), Candidates(published, protected, later);
    assert late <= early;
    if id in late {
      forall other | other in NewerThan(early, id) ensures other in NewerThan(late, id) {
        TimestampsFollowIds(id, other);
      }
      assert NewerThan(late, id) == NewerThan(early, id);
    }
  }

  function Newest(ids: set<nat>, n: nat): set<nat> {
    set id | id in ids && AmongNewest(ids, id, n)
  }

  /** The newest are the greatest one and, of the rest, one fewer. */
  lemma NewestBesideTop(ids: set<nat>, n: nat, top: nat)
    requires n > 0 && top in ids && forall id :: id in ids ==> id <= top
    ensures Newest(ids, n) == Newest(ids - {top}, n - 1) + {top}
  {
    assert NewerThan(ids, top) == {};
    forall id | id in ids && id != top ensures id in Newest(ids, n) <==> id in Newest(ids - {top}, n - 1) {
      RankWithout(ids, top, id);
    }
  }

  lemma OneMore(ids: set<nat>, id: nat)
    requires id !in ids
    ensures |ids + {id}| == |ids| + 1
  {
  }

  lemma NoneNewest(ids: set<nat>, n: nat)
    requires ids == {} || n == 0
    ensures Newest(ids, n) == {}
  {
  }

  lemma OneMoreNewest(ids: set<nat>, n: nat, top: nat)
    requires n > 0 && top in ids && forall id :: id in ids ==> id <= top
    requires |Newest(ids - {top}, n - 1)| == if |ids - {top}| < n - 1 then |ids - {top}| else n - 1
    ensures |Newest(ids, n)| == if |ids| < n then |ids| else n
  {
    var rest := ids - {top};
    assert ids == rest + {top};
    OneMore(rest, top);
    NewestBesideTop(ids, n, top);
    OneMore(Newest(rest, n - 1), top);
  }

  /** There are n newest, or all if there are fewer. */
  lemma {:induction false} NewestAreFew(ids: set<nat>, n: nat)
    ensures |Newest(ids, n)| == if |ids| < n then |ids| else n
    decreases |ids|
  {
    if ids == {} || n == 0 {
      NoneNewest(ids, n);
    } else {
      var top := Greatest(ids);
      OneMore(ids - {top}, top);
      assert ids == (ids - {top}) + {top};
      NewestAreFew(ids - {top}, n - 1);
      OneMoreNewest(ids, n, top);
    }
  }

  lemma {:induction false} Greatest(ids: set<nat>) returns (top: nat)
    requires ids != {}
    ensures top in ids && forall id :: id in ids ==> id <= top
    decreases ids
  {
    var any :| any in ids;
    top := any;
    if exists id :: id in ids && id > any {
      var larger :| larger in ids && larger > any;
      var rest := set id | id in ids && id > any;
      assert larger in rest && any !in rest;
      top := Greatest(rest);
      assert top in rest;
      forall id | id in ids ensures id <= top {
        if id > any {
          assert id in rest;
        }
      }
    }
  }

  /** The protected and, up to five in all, as many of the young ones as there are. */
  lemma SurvivorsAreFew(published: set<nat>, protected: set<nat>, now: nat)
    ensures |Survivors(published, protected, now)| ==
            var kept := |published * protected|;
            var all := kept + |Candidates(published, protected, now)|;
            if kept >= 5 || all <= 5 then (if kept >= 5 then kept else all) else 5
  {
    var candidates, room := Candidates(published, protected, now), Room(published, protected);
    var newest := Newest(candidates, room);
    NewestAreFew(candidates, room);
    assert Survivors(published, protected, now) == published * protected + newest;
    assert (published * protected) !! newest;
  }

  /** Whatever survives unprotected carries a time at most two days ago. */
  lemma SurvivorsAreYoung(published: set<nat>, protected: set<nat>, now: nat, id: nat)
    requires id in Survivors(published, protected, now) && id !in protected
    ensures now <= id / RANDOM_BITS + 2 * 24 * 60 * 60 * 1000
  {
  }

  /** A young one is dropped only for five others that are protected or newer. */
  lemma DroppedForFiveOthers(published: set<nat>, protected: set<nat>, now: nat, id: nat)
    requires id in published && id !in Survivors(published, protected, now)
    requires now <= id / RANDOM_BITS + 2 * 24 * 60 * 60 * 1000
    ensures |set other | other in published && (other in protected || other > id)| >= 5
  {
    var candidates := Candidates(published, protected, now);
    var better := set other | other in published && (other in protected || other > id);
    assert published * protected !! NewerThan(candidates, id);
    SmallerSet(published * protected + NewerThan(candidates, id), better);
  }

  lemma {:induction false} NoneOfTheDoomedMatter(published: set<nat>, gone: set<nat>, protected: set<nat>, now: nat)
    requires gone <= published && gone !! Survivors(published, protected, now)
    ensures Survivors(published - gone, protected, now) == Survivors(published, protected, now)
    decreases gone
  {
    if gone == {} {
      assert published - gone == published;
    } else {
      var id :| id in gone;
      assert id !in Survivors(published, protected, now);
      DoomedDoNotMatter(published, protected, now, id);
      NoneOfTheDoomedMatter(published - {id}, gone - {id}, protected, now);
      assert published - gone == (published - {id}) - (gone - {id});
    }
  }

  /** What survives once survives again. */
  lemma SurvivorsSurvive(published: set<nat>, protected: set<nat>, now: nat)
    ensures Survivors(Survivors(published, protected, now), protected, now) == Survivors(published, protected, now)
  {
    var survivors := Survivors(published, protected, now);
    NoneOfTheDoomedMatter(published, published - survivors, protected, now);
    assert published - (published - survivors) == survivors;
  }

  // ---------------------------------------------------------------- the sort and the slice

  ghost predicate Decreasing(ids: seq<nat>) {
    forall i, j :: 0 <= i < j < |ids| ==> ids[i] > ids[j]
  }

  function Insert(id: nat, sorted: seq<nat>): (r: seq<nat>)
    ensures forall x :: x in r <==> x == id || x in sorted
    ensures |r| == |sorted| + 1
  {
    if sorted == [] then [id]
    else if sorted[0] > id then [sorted[0]] + Insert(id, sorted[1..])
    else [id] + sorted
  }

  function NewestFirst(ids: seq<nat>): (r: seq<nat>)
    ensures forall x :: x in r <==> x in ids
    ensures |r| == |ids|
  {
    if ids == [] then [] else Insert(ids[0], NewestFirst(ids[1..]))
  }

  lemma {:induction false} InsertKeepsDecreasing(id: nat, sorted: seq<nat>)
    requires Decreasing(sorted) && id !in sorted
    ensures Decreasing(Insert(id, sorted))
  {
    if sorted != [] && sorted[0] > id {
      InsertKeepsDecreasing(id, sorted[1..]);
      var rest := Insert(id, sorted[1..]);
      forall j | 0 <= j < |rest| ensures sorted[0] > rest[j] {
        assert rest[j] in rest;
      }
    }
  }

  ghost predicate NoRepeats(ids: seq<nat>) {
    forall i, j :: 0 <= i < j < |ids| ==> ids[i] != ids[j]
  }

  lemma {:induction false} NewestFirstIsDecreasing(ids: seq<nat>)
    requires NoRepeats(ids)
    ensures Decreasing(NewestFirst(ids))
  {
    if ids != [] {
      NewestFirstIsDecreasing(ids[1..]);
      InsertKeepsDecreasing(ids[0], NewestFirst(ids[1..]));
    }
  }

  function Elements(ids: seq<nat>): set<nat> {
    set id | id in ids
  }

  /** In a decreasing sequence the first n are those with fewer than n newer ones. */
  lemma {:induction false} SliceIsNewest(ids: seq<nat>, n: nat, id: nat)
    requires Decreasing(ids)
    ensures id in ids[..if n <= |ids| then n else |ids|] <==> AmongNewest(Elements(ids), id, n)
  {
    if id in ids {
      var k :| 0 <= k < |ids| && ids[k] == id;
      PrefixIsNewer(ids, k);
      PrefixCount(ids[..k]);
    }
  }

  lemma PrefixIsNewer(ids: seq<nat>, k: nat)
    requires Decreasing(ids) && k < |ids|
    ensures NewerThan(Elements(ids), ids[k]) == Elements(ids[..k])
  {
    forall other | other in NewerThan(Elements(ids), ids[k]) ensures other in Elements(ids[..k]) {
      var m :| 0 <= m < |ids| && ids[m] == other;
      assert m < k;
      assert ids[..k][m] == other;
    }
  }

  lemma {:induction false} PrefixCount(ids: seq<nat>)
    requires Decreasing(ids)
    ensures |Elements(ids)| == |ids|
  {
    if ids != [] {
      var n := |ids| - 1;
      PrefixCount(ids[..n]);
      assert Elements(ids) == Elements(ids[..n]) + {ids[n]};
    }
  }

  /** What a filter over the sorted identities has gathered so far. */
  ghost predicate Gathered(front: seq<nat>, protected: set<nat>, now: nat, count: nat, young: seq<nat>) {
    && count == |Elements(front) * protected|
    && Decreasing(young)
    && Elements(young) == Candidates(Elements(front), protected, now)
  }

  lemma ElementsOfAppend(front: seq<nat>, id: nat)
    requires Decreasing(front + [id])
    ensures Elements(front + [id]) == Elements(front) + {id} && id !in Elements(front)
    ensures forall other :: other in Elements(front) ==> other > id
  {
    forall other | other in Elements(front) ensures other > id {
      var k :| 0 <= k < |front| && front[k] == other;
      assert (front + [id])[k] > (front + [id])[|front|];
    }
    forall other | other in Elements(front) + {id} ensures other in Elements(front + [id]) {
      if other in front {
        var k :| 0 <= k < |front| && front[k] == other;
        assert (front + [id])[k] == other;
      } else {
        assert (front + [id])[|front|] == other;
      }
    }
  }

  lemma CountOne(elements: set<nat>, protected: set<nat>, id: nat)
    requires id !in elements
    ensures |(elements + {id}) * protected| == |elements * protected| + (if id in protected then 1 else 0)
  {
    if id in protected {
      assert (elements + {id}) * protected == elements * protected + {id};
    } else {
      assert (elements + {id}) * protected == elements * protected;
    }
  }

  lemma YoungOne(elements: set<nat>, protected: set<nat>, now: nat, young: seq<nat>, id: nat)
    requires Decreasing(young) && Elements(young) == Candidates(elements, protected, now)
    requires forall other :: other in elements ==> other > id
    ensures var next := if id in protected || !Young(id, now) then young else young + [id];
      Decreasing(next) && Elements(next) == Candidates(elements + {id}, protected, now)
  {
    if id !in protected && Young(id, now) {
      forall k | 0 <= k < |young| ensures young[k] > id {
        assert young[k] in Elements(young);
      }
      ElementsOfAppend(young, id);
    }
  }

  lemma GatherOne(front: seq<nat>, id: nat, protected: set<nat>, now: nat, count: nat, young: seq<nat>)
    requires Decreasing(front + [id]) && Gathered(front, protected, now, count, young)
    ensures Gathered(front + [id], protected, now, count + (if id in protected then 1 else 0),
                     if id in protected || !Young(id, now) then young else young + [id])
  {
    ElementsOfAppend(front, id);
    CountOne(Elements(front), protected, id);
    YoungOne(Elements(front), protected, now, young, id);
  }

  lemma SliceSurvives(published: set<nat>, protected: set<nat>, now: nat, young: seq<nat>, id: nat)
    requires Decreasing(young) && Elements(young) == Candidates(published, protected, now)
    ensures var room := Room(published, protected);
      Survives(published, protected, now, id) <==>
      (id in protected || id in young[..if room <= |young| then room else |young|])
  {
    SliceIsNewest(young, Room(published, protected), id);
  }

  /** Counts the protected and filters the young unprotected, newest first. */
  method Gather(sorted: seq<nat>, protected: set<nat>, now: nat) returns (protectedCount: nat, young: seq<nat>)
    requires Decreasing(sorted)
    ensures Gathered(sorted, protected, now, protectedCount, young)
  {
    protectedCount, young := 0, [];
    for i := 0 to |sorted|
      invariant Gathered(sorted[..i], protected, now, protectedCount, young)
    {
      var id := sorted[i];
      assert sorted[..i + 1] == sorted[..i] + [id];
      GatherOne(sorted[..i], id, protected, now, protectedCount, young);
      protectedCount := protectedCount + (if id in protected then 1 else 0);
      if id !in protected && Young(id, now) {
        young := young + [id];
      }
    }
    assert sorted[..|sorted|] == sorted;
  }

  /** The selection as it is computed: sort, filter, slice. */
  method KeptUnprotected(published: seq<nat>, protected: set<nat>, now: nat) returns (kept: set<nat>)
    requires NoRepeats(published)
    ensures forall id :: id in protected || id in kept <==> Survives(Elements(published), protected, now, id)
  {
    var sorted := NewestFirst(published);
    NewestFirstIsDecreasing(published);
    assert Elements(sorted) == Elements(published);
    var protectedCount, young := Gather(sorted, protected, now);
    var room := if protectedCount >= RETENTION_MAXIMUM then 0 else RETENTION_MAXIMUM - protectedCount;
    kept := Elements(young[..if room <= |young| then room else |young|]);
    forall id { SliceSurvives(Elements(published), protected, now, young, id); }
  }
}
