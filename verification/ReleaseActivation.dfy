/**
 The cutover itself: journal, stop, snapshot, candidate, promotion, checks, commit, and what
 the catch block makes of a failure anywhere in between.
 */
module ReleaseActivation {
  import opened Outcomes
  import opened ActivationRecords
  import opened ActivationProtocol
  import opened ActivationRecovery
  import opened ActivationRuns
  import opened ProductionHost
  import opened SnapshotRetention

  function ReleaseIds(references: seq<Artifact>): set<nat> {
    set r | r in references :: r.releaseId
  }

  function RuntimeRevisions(references: seq<Artifact>): set<nat> {
    set r | r in references :: r.runtimeRevision
  }

  /** Keeps the first reference to every release. */
  function DistinctReleases(references: seq<Artifact>): (distinct: seq<Artifact>)
    ensures ReleaseIds(distinct) == ReleaseIds(references)
    ensures forall r :: r in distinct ==> r in references
    ensures forall i, j :: 0 <= i < j < |distinct| ==> distinct[i].releaseId != distinct[j].releaseId
  {
    if references == [] then []
    else
      var last := references[|references| - 1];
      var rest := DistinctReleases(references[..|references| - 1]);
      assert references == references[..|references| - 1] + [last];
      assert ReleaseIds(references) == ReleaseIds(references[..|references| - 1]) + {last.releaseId};
      assert last in rest + [last] && forall r :: r in rest ==> r in rest + [last];
      assert ReleaseIds(rest + [last]) == ReleaseIds(rest) + {last.releaseId};
      if last.releaseId in ReleaseIds(rest) then rest else rest + [last]
  }

  /** No earlier reference names its release. */
  predicate IsFirst(references: seq<Artifact>, r: Artifact) {
    exists i :: 0 <= i < |references| && references[i] == r && r.releaseId !in ReleaseIds(references[..i])
  }

  /** What is kept of several references to one release is the first, so the record's runtime is the one checked. */
  lemma {:induction false} FirstReferencesAreKept(references: seq<Artifact>, r: Artifact)
    requires r in DistinctReleases(references)
    ensures IsFirst(references, r)
  {
    var n := |references| - 1;
    var front := references[..n];
    if r in DistinctReleases(front) {
      FirstReferencesAreKept(front, r);
      var i :| 0 <= i < |front| && front[i] == r && r.releaseId !in ReleaseIds(front[..i]);
      assert references[i] == r && references[..i] == front[..i];
    } else {
      assert references[n] == r && r.releaseId !in ReleaseIds(references[..n]);
    }
  }

  function ActivationReferences(record: Option<ActivationRecord>, candidate: Option<Artifact>): seq<Artifact> {
    DistinctReleases(
      (if record.Some? then [record.value.current] else []) +
      (if record.Some? && record.value.previous.Some? then [record.value.previous.value.artifact] else []) +
      (if candidate.Some? then [candidate.value] else []))
  }

  lemma ReferencesCoverRecord(record: Option<ActivationRecord>, candidate: Option<Artifact>)
    ensures ReleaseIds(ActivationReferences(record, candidate)) ==
            ReleaseReferences(record) + (if candidate.Some? then {candidate.value.releaseId} else {})
  {
    var all := (if record.Some? then [record.value.current] else []) +
               (if record.Some? && record.value.previous.Some? then [record.value.previous.value.artifact] else []) +
               (if candidate.Some? then [candidate.value] else []);
    if record.Some? {
      assert record.value.current in all;
      if record.value.previous.Some? {
        assert record.value.previous.value.artifact in all;
      }
    }
    if candidate.Some? {
      assert candidate.value in all;
    }
  }

  /** Every snapshot the record refers to is still there with its data. */
  predicate ReferencedStay(before: Disk, after: Disk) {
    forall id :: id in SnapshotReferences(Record(before)) && id in before.snapshots ==>
      id in after.snapshots && after.snapshots[id] == before.snapshots[id]
  }

  /** Snapshots the record refers to are kept, and beside them what snapshot retention keeps at some time. */
  method RetainSnapshots(host: Host, record: Option<ActivationRecord>) returns (ok: bool)
    requires host.Valid() && host.disk.journal.None? && record == Record(host.disk)
    modifies host
    ensures host.Valid() && host.Extends(old(host.states), old(host.steps))
    ensures Complete(old(host.disk)) ==> Complete(host.disk)
    ensures host.calm && old(host.alive) ==> host.alive
    ensures host.disk == old(host.disk).(snapshots := host.disk.snapshots)
    ensures host.disk.snapshots.Keys <= old(host.disk).snapshots.Keys
    ensures ReferencedStay(old(host.disk), host.disk)
    ensures ok ==> host.alive && SnapshotsRetained(old(host.disk), host.disk)
    ensures host.calm && old(host.alive) ==> ok
  {
    ok := host.Depend();
    if !ok { return; }
    var now: nat :| now >= 0;
    var published := host.disk.snapshots.Keys;
    ok := RemoveSnapshots(host, published - Survivors(published, SnapshotReferences(record), now));
    if ok {
      RemainingSurvive(old(host.disk).snapshots.Keys, SnapshotReferences(record), now);
      assert RetainedAt(old(host.disk), host.disk, now);
    }
  }

  /** Exactly the survivors of a retention at that time are left. */
  predicate RetainedAt(before: Disk, after: Disk, now: nat) {
    after.snapshots.Keys == Survivors(before.snapshots.Keys, SnapshotReferences(Record(before)), now)
  }

  ghost predicate SnapshotsRetained(before: Disk, after: Disk) {
    exists now: nat :: RetainedAt(before, after, now)
  }

  lemma RemainingSurvive(published: set<nat>, protected: set<nat>, now: nat)
    ensures published - (published - Survivors(published, protected, now)) == Survivors(published, protected, now)
  {
  }

  method RemoveSnapshots(host: Host, doomed: set<nat>) returns (ok: bool)
    requires host.Valid() && host.disk.journal.None? && host.alive
    requires doomed !! SnapshotReferences(Record(host.disk))
    modifies host
    ensures host.Valid() && host.Extends(old(host.states), old(host.steps))
    ensures Complete(old(host.disk)) ==> Complete(host.disk)
    ensures host.disk == old(host.disk).(snapshots := host.disk.snapshots)
    ensures host.disk.snapshots.Keys <= old(host.disk).snapshots.Keys
    ensures ReferencedStay(old(host.disk), host.disk)
    ensures ok ==> host.alive && host.disk.snapshots.Keys == old(host.disk).snapshots.Keys - doomed
    ensures host.calm ==> ok && host.alive
  {
    var todo := doomed;
    while todo != {}
      invariant host.Valid() && host.Extends(old(host.states), old(host.steps)) && host.alive
      invariant host.disk == old(host.disk).(snapshots := host.disk.snapshots)
      invariant todo <= doomed && host.disk.snapshots.Keys == old(host.disk).snapshots.Keys - (doomed - todo)
      invariant ReferencedStay(old(host.disk), host.disk)
    {
      var id :| id in todo;
      todo := todo - {id};
      ok := host.Perform(RemoveSnapshot(id));
      if !ok { return; }
    }
    ok := true;
  }

  /** The two collectors touch nothing else, and spare the snapshots of the record. */
  predicate OnlyCollected(a: Disk, b: Disk) {
    && b == a.(snapshots := b.snapshots, releases := b.releases, runtimes := b.runtimes)
    && b.snapshots.Keys <= a.snapshots.Keys && ReferencedStay(a, b)
  }

  predicate OnlyArtifacts(a: Disk, b: Disk) {
    b == a.(releases := b.releases, runtimes := b.runtimes)
  }

  ghost predicate AllPublished(d: Disk, references: seq<Artifact>) {
    forall r :: r in references ==> Published(d, r)
  }

  method RemoveReleases(host: Host, references: seq<Artifact>) returns (ok: bool)
    requires host.Valid() && host.disk.journal.None? && host.alive
    requires ReleaseReferences(Record(host.disk)) <= ReleaseIds(references) && AllPublished(host.disk, references)
    modifies host
    ensures host.Valid() && host.Extends(old(host.states), old(host.steps))
    ensures Complete(old(host.disk)) ==> Complete(host.disk)
    ensures host.calm && old(host.alive) ==> host.alive
    ensures OnlyArtifacts(old(host.disk), host.disk) && AllPublished(host.disk, references)
    ensures ok ==> host.alive && host.disk.releases.Keys <= ReleaseIds(references)
    ensures host.calm ==> ok
  {
    var remaining := host.disk.releases.Keys;
    while remaining != {}
      invariant host.Valid() && host.Extends(old(host.states), old(host.steps)) && host.alive
      invariant OnlyArtifacts(old(host.disk), host.disk) && AllPublished(host.disk, references)
      invariant Complete(old(host.disk)) ==> Complete(host.disk)
      invariant host.disk.releases.Keys <= remaining + ReleaseIds(references)
    {
      var id :| id in remaining;
      remaining := remaining - {id};
      if id !in ReleaseIds(references) {
        ok := host.Perform(RemoveRelease(id));
        if !ok { return; }
      }
    }
    ok := true;
  }

  method RemoveRuntimes(host: Host, references: seq<Artifact>) returns (ok: bool)
    requires host.Valid() && host.disk.journal.None? && host.alive
    requires ReleaseReferences(Record(host.disk)) <= ReleaseIds(references) && AllPublished(host.disk, references)
    requires host.disk.releases.Keys <= ReleaseIds(references)
    modifies host
    ensures host.Valid() && host.Extends(old(host.states), old(host.steps))
    ensures Complete(old(host.disk)) ==> Complete(host.disk)
    ensures host.calm && old(host.alive) ==> host.alive
    ensures OnlyArtifacts(old(host.disk), host.disk) && AllPublished(host.disk, references)
    ensures host.disk.releases == old(host.disk).releases
    ensures ok ==> host.alive && host.disk.runtimes <= RuntimeRevisions(references)
    ensures host.calm ==> ok
  {
    RuntimesAreReferenced(host.disk, references);
    RemainingAreComplete(host.disk, references);
    var remaining := host.disk.runtimes;
    while remaining != {}
      invariant host.Valid() && host.Extends(old(host.states), old(host.steps)) && host.alive
      invariant OnlyArtifacts(old(host.disk), host.disk) && AllPublished(host.disk, references)
      invariant host.disk.releases == old(host.disk).releases && Complete(host.disk)
      invariant host.disk.runtimes <= remaining + RuntimeRevisions(references)
    {
      var revision :| revision in remaining;
      remaining := remaining - {revision};
      if revision !in RuntimeRevisions(references) {
        ok := host.Perform(RemoveRuntime(revision));
        if !ok { return; }
      }
    }
    ok := true;
  }

  /** Nothing is removed unless every reference verifies; then every unreferenced entry goes. */
  method RetainArtifacts(host: Host, references: seq<Artifact>) returns (ok: bool)
    requires host.Valid() && host.disk.journal.None?
    requires ReleaseReferences(Record(host.disk)) <= ReleaseIds(references)
    modifies host
    ensures host.Valid() && host.Extends(old(host.states), old(host.steps))
    ensures Complete(old(host.disk)) ==> Complete(host.disk)
    ensures host.calm && old(host.alive) ==> host.alive
    ensures OnlyArtifacts(old(host.disk), host.disk)
    ensures ok ==> host.alive && AllPublished(host.disk, references)
    ensures ok ==> host.disk.releases.Keys == ReleaseIds(references)
    ensures ok ==> host.disk.runtimes == RuntimeRevisions(references)
    ensures !AllPublished(old(host.disk), references) || !Complete(old(host.disk)) ==>
              !ok && host.disk == old(host.disk)
    ensures host.calm && old(host.alive) ==>
              (ok <==> AllPublished(old(host.disk), references) && Complete(old(host.disk)))
  {
    ok := host.Depend();
    if !ok || (exists r :: r in references && !Published(host.disk, r)) || !Complete(host.disk) { return false; }
    ok := RemoveReleases(host, references);
    if !ok { return; }
    ok := RemoveRuntimes(host, references);
  }

  /** Releases that are all referenced have all their runtimes. */
  lemma RemainingAreComplete(d: Disk, references: seq<Artifact>)
    requires AllPublished(d, references) && d.releases.Keys <= ReleaseIds(references)
    ensures forall id :: id in d.releases ==> d.releases[id] in RuntimeRevisions(references)
    ensures Complete(d)
  {
    forall id | id in d.releases
      ensures d.releases[id] in RuntimeRevisions(references) && d.releases[id] in d.runtimes
    {
      var r :| r in references && r.releaseId == id;
    }
  }

  /** A published artifact whose release is referenced stays published. */
  lemma KeptArePublished(before: Disk, after: Disk, references: seq<Artifact>, artifacts: seq<Artifact>)
    requires AllPublished(before, references) && AllPublished(before, artifacts) && AllPublished(after, references)
    requires ReleaseIds(artifacts) <= ReleaseIds(references)
    ensures AllPublished(after, artifacts)
  {
    forall a | a in artifacts ensures Published(after, a) {
      assert a.releaseId in ReleaseIds(artifacts);
      var kept :| kept in references && kept.releaseId == a.releaseId;
      assert kept == a;
    }
  }

  /** What the record refers to is published, and so is a candidate that verifies. */
  lemma ReferencesArePublished(d: Disk, candidate: Option<Artifact>)
    requires Invariant(d) && (candidate.Some? ==> Published(d, candidate.value))
    ensures AllPublished(d, ActivationReferences(Record(d), candidate))
  {
  }

  /** References to just the record's releases are references to just their runtimes. */
  lemma CollectedRuntimes(d: Disk, references: seq<Artifact>)
    requires Invariant(d) && AllPublished(d, references) && ReleaseIds(references) == ReleaseReferences(Record(d))
    ensures RuntimeRevisions(references) == RuntimeReferences(Record(d))
  {
    RuntimesAreReferenced(d, references);
    forall r | r in references ensures r.runtimeRevision in RuntimeReferences(Record(d)) {
      assert r.releaseId in ReleaseIds(references);
    }
  }

  /** A verified reference to a release is a reference to that release's runtime. */
  lemma RuntimesAreReferenced(d: Disk, references: seq<Artifact>)
    requires Invariant(d) && ReleaseReferences(Record(d)) <= ReleaseIds(references)
    requires AllPublished(d, references)
    ensures RuntimeReferences(Record(d)) <= RuntimeRevisions(references)
  {
    if Record(d).Some? {
      var record := Record(d).value;
      assert record.current.releaseId in ReleaseIds(references);
      var c :| c in references && c.releaseId == record.current.releaseId;
      if record.previous.Some? {
        assert record.previous.value.artifact.releaseId in ReleaseIds(references);
        var p :| p in references && p.releaseId == record.previous.value.artifact.releaseId;
      }
    }
  }

  /**
   Exactly the current and the previous release are left with their runtimes, and of the snapshots
   those that retention keeps at some time, at most five.
   */
  ghost predicate Collected(before: Disk, after: Disk) {
    && ArtifactsCollected(after)
    && SnapshotsRetained(before, after) && |after.snapshots| <= 5
  }

  /** What every collection leaves, whatever there was before it. */
  predicate Tidy(d: Disk) {
    ArtifactsCollected(d) && |d.snapshots| <= 5
  }

  predicate ArtifactsCollected(d: Disk) {
    d.releases.Keys == ReleaseReferences(Record(d)) && d.runtimes == RuntimeReferences(Record(d))
  }

  predicate SameHoldings(a: Disk, b: Disk) {
    a.activation == b.activation && a.snapshots == b.snapshots && a.releases == b.releases && a.runtimes == b.runtimes
  }

  /** What leaves record, snapshots and artifacts alone makes no difference before or after a collection. */
  lemma SameCollection(before: Disk, start: Disk, end: Disk, after: Disk)
    requires Collected(start, end) && SameHoldings(before, start) && SameHoldings(end, after)
    ensures Collected(before, after)
  {
    var now :| RetainedAt(start, end, now);
    assert RetainedAt(before, after, now);
  }

  lemma FewAreRetained(before: Disk, after: Disk)
    requires SnapshotsRetained(before, after)
    ensures |after.snapshots| <= 5
  {
    var now :| RetainedAt(before, after, now);
    var protected := SnapshotReferences(Record(before));
    SurvivorsAreFew(before.snapshots.Keys, protected, now);
    ReferencesAreTwo(Record(before));
    SmallerSet(before.snapshots.Keys * protected, protected);
    assert |after.snapshots| == |after.snapshots.Keys|;
  }

  lemma ReferencesAreTwo(record: Option<ActivationRecord>)
    ensures |SnapshotReferences(record)| <= 2
  {
    if record.Some? && record.value.previous.Some? {
      assert SnapshotReferences(record) == {record.value.transitionId, record.value.previous.value.snapshotId};
    }
  }

  /** Both collectors, as every successful return and every reconciled failure runs them. */
  method Retain(host: Host) returns (ok: bool)
    requires host.Valid() && host.disk.journal.None?
    modifies host
    ensures host.Valid() && host.Extends(old(host.states), old(host.steps))
    ensures Complete(old(host.disk)) ==> Complete(host.disk)
    ensures host.calm && old(host.alive) ==> host.alive
    ensures host.disk == old(host.disk).(snapshots := host.disk.snapshots, releases := host.disk.releases,
                                         runtimes := host.disk.runtimes)
    ensures ok ==> host.alive && Collected(old(host.disk), host.disk)
    ensures host.calm && old(host.alive) && Complete(old(host.disk)) ==> ok
  {
    var record := Record(host.disk);
    ok := RetainSnapshots(host, record);
    if !ok { return; }
    FewAreRetained(old(host.disk), host.disk);
    ghost var now :| RetainedAt(old(host.disk), host.disk, now);
    ok := RetainRecordArtifacts(host);
    assert RetainedAt(old(host.disk), host.disk, now);
  }

  // ---------------------------------------------------------------- the cutover

  /** The two records and the one journal a cutover from `record` can leave on disk. */
  predicate DuringCutover(d: Disk, record: Option<ActivationRecord>, id: nat, candidate: Artifact) {
    && CurrentOf(record) != Some(candidate)
    && (Record(d) == record || Record(d) == Some(NextRecord(id, record, candidate)))
    && (d.journal.Some? ==>
          && d.journal.value.transitionId == id && d.journal.value.candidate == candidate
          && d.journal.value.previousActivation == record)
  }

  /** Makes the intent durable, then stops the services. */
  method BeginTransition(host: Host, journal: Journal) returns (ok: bool, written: Option<Journal>)
    requires host.Valid() && Enabled(host.disk, CreateJournal(journal))
    modifies host
    ensures host.Valid() && host.Extends(old(host.states), old(host.steps))
    ensures Complete(old(host.disk)) ==> Complete(host.disk)
    ensures host.calm && old(host.alive) ==> host.alive
    ensures host.disk.activation == old(host.disk).activation && host.disk.snapshots == old(host.disk).snapshots
    ensures host.disk.journal == Some(journal) || (host.disk.journal.None? && written.None?)
    ensures ok ==> host.alive && written == Some(journal) && host.disk.journal == written && host.disk.running.None?
    ensures written.None? || written == Some(journal)
    ensures host.calm ==> host.disk.live == old(host.disk).live
    ensures host.calm && old(host.alive) ==> ok && host.disk.workspaces == old(host.disk).workspaces
  {
    written := None;
    ok := host.Perform(CreateJournal(journal));
    if !ok { return; }
    written := Some(journal);
    ok := host.Depend();
    if !ok { return; }
    ok := host.StopServices();
    if !ok { return; }
    ok := host.Depend();
  }

  predicate SnapshotsStay(before: Disk, after: Disk) {
    forall id :: id in before.snapshots ==> id in after.snapshots && after.snapshots[id] == before.snapshots[id]
  }

  /** The stopped database, recorded with the identity it has after the snapshot was taken. */
  method SnapshotPrevious(host: Host, j: Journal) returns (ok: bool, previousDatabase: PreviousDatabase)
    requires host.Valid() && host.disk.journal == Some(j) && j.phase.ServiceStopRequested?
    requires host.disk.running.None?
    modifies host
    ensures host.Valid() && host.Extends(old(host.states), old(host.steps))
    ensures Complete(old(host.disk)) ==> Complete(host.disk)
    ensures host.calm && old(host.alive) ==> host.alive
    ensures host.disk.activation == old(host.disk).activation && host.disk.journal == Some(j)
    ensures ok ==> host.alive && SnapshotsStay(old(host.disk), host.disk)
    ensures ok ==> Enabled(host.disk, AdvanceJournal(j.(phase := Prepared, previousDatabase := previousDatabase)))
    ensures ok ==> host.disk.running.None? && host.disk.workspaces == old(host.disk).workspaces
    ensures ok && old(host.disk).live.Some? ==>
              previousDatabase.Present? && previousDatabase.manifest == old(host.disk).live.value.image
    ensures host.calm && old(host.alive) && j.transitionId !in old(host.disk).snapshots ==> ok
  {
    previousDatabase := Absent;
    var id := j.transitionId;
    if j.previousActivation.None? {
      ok := host.Depend();
      if host.disk.live.Some? {
        ok := false;
      }
      return;
    }
    // The previous release's maintenance process snapshots the schema it owns.
    ok := host.LoadArtifacts(j.previousActivation.value.current);
    if !ok || id in host.disk.snapshots || host.disk.live.None? { return false, Absent; }
    ok := host.Perform(TakeSnapshot(id));
    if !ok {
      var cleans: bool := *;
      if cleans && id !in SnapshotReferences(Record(host.disk)) {
        var removed := host.Perform(RemoveSnapshot(id));
      }
      return;
    }
    previousDatabase := Present(host.disk.snapshots[id], host.disk.live.value.identity);
  }

  /** Journal, stop and snapshot; `written` is the journal the process knows it wrote. */
  method StopAndSnapshot(host: Host, record: Option<ActivationRecord>, id: nat, candidate: Artifact)
    returns (ok: bool, written: Option<Journal>)
    requires host.Valid() && host.disk.journal.None? && Record(host.disk) == record
    requires CurrentOf(record) != Some(candidate) && Published(host.disk, candidate)
    modifies host
    ensures host.Valid() && host.Extends(old(host.states), old(host.steps))
    ensures Complete(old(host.disk)) ==> Complete(host.disk)
    ensures host.calm && old(host.alive) ==> host.alive
    ensures DuringCutover(host.disk, record, id, candidate) && host.disk.activation == old(host.disk).activation
    ensures ok ==> SnapshotsStay(old(host.disk), host.disk)
    ensures written.None? && host.disk.journal.Some? ==> host.disk.journal.value.phase.ServiceStopRequested?
    ensures ok ==> host.alive && written.Some? && host.disk.journal == written && written.value.phase.Prepared?
    ensures ok ==> host.disk.running.None? && PreviousStillLive(host.disk, written.value)
    ensures host.calm && ok && old(host.disk).live.Some? ==>
              written.value.previousDatabase.Present? &&
              written.value.previousDatabase.manifest == old(host.disk).live.value.image
    ensures host.calm && old(host.alive) && id !in old(host.disk).snapshots ==>
              ok && host.disk.workspaces == old(host.disk).workspaces
  {
    var journal := JournalFor(id, record, candidate);
    ok, written := BeginTransition(host, journal);
    if !ok { return; }
    var previousDatabase;
    ok, previousDatabase := SnapshotPrevious(host, journal);
    if !ok { return; }
    var prepared := journal.(phase := Prepared, previousDatabase := previousDatabase);
    ok := host.MarkJournal(journal, prepared);
    if ok {
      written := Some(prepared);
    }
  }

  /** The candidate directory holds exactly the recorded database, or nothing where there was none. */
  predicate HoldsRecorded(d: Disk, j: Journal) {
    && HasCandidateDirectory(d, j.transitionId)
    && var database := d.workspaces[j.transitionId].database;
       match j.previousDatabase
       case Unrecorded => false
       case Absent => database.None?
       case Present(manifest, _) => database.Some? && database.value.image == manifest
  }

  /** A retained snapshot of the candidate release. */
  predicate IsTarget(d: Disk, candidate: Artifact, target: nat) {
    target in d.snapshots && d.snapshots[target].owner.releaseId == candidate.releaseId
  }

  predicate TargetIsRetained(d: Disk, candidate: Artifact, target: Option<nat>) {
    target.Some? ==> IsTarget(d, candidate, target.value)
  }

  /** The candidate's schema over the data of the chosen snapshot, or else of the given database. */
  predicate IsMigrated(image: Image, d: Disk, previous: Option<Image>, candidate: Artifact, target: Option<nat>) {
    && image.owner == candidate
    && (if target.Some? then
          target.value in d.snapshots && image.contents == d.snapshots[target.value].contents
        else
          previous.Some? ==> image.contents == previous.value.contents)
  }

  function RecordedImage(j: Journal): Option<Image> {
    match j.previousDatabase
    case Present(manifest, _) => Some(manifest)
    case _ => None
  }

  method PrepareWorkspace(host: Host, j: Journal) returns (ok: bool)
    requires host.Valid() && host.disk.journal == Some(j) && j.phase.Prepared?
    requires PreviousStillLive(host.disk, j) && host.disk.running.None?
    modifies host
    ensures host.Valid() && host.Extends(old(host.states), old(host.steps))
    ensures Complete(old(host.disk)) ==> Complete(host.disk)
    ensures host.calm && old(host.alive) ==> host.alive
    ensures OnlyWorkspaces(old(host.disk), host.disk)
    ensures ok ==> host.alive && HoldsRecorded(host.disk, j)
    ensures host.calm && old(host.alive) && j.transitionId !in old(host.disk).workspaces ==> ok
  {
    ok := CreateWorkspace(host, j);
    if !ok {
      var removed := host.DiscardWorkspace(j.transitionId);
    }
  }

  method CreateWorkspace(host: Host, j: Journal) returns (ok: bool)
    requires host.Valid() && host.disk.journal == Some(j) && j.phase.Prepared?
    requires PreviousStillLive(host.disk, j) && host.disk.running.None?
    modifies host
    ensures host.Valid() && host.Extends(old(host.states), old(host.steps))
    ensures Complete(old(host.disk)) ==> Complete(host.disk)
    ensures host.calm && old(host.alive) ==> host.alive
    ensures OnlyWorkspaces(old(host.disk), host.disk)
    ensures ok ==> host.alive && HoldsRecorded(host.disk, j)
    ensures host.calm && old(host.alive) && j.transitionId !in old(host.disk).workspaces ==> ok
  {
    var id := j.transitionId;
    ok := host.Depend();
    if !ok || id in host.disk.workspaces { return false; }
    ok := host.Perform(MakeWorkspace(id));
    if !ok { return; }
    ok := host.Perform(MakeCandidateDirectory(id));
    if !ok { return; }
    if j.previousDatabase.Present? {
      ok := host.CopySnapshot(id, id, j.previousDatabase.manifest);
    }
  }

  /** The candidate database: the fresh snapshot or a retained one, migrated by the candidate. */
  method BuildCandidate(host: Host, j: Journal, target: Option<nat>) returns (ok: bool, workspace: bool)
    requires host.Valid() && host.disk.journal == Some(j) && j.phase.Prepared?
    requires PreviousStillLive(host.disk, j) && host.disk.running.None?
    requires TargetIsRetained(host.disk, j.candidate, target)
    modifies host
    ensures host.Valid() && host.Extends(old(host.states), old(host.steps))
    ensures Complete(old(host.disk)) ==> Complete(host.disk)
    ensures host.calm && old(host.alive) ==> host.alive
    ensures OnlyWorkspaces(old(host.disk), host.disk)
    ensures ok ==> host.alive && workspace && HasCandidateDirectory(host.disk, j.transitionId)
    ensures ok ==> host.disk.workspaces[j.transitionId].database.Some? &&
                   IsMigrated(host.disk.workspaces[j.transitionId].database.value.image, host.disk, RecordedImage(j),
                              j.candidate, target)
    ensures host.calm && old(host.alive) && j.transitionId !in old(host.disk).workspaces ==> ok
  {
    workspace := false;
    ok := PrepareWorkspace(host, j);
    if !ok { return; }
    workspace := true;
    if target.Some? {
      ok := host.Perform(EmptyCandidate(j.transitionId));
      if !ok { return; }
      ok := host.CopySnapshot(j.transitionId, target.value, host.disk.snapshots[target.value]);
      if !ok { return; }
    }
    ok := host.MaintainCandidate(j.transitionId, j.candidate);
  }

  /** Promotes the candidate database over the recorded one and records the promotion. */
  method PromoteCandidate(host: Host, j: Journal, target: Option<nat>)
    returns (ok: bool, written: Journal, workspace: bool, promoted: bool)
    requires host.Valid() && host.disk.journal == Some(j) && j.phase.Prepared?
    requires PreviousStillLive(host.disk, j) && host.disk.running.None?
    requires TargetIsRetained(host.disk, j.candidate, target)
    modifies host
    ensures host.Valid() && host.Extends(old(host.states), old(host.steps))
    ensures Complete(old(host.disk)) ==> Complete(host.disk)
    ensures host.calm && old(host.alive) ==> host.alive
    ensures host.disk.activation == old(host.disk).activation && host.disk.journal.Some?
    ensures SameTransition(host.disk.journal.value, j) && SameTransition(j, written)
    ensures ok ==> host.alive && host.disk.journal == Some(written) && written.phase.DatabasePromoted?
    ensures ok ==> CandidateLive(host.disk, j) && workspace && promoted
    ensures ok ==> IsMigrated(host.disk.live.value.image, old(host.disk), RecordedImage(j), j.candidate, target)
    ensures host.calm && old(host.alive) && j.transitionId !in old(host.disk).workspaces ==> ok
  {
    written, workspace, promoted := j, false, false;
    ok := host.Depend();
    if !ok { return; }
    ok, workspace := BuildCandidate(host, j, target);
    if !ok { return; }
    ok := host.Depend();
    if !ok { return; }
    ok := host.Perform(Promote(j.transitionId));
    if !ok { return; }
    promoted := true;
    ok := host.MarkJournal(j, j.(phase := DatabasePromoted));
    if ok {
      written := j.(phase := DatabasePromoted);
    }
  }

  /** Start, readiness and smoke; any failure makes rollback-required durable before it throws. */
  method VerifyCandidate(host: Host, j: Journal) returns (ok: bool, written: Journal)
    requires host.Valid() && host.disk.journal == Some(j) && j.phase.DatabasePromoted?
    requires CandidateLive(host.disk, j) && Record(host.disk) == j.previousActivation
    modifies host
    ensures host.Valid() && host.Extends(old(host.states), old(host.steps))
    ensures Complete(old(host.disk)) ==> Complete(host.disk)
    ensures host.calm ==> host.disk.live == old(host.disk).live
    ensures host.calm && old(host.alive) ==> host.alive
    ensures host.disk.activation == old(host.disk).activation && host.disk.journal.Some?
    ensures SameTransition(j, written) && SameTransition(j, host.disk.journal.value)
    ensures ok ==> host.alive && written == j && host.disk.journal == Some(j) && CandidateLive(host.disk, j)
    ensures ok ==> j.transitionId in host.disk.ready && j.transitionId in host.disk.smoked
    ensures ok ==> host.disk.running == Some(j.candidate)
    ensures host.calm && old(host.alive) ==> host.alive && ok == (j.candidate !in host.unready)
    ensures host.calm && old(host.alive) && !ok ==>
              CandidateLive(host.disk, j) && host.disk.journal == Some(j.(phase := RollbackRequired))
  {
    written := j;
    ok := CheckCandidate(host, j);
    if !ok {
      var marked := host.MarkJournal(j, j.(phase := RollbackRequired));
      if marked {
        written := j.(phase := RollbackRequired);
      }
    }
  }

  method CheckCandidate(host: Host, j: Journal) returns (ok: bool)
    requires host.Valid() && host.disk.journal == Some(j) && j.phase.DatabasePromoted?
    requires CandidateLive(host.disk, j) && Record(host.disk) == j.previousActivation
    modifies host
    ensures host.Valid() && host.Extends(old(host.states), old(host.steps))
    ensures Complete(old(host.disk)) ==> Complete(host.disk)
    ensures host.calm ==> host.disk.live == old(host.disk).live
    ensures host.calm && old(host.alive) ==> host.alive
    ensures host.disk.activation == old(host.disk).activation && host.disk.journal == Some(j)
    ensures CandidateLive(host.disk, j)
    ensures ok ==> host.alive && j.transitionId in host.disk.ready && j.transitionId in host.disk.smoked
    ensures ok ==> host.disk.running == Some(j.candidate)
    ensures host.calm && old(host.alive) ==> host.alive && ok == (j.candidate !in host.unready)
  {
    ok := host.Depend();
    if !ok { return; }
    ok := host.PrepareAndStartServices(j.candidate);
    if !ok { return; }
    ok := host.VerifyReady(j.candidate);
    if !ok { return; }
    ok := PassChecks(host, j);
  }

  /** Readiness has been observed; the smoke test and the two progress callbacks remain. */
  method PassChecks(host: Host, j: Journal) returns (ok: bool)
    requires host.Valid() && host.disk.journal == Some(j) && j.phase.DatabasePromoted?
    requires CandidateLive(host.disk, j) && host.disk.running == Some(j.candidate)
    modifies host
    ensures host.Valid() && host.Extends(old(host.states), old(host.steps))
    ensures Complete(old(host.disk)) ==> Complete(host.disk)
    ensures host.calm ==> host.disk.live == old(host.disk).live
    ensures host.calm && old(host.alive) ==> host.alive
    ensures host.disk.activation == old(host.disk).activation && host.disk.journal == Some(j)
    ensures CandidateLive(host.disk, j) && host.disk.running == Some(j.candidate)
    ensures ok ==> host.alive && j.transitionId in host.disk.ready && j.transitionId in host.disk.smoked
    ensures host.calm && old(host.alive) ==> ok
  {
    ok := host.Perform(PassReadiness(j.transitionId));
    if !ok { return; }
    host.Serve();
    ok := host.Depend();
    if !ok { return; }
    ok := SmokeTest(host, j);
  }

  method SmokeTest(host: Host, j: Journal) returns (ok: bool)
    requires host.Valid() && host.disk.journal == Some(j) && j.phase.DatabasePromoted?
    requires host.disk.running == Some(j.candidate) && j.transitionId in host.disk.ready
    modifies host
    ensures host.Valid() && host.Extends(old(host.states), old(host.steps))
    ensures host.disk == old(host.disk).(smoked := host.disk.smoked)
    ensures ok ==> host.alive && j.transitionId in host.disk.smoked
    ensures host.calm && old(host.alive) ==> host.alive && ok
  {
    ok := host.Perform(PassSmoke(j.transitionId));
    if !ok { return; }
    ok := host.Depend();
  }

  /** Compare-and-swap forward; a throw after the write is reconciled by reading. */
  method ReconcileCommit(host: Host, expected: Option<ActivationFile>, next: ActivationRecord)
    returns (r: Outcome<Option<ActivationFile>>)
    requires host.Valid() && Enabled(host.disk, CommitRecord(next)) && expected == host.disk.activation
    requires RecordOf(expected).Some? ==> RecordOf(expected).value.current != next.current
    modifies host
    ensures host.Valid() && host.Extends(old(host.states), old(host.steps))
    ensures Complete(old(host.disk)) ==> Complete(host.disk)
    ensures host.calm && old(host.alive) ==> host.alive
    ensures host.disk == old(host.disk).(activation := host.disk.activation, clock := host.disk.clock)
    ensures Record(host.disk) == Record(old(host.disk)) || Record(host.disk) == Some(next)
    ensures r.Returned? ==> host.alive && r.value == host.disk.activation && Record(host.disk) == Some(next)
    ensures host.calm && old(host.alive) ==> r.Returned?
  {
    var committed := false;
    if CommitIsValid(RecordOf(expected), next) {
      var read, actual := host.LoadActivation();
      if read && actual == expected {
        committed := host.Perform(CommitRecord(next));
      }
    }
    if committed { return Returned(host.disk.activation); }
    var ok, observed := host.LoadActivation();
    if !ok || !RecordsEqual(RecordOf(observed), Some(next)) { return Threw; }
    return Returned(observed);
  }

  /** What the try block leaves for the catch block. */
  datatype Attempt =
    | Committed(record: ActivationRecord)
    | Failed(journal: Option<Journal>, workspace: bool, promoted: bool, settlementFailed: bool)

  /** Checks, commit and settlement of a promoted candidate. */
  method CommitCandidate(host: Host, activation: Option<ActivationFile>, j: Journal)
    returns (ok: bool, written: Journal, settlementFailed: bool)
    requires host.Valid() && host.disk.journal == Some(j) && j.phase.DatabasePromoted?
    requires CandidateLive(host.disk, j) && RecordOf(activation) == j.previousActivation
    requires host.disk.activation == activation
    modifies host
    ensures host.Valid() && host.Extends(old(host.states), old(host.steps))
    ensures Complete(old(host.disk)) ==> Complete(host.disk)
    ensures host.calm ==> host.disk.live == old(host.disk).live
    ensures host.calm && old(host.alive) ==> host.alive
    ensures Record(host.disk) == RecordOf(activation) || Record(host.disk) == Some(CommittedRecord(j))
    ensures host.disk.journal.Some? && SameTransition(j, host.disk.journal.value)
    ensures ok ==> host.alive && written == j && host.disk.journal == Some(j) && Settling(host.disk, j)
    ensures ok ==> host.disk.running == Some(j.candidate)
    ensures host.calm && old(host.alive) ==> host.alive && ok == (j.candidate !in host.unready)
    ensures host.calm && old(host.alive) && !ok ==>
              && !settlementFailed && host.disk.activation == activation
              && CandidateLive(host.disk, j) && host.disk.journal == Some(j.(phase := RollbackRequired))
  {
    settlementFailed := false;
    ok, written := VerifyCandidate(host, j);
    if !ok { return; }
    host.Serve();
    ok, settlementFailed := CommitAndSettle(host, activation, j);
  }

  /** Both checks have passed: the commit, and the settlement of the services. */
  method CommitAndSettle(host: Host, activation: Option<ActivationFile>, j: Journal)
    returns (ok: bool, settlementFailed: bool)
    requires host.Valid() && host.disk.journal == Some(j) && host.disk.activation == activation
    requires Enabled(host.disk, CommitRecord(CommittedRecord(j)))
    modifies host
    ensures host.Valid() && host.Extends(old(host.states), old(host.steps))
    ensures Complete(old(host.disk)) ==> Complete(host.disk)
    ensures Record(host.disk) == RecordOf(activation) || Record(host.disk) == Some(CommittedRecord(j))
    ensures host.disk.journal == Some(j) && host.disk.running == old(host.disk).running
    ensures ok ==> host.alive && Settling(host.disk, j)
    ensures host.calm ==> host.disk.live == old(host.disk).live
    ensures host.calm && old(host.alive) ==> host.alive && ok
  {
    settlementFailed := false;
    var commit := ReconcileCommit(host, activation, CommittedRecord(j));
    if commit.Threw? || commit.value.None? { return false, false; }
    host.Serve();
    ok := host.Depend();
    if !ok { return; }
    ok := host.Settle();
    settlementFailed := !ok;
  }

  /** Discards the workspace, clears the journal and runs both collectors. */
  method FinishCutover(host: Host, j: Journal) returns (ok: bool, discarded: bool, cleared: bool)
    requires host.Valid() && host.disk.journal == Some(j) && Settling(host.disk, j)
    modifies host
    ensures host.Valid() && host.Extends(old(host.states), old(host.steps))
    ensures Complete(old(host.disk)) ==> Complete(host.disk)
    ensures host.calm && old(host.alive) ==> host.alive
    ensures host.disk.activation == old(host.disk).activation
    ensures host.disk.journal.None? || host.disk.journal == Some(j)
    ensures cleared ==> discarded && host.disk.journal.None?
    ensures !discarded ==> host.disk.journal == Some(j)
    ensures host.disk.running == old(host.disk).running
    ensures ok ==> host.alive && cleared && Ended(host.disk, j) && Collected(old(host.disk), host.disk)
    ensures host.calm ==> host.disk.live == old(host.disk).live
    ensures host.calm && old(host.alive) && Complete(old(host.disk)) ==> ok
  {
    ok, discarded, cleared := DiscardAndClear(host, j);
    if !ok { return; }
    ghost var before := host.disk;
    ok := CollectAfterCutover(host);
    if ok {
      SameCollection(old(host.disk), before, host.disk, host.disk);
    }
  }

  /** The workspace goes before the journal does. */
  method DiscardAndClear(host: Host, j: Journal) returns (ok: bool, discarded: bool, cleared: bool)
    requires host.Valid() && host.disk.journal == Some(j) && Settling(host.disk, j)
    modifies host
    ensures host.Valid() && host.Extends(old(host.states), old(host.steps))
    ensures SameHoldings(old(host.disk), host.disk) && host.disk.running == old(host.disk).running
    ensures host.disk.journal.None? || host.disk.journal == Some(j)
    ensures cleared ==> discarded && host.disk.journal.None?
    ensures !discarded ==> host.disk.journal == Some(j)
    ensures ok ==> host.alive && cleared && Ended(host.disk, j)
    ensures host.calm ==> host.disk.live == old(host.disk).live
    ensures host.calm && old(host.alive) ==> ok
  {
    discarded, cleared := false, false;
    ok := host.DiscardWorkspace(j.transitionId);
    if !ok { return; }
    discarded := true;
    host.Serve();
    ok := host.ClearJournal(j);
    cleared := ok;
  }

  /** Both collectors around the committed record, beside the running candidate. */
  method CollectAfterCutover(host: Host) returns (ok: bool)
    requires host.Valid() && host.disk.journal.None?
    modifies host
    ensures host.Valid() && host.Extends(old(host.states), old(host.steps))
    ensures Complete(old(host.disk)) ==> Complete(host.disk)
    ensures host.disk.journal.None? && host.disk.activation == old(host.disk).activation
    ensures host.disk.running == old(host.disk).running && host.disk.workspaces == old(host.disk).workspaces
    ensures host.calm ==> host.disk.live == old(host.disk).live
    ensures host.calm && old(host.alive) ==> host.alive
    ensures ok ==> host.alive && Collected(old(host.disk), host.disk)
    ensures host.calm && old(host.alive) && Complete(old(host.disk)) ==> ok
  {
    host.Serve();
    ok := host.Depend();
    if !ok { return; }
    ghost var before := host.disk;
    ok := Retain(host);
    ghost var collected := host.disk;
    host.Serve();
    if ok {
      SameCollection(old(host.disk), before, collected, host.disk);
    }
  }

  /** Without a journal, a committed candidate is also the release that runs. */
  predicate CommittedIsRunning(d: Disk, record: Option<ActivationRecord>, id: nat, candidate: Artifact) {
    d.journal.None? && Record(d) == Some(NextRecord(id, record, candidate)) ==> d.running == Some(candidate)
  }

  predicate FreshId(d: Disk, id: nat) {
    id !in d.snapshots && id !in d.workspaces
  }

  /** A rollback journal is durable whose recovery brings back the record and data of `before`. */
  predicate RolledBackTo(d: Disk, before: Disk, id: nat, candidate: Artifact) {
    && d.journal.Some? && d.journal.value.phase.RollbackRequired?
    && d.journal.value.transitionId == id && d.journal.value.candidate == candidate
    && d.journal.value.previousActivation == Record(before) && d.activation == before.activation
    && HasCandidateDirectory(d, id)
    && (before.live.Some? ==>
          && d.journal.value.previousDatabase.Present?
          && d.journal.value.previousDatabase.manifest == before.live.value.image)
  }

  /** The candidate's schema is live over the data that was live before, or over the chosen snapshot's. */
  predicate DataIsCarried(before: Disk, after: Disk, candidate: Artifact, target: Option<nat>) {
    && after.live.Some?
    && IsMigrated(after.live.value.image, before, if before.live.Some? then Some(before.live.value.image) else None,
                  candidate, target)
  }

  method Cutover(host: Host, activation: Option<ActivationFile>, id: nat, candidate: Artifact, target: Option<nat>)
    returns (r: Attempt)
    requires host.Valid() && host.disk.journal.None? && host.disk.activation == activation
    requires CurrentOf(RecordOf(activation)) != Some(candidate) && Published(host.disk, candidate)
    requires TargetIsRetained(host.disk, candidate, target)
    modifies host
    ensures host.Valid() && host.Extends(old(host.states), old(host.steps))
    ensures Complete(old(host.disk)) ==> Complete(host.disk)
    ensures host.calm && old(host.alive) ==> host.alive
    ensures DuringCutover(host.disk, RecordOf(activation), id, candidate)
    ensures r.Committed? ==>
              && host.alive && host.disk.journal.None? && Record(host.disk) == Some(r.record)
              && r.record == NextRecord(id, RecordOf(activation), candidate)
              && id !in host.disk.workspaces && host.disk.running == Some(candidate) && Tidy(host.disk)
    ensures CommittedIsRunning(host.disk, RecordOf(activation), id, candidate)
    ensures r.Failed? && r.journal.None? && host.disk.journal.Some? ==>
              host.disk.journal.value.phase.ServiceStopRequested? && Record(host.disk) == RecordOf(activation)
    ensures r.Failed? && r.promoted && r.workspace ==> r.journal.Some? && host.disk.journal.Some?
    ensures host.calm && old(host.alive) && FreshId(old(host.disk), id) && Complete(old(host.disk)) ==>
              && host.alive && (r.Committed? <==> candidate !in host.unready)
              && (r.Committed? ==> DataIsCarried(old(host.disk), host.disk, candidate, target))
              && (r.Failed? ==> !r.settlementFailed && RolledBackTo(host.disk, old(host.disk), id, candidate))
  {
    var record := RecordOf(activation);
    var ok, written := StopAndSnapshot(host, record, id, candidate);
    if !ok { return Failed(written, false, false, false); }
    var j, workspace, promoted;
    ok, j, workspace, promoted := PromoteCandidate(host, written.value, target);
    if !ok { return Failed(Some(j), workspace, promoted, false); }
    r := CommitPromoted(host, activation, j, workspace, promoted);
  }

  /** The second half of a cutover: checks, commit, settlement and clean-up of a promoted candidate. */
  method CommitPromoted(host: Host, activation: Option<ActivationFile>, j: Journal, workspace: bool, promoted: bool)
    returns (r: Attempt)
    requires host.Valid() && host.disk.journal == Some(j) && j.phase.DatabasePromoted?
    requires CandidateLive(host.disk, j) && RecordOf(activation) == j.previousActivation
    requires host.disk.activation == activation
    modifies host
    ensures host.Valid() && host.Extends(old(host.states), old(host.steps))
    ensures Complete(old(host.disk)) ==> Complete(host.disk)
    ensures host.calm && old(host.alive) ==> host.alive
    ensures Record(host.disk) == RecordOf(activation) || Record(host.disk) == Some(CommittedRecord(j))
    ensures host.disk.journal.Some? ==> SameTransition(j, host.disk.journal.value)
    ensures host.disk.journal.None? ==> host.disk.running == Some(j.candidate)
    ensures r.Committed? ==>
              && host.alive && Ended(host.disk, j) && Record(host.disk) == Some(r.record)
              && r.record == CommittedRecord(j) && Tidy(host.disk)
    ensures r.Failed? && r.promoted && r.workspace ==> r.journal.Some? && host.disk.journal.Some?
    ensures r.Failed? && r.journal.None? ==> host.disk.journal.None?
    ensures host.calm && r.Committed? ==> host.disk.live == old(host.disk).live
    ensures host.calm && old(host.alive) && Complete(old(host.disk)) ==>
              (r.Committed? <==> j.candidate !in host.unready)
    ensures host.calm && old(host.alive) && Complete(old(host.disk)) && r.Failed? ==>
              && !r.settlementFailed && host.disk.activation == activation
              && CandidateLive(host.disk, j) && host.disk.journal == Some(j.(phase := RollbackRequired))
  {
    var ok, written, settlementFailed := CommitCandidate(host, activation, j);
    if !ok { return Failed(Some(written), workspace, promoted, settlementFailed); }
    var discarded, cleared;
    ok, discarded, cleared := FinishCutover(host, j);
    if !ok {
      return Failed(if cleared then None else Some(j), workspace && !discarded, promoted, false);
    }
    return Committed(CommittedRecord(j));
  }

  /** The candidate is committed, no journal is left to say otherwise, and it is not what runs. */
  predicate Mismatched(d: Disk, record: Option<ActivationRecord>, id: nat, candidate: Artifact) {
    && d.journal.None? && Record(d) == Some(NextRecord(id, record, candidate))
    && d.running != Some(candidate)
  }

  /**
   How the catch block can lose the match of record and services. `blind` says that its read of
   the activation record threw, `restored` that it went on to put the previous release back. A
   committed candidate that does not run implies the first; the second leaves exactly that behind
   whenever the commit was durable.
   */
  predicate CatchOutcome(r: Outcome<ActivationRecord>, d: Disk, record: Option<ActivationRecord>, id: nat,
                         candidate: Artifact, blind: bool, restored: bool) {
    && (Record(d) == record || Record(d) == Some(NextRecord(id, record, candidate)))
    && (Mismatched(d, record, id, candidate) ==> r.Threw? && blind)
    && (restored ==> r.Threw?)
    && (restored && d.journal.None? && Record(d) == Some(NextRecord(id, record, candidate)) ==>
          Mismatched(d, record, id, candidate) && blind && d.running == CurrentOf(record))
  }

  /** The catch block: adopt a durable commit, recover a durable journal, or put the old release back. */
  method ReconcileFailure(host: Host, activation: Option<ActivationFile>, id: nat, candidate: Artifact, failed: Attempt)
    returns (r: Outcome<ActivationRecord>, ghost blind: bool, ghost restored: bool)
    requires host.Valid() && DuringCutover(host.disk, RecordOf(activation), id, candidate)
    requires failed.Failed? && CommittedIsRunning(host.disk, RecordOf(activation), id, candidate)
    requires failed.journal.None? && host.disk.journal.Some? ==>
               host.disk.journal.value.phase.ServiceStopRequested? && Record(host.disk) == RecordOf(activation)
    requires failed.promoted && failed.workspace ==> failed.journal.Some? && host.disk.journal.Some?
    modifies host
    ensures host.Valid() && host.Extends(old(host.states), old(host.steps))
    ensures Complete(old(host.disk)) ==> Complete(host.disk)
    ensures host.calm && old(host.alive) ==> host.alive
    ensures r.Returned? ==>
              && host.alive && host.disk.journal.None? && Record(host.disk) == Some(r.value)
              && r.value == NextRecord(id, RecordOf(activation), candidate)
              && host.disk.running == Some(candidate) && Tidy(host.disk)
    ensures CatchOutcome(r, host.disk, RecordOf(activation), id, candidate, blind, restored)
    ensures host.calm && old(host.alive) ==> !blind
    ensures host.calm && old(host.alive) && old(host.disk).journal.Some? &&
            !KeepsCandidate(old(host.disk), host.unready) ==>
              r.Threw?
    ensures host.calm && old(host.alive) && old(host.disk).journal.Some? && !failed.settlementFailed &&
            !KeepsCandidate(old(host.disk), host.unready) && RecoveryPossible(old(host.disk), host.unready) ==>
              && host.disk.journal.None? && Record(host.disk) == RecordOf(activation)
              && (old(host.disk).journal.value.previousDatabase.Present? ==>
                    && host.disk.live.Some?
                    && host.disk.live.value.image == old(host.disk).journal.value.previousDatabase.manifest)
  {
    blind, restored := false, false;
    var record := RecordOf(activation);
    var expected := NextRecord(id, record, candidate);
    var readJournal, observedJournal := host.LoadJournal();
    if !readJournal {
      observedJournal := failed.journal;
    }
    var readActivation, observedActivation := host.LoadActivation();
    if !readActivation {
      observedActivation := activation;
      blind := true;
    }
    if observedJournal.Some? {
      if failed.settlementFailed && observedJournal.value.phase.DatabasePromoted? &&
         MatchesCandidate(RecordOf(observedActivation), observedJournal.value) {
        r := Threw;
        return;
      }
      r := RecoverInCatch(host, record, id, candidate);
      return;
    }
    if RecordsEqual(RecordOf(observedActivation), Some(expected)) {
      r := AdoptCommit(host, expected);
      return;
    }
    // No database is restored here: a promoted database with its workspace implies a journal.
    assert !(failed.promoted && failed.workspace);
    restored := PutBackPrevious(host, id, CurrentOf(record));
    r := Threw;
  }

  /** A journal was read or is remembered: recover it; only the expected record is then a success. */
  method RecoverInCatch(host: Host, record: Option<ActivationRecord>, id: nat, candidate: Artifact)
    returns (r: Outcome<ActivationRecord>)
    requires host.Valid() && DuringCutover(host.disk, record, id, candidate)
    requires CommittedIsRunning(host.disk, record, id, candidate)
    modifies host
    ensures host.Valid() && host.Extends(old(host.states), old(host.steps))
    ensures Complete(old(host.disk)) ==> Complete(host.disk)
    ensures host.calm && old(host.alive) ==> host.alive
    ensures Record(host.disk) == record || Record(host.disk) == Some(NextRecord(id, record, candidate))
    ensures !Mismatched(host.disk, record, id, candidate)
    ensures r.Returned? ==>
              && host.alive && host.disk.journal.None? && Record(host.disk) == Some(r.value)
              && r.value == NextRecord(id, record, candidate) && Tidy(host.disk)
    ensures host.calm && old(host.alive) && old(host.disk).journal.Some? &&
            !KeepsCandidate(old(host.disk), host.unready) ==>
              r.Threw?
    ensures host.calm && old(host.alive) && old(host.disk).journal.Some? &&
            !KeepsCandidate(old(host.disk), host.unready) && RecoveryPossible(old(host.disk), host.unready) ==>
              && host.disk.journal.None? && Record(host.disk) == record
              && (old(host.disk).journal.value.previousDatabase.Present? ==>
                    && host.disk.live.Some?
                    && host.disk.live.value.image == old(host.disk).journal.value.previousDatabase.manifest)
  {
    var expected := NextRecord(id, record, candidate);
    var recovered := RecoverExistingTransition(host);
    r := Threw;
    if recovered.Threw? || !RecordsEqual(RecordOf(recovered.value), Some(expected)) { return; }
    var retained := Retain(host);
    if retained {
      r := Returned(expected);
    }
  }

  /** The commit was durable and nothing is left of its journal: only the clean-up remains. */
  method AdoptCommit(host: Host, expected: ActivationRecord) returns (r: Outcome<ActivationRecord>)
    requires host.Valid() && host.disk.journal.None? && Record(host.disk) == Some(expected)
    modifies host
    ensures host.Valid() && host.Extends(old(host.states), old(host.steps))
    ensures Complete(old(host.disk)) ==> Complete(host.disk)
    ensures host.calm && old(host.alive) ==> host.alive
    ensures host.disk.journal.None? && host.disk.activation == old(host.disk).activation
    ensures host.disk.running == old(host.disk).running
    ensures r.Returned? ==>
              && host.alive && r.value == expected && expected.transitionId !in host.disk.workspaces
              && Tidy(host.disk)
  {
    var discarded := host.DiscardWorkspace(expected.transitionId);
    if !discarded { return Threw; }
    var retained := Retain(host);
    if !retained { return Threw; }
    return Returned(expected);
  }

  /** No journal is known and nothing was committed: stop, discard, and restart the old release. */
  method PutBackPrevious(host: Host, id: nat, previous: Option<Artifact>) returns (ok: bool)
    requires host.Valid() && (host.disk.journal.Some? ==> host.disk.journal.value.phase.ServiceStopRequested?)
    modifies host
    ensures host.Valid() && host.Extends(old(host.states), old(host.steps))
    ensures Complete(old(host.disk)) ==> Complete(host.disk)
    ensures host.calm && old(host.alive) ==> host.alive
    ensures host.disk.journal == old(host.disk).journal && host.disk.activation == old(host.disk).activation
    ensures host.disk.running in {old(host.disk).running, None, previous}
    ensures ok ==> host.disk.running == previous
  {
    ok := host.StopServices();
    if !ok { return; }
    ok := host.DiscardWorkspace(id);
    if !ok { return; }
    if previous.Some? {
      ok := host.PrepareAndStartServices(previous.value);
      if !ok { return; }
      var ready := host.VerifyReady(previous.value);
    }
  }

  /** The call resumes a candidate whose commit was durable before an interruption. */
  predicate Resumes(d: Disk, candidate: Artifact) {
    d.journal.Some? && Settling(d, d.journal.value) && d.journal.value.candidate == candidate
  }

  predicate CandidateIsCurrent(d: Disk, candidate: Artifact) {
    d.journal.None? && CurrentOf(Record(d)) == Some(candidate)
  }

  /** The call found a transition to recover, or the record is no longer what it found. */
  predicate MovedSince(before: Disk, after: Disk) {
    before.journal.Some? || Record(after) != Record(before)
  }

  /** A finished recovery: the record it decides on, over the data that belongs to it. */
  predicate Recovered(before: Disk, after: Disk, unready: set<Artifact>) {
    && after.journal.None? && Record(after) == RecoveryTarget(before, unready)
    && SameArtifacts(before, after)
    && (before.journal.Some? ==>
          DataIsRecovered(before, after, before.journal.value, KeepsCandidate(before, unready)))
  }

  /**
   `activateRelease`. A normal return leaves no journal and names the durable record. That is
   the candidate's record, except when the call resumed a committed candidate that no longer
   became ready: then the rolled-back record is returned as if it were a success. A throw leaves
   the candidate authoritative without its services exactly through a catch block that could not
   read the record and put the previous release back. `idle` is the disk between the recovery of an
   earlier transition and the cutover.
   */
  method ActivateRelease(host: Host, candidate: Artifact, id: nat, target: Option<nat>)
    returns (r: Outcome<ActivationRecord>, ghost blind: bool, ghost restored: bool, ghost idle: Disk)
    requires host.Valid()
    modifies host
    ensures host.Valid() && host.Extends(old(host.states), old(host.steps))
    ensures Complete(old(host.disk)) ==> Complete(host.disk)
    ensures r.Returned? ==> Complete(old(host.disk))
    ensures host.calm && old(host.alive) ==> host.alive
    ensures r.Returned? ==>
              && host.alive && host.disk.journal.None? && Record(host.disk) == Some(r.value)
              && host.disk.running == Some(r.value.current) && Tidy(host.disk)
              && (r.value.current == candidate ||
                  (Resumes(old(host.disk), candidate) &&
                   Some(r.value) == old(host.disk).journal.value.previousActivation))
    ensures restored ==> r.Threw?
    ensures CandidateIsCurrent(host.disk, candidate) && MovedSince(old(host.disk), host.disk) ==>
              host.disk.running == Some(candidate) || (r.Threw? && blind)
    ensures CandidateIsCurrent(host.disk, candidate) && restored ==> host.disk.running != Some(candidate) && blind
    ensures host.calm && old(host.alive) && Resumes(old(host.disk), candidate) ==>
              && (r.Returned? <==> RecoveryPossible(old(host.disk), host.unready) &&
                                   RecoveryTarget(old(host.disk), host.unready).Some? && Complete(old(host.disk)))
              && (r.Returned? ==> Some(r.value) == RecoveryTarget(old(host.disk), host.unready))
    ensures old(host.disk).journal.None? ==> idle == old(host.disk)
    ensures host.calm && old(host.alive) && RecoveryPossible(old(host.disk), host.unready) ==>
              Recovered(old(host.disk), idle, host.unready)
    ensures host.calm && Resumes(old(host.disk), candidate) ==> SameImage(idle, host.disk)
    ensures host.calm && old(host.alive) && !Resumes(old(host.disk), candidate) &&
            RecoveryPossible(old(host.disk), host.unready) ==>
      && (ActivationAdmitted(idle, candidate, id, target) ==>
            AllOrNothing(r, idle, host.disk, candidate, id, target, host.unready))
      && (Complete(idle) && CandidateIsCurrent(idle, candidate) ==>
            (r.Returned? <==> candidate !in host.unready) && SameImage(idle, host.disk))
  {
    r, blind, restored, idle := Threw, false, false, host.disk;
    var recovered, resumes := RecoverPending(host, candidate);
    idle := host.disk;
    if recovered.Threw? { return; }
    if resumes {
      r := ReturnResumed(host, RecordOf(recovered.value));
      return;
    }
    r, blind, restored := ActivateFromIdle(host, recovered.value, candidate, id, target);
  }

  /** Recovery of an earlier transition; is it the commit of this very candidate that is resumed? */
  method RecoverPending(host: Host, candidate: Artifact)
    returns (r: Outcome<Option<ActivationFile>>, resumes: bool)
    requires host.Valid()
    modifies host
    ensures host.Valid() && host.Extends(old(host.states), old(host.steps))
    ensures SameArtifacts(old(host.disk), host.disk)
    ensures r.Returned? ==> host.alive && host.disk.journal.None? && r.value == host.disk.activation
    ensures r.Returned? ==> (resumes <==> Resumes(old(host.disk), candidate))
    ensures Record(host.disk) == Record(old(host.disk)) ||
            (old(host.disk).journal.Some? && Record(host.disk) == old(host.disk).journal.value.previousActivation)
    ensures if old(host.disk).journal.None? then host.disk == old(host.disk) else IdleIsRunning(host.disk)
    ensures host.calm && old(host.alive) ==>
              host.alive && (r.Returned? <==> RecoveryPossible(old(host.disk), host.unready))
    ensures host.calm && r.Returned? ==> Recovered(old(host.disk), host.disk, host.unready)
  {
    resumes := false;
    var read, pendingJournal := host.LoadJournal();
    if !read { return Threw, false; }
    var pendingActivation;
    read, pendingActivation := host.LoadActivation();
    if !read { return Threw, false; }
    resumes := pendingJournal.Some? && pendingJournal.value.phase.DatabasePromoted? &&
               MatchesCandidate(RecordOf(pendingActivation), pendingJournal.value) &&
               pendingJournal.value.candidate == candidate;
    r := RecoverExistingTransition(host);
  }

  /**
   A cutover from an idle disk to a published release that is not the current one, on a migrated
   copy of the current database or on a snapshot that the record keeps.
   */
  predicate ActivationAdmitted(d: Disk, candidate: Artifact, id: nat, target: Option<nat>) {
    && d.journal.None? && Published(d, candidate) && CurrentOf(Record(d)) != Some(candidate)
    && FreshId(d, id) && Complete(d)
    && (target.Some? ==> target.value in SnapshotReferences(Record(d)) && IsTarget(d, candidate, target.value))
  }

  /** The new release is authoritative, or the old record and its data are back. */
  predicate AllOrNothing(r: Outcome<ActivationRecord>, before: Disk, after: Disk, candidate: Artifact, id: nat,
                         target: Option<nat>, unready: set<Artifact>) {
    && (r.Returned? <==> candidate !in unready)
    && (r.Returned? ==>
          r.value == NextRecord(id, Record(before), candidate) && DataIsCarried(before, after, candidate, target))
    && (r.Threw? && Restartable(CurrentOf(Record(before)), unready) ==>
          after.journal.None? && Record(after) == Record(before) && SameImage(after, before))
  }

  /** The end of a resumed call: whatever record recovery left is returned. */
  method ReturnResumed(host: Host, record: Option<ActivationRecord>) returns (r: Outcome<ActivationRecord>)
    requires host.Valid() && host.disk.journal.None? && record == Record(host.disk)
    modifies host
    ensures host.Valid() && host.Extends(old(host.states), old(host.steps))
    ensures Complete(old(host.disk)) ==> Complete(host.disk)
    ensures OnlyCollected(old(host.disk), host.disk)
    ensures r.Returned? ==> host.alive && Some(r.value) == record && Complete(old(host.disk)) && Tidy(host.disk)
    ensures host.calm && old(host.alive) ==> host.alive && (r.Returned? <==> record.Some? && Complete(old(host.disk)))
  {
    var ok := RetainSnapshots(host, record);
    if !ok || record.None? { return Threw; }
    FewAreRetained(old(host.disk), host.disk);
    ok := RetainRecordArtifacts(host);
    if !ok { return Threw; }
    return Returned(record.value);
  }

  method RetainRecordArtifacts(host: Host) returns (ok: bool)
    requires host.Valid() && host.disk.journal.None?
    modifies host
    ensures host.Valid() && host.Extends(old(host.states), old(host.steps))
    ensures Complete(old(host.disk)) ==> Complete(host.disk)
    ensures host.calm && old(host.alive) ==> host.alive
    ensures OnlyArtifacts(old(host.disk), host.disk)
    ensures ok ==> host.alive && Complete(old(host.disk)) && ArtifactsCollected(host.disk)
    ensures host.calm && old(host.alive) && Complete(old(host.disk)) ==> ok
  {
    var record := Record(host.disk);
    ReferencesCoverRecord(record, None);
    ok := RetainArtifacts(host, ActivationReferences(record, None));
    if ok {
      CollectedRuntimes(host.disk, ActivationReferences(record, None));
    }
  }

  /** Old snapshots go; then the candidate must verify and survives the collection around it. */
  method AdmitCandidate(host: Host, record: Option<ActivationRecord>, candidate: Artifact) returns (ok: bool)
    requires host.Valid() && host.disk.journal.None? && Record(host.disk) == record
    modifies host
    ensures host.Valid() && host.Extends(old(host.states), old(host.steps))
    ensures Complete(old(host.disk)) ==> Complete(host.disk)
    ensures host.calm && old(host.alive) ==> host.alive
    ensures OnlyCollected(old(host.disk), host.disk)
    ensures ok ==> host.alive && Published(host.disk, candidate) && Complete(old(host.disk))
    ensures ok && CurrentOf(record) == Some(candidate) ==> Tidy(host.disk)
    ensures (host.calm && old(host.alive) && Published(old(host.disk), candidate) && Complete(old(host.disk))) ==> ok
  {
    ok := RetainSnapshots(host, record);
    if !ok { return; }
    FewAreRetained(old(host.disk), host.disk);
    ok := RetainAroundCandidate(host, record, candidate);
  }

  /** Exactly the record's releases and the candidate are left. */
  method RetainAroundCandidate(host: Host, record: Option<ActivationRecord>, candidate: Artifact) returns (ok: bool)
    requires host.Valid() && host.disk.journal.None? && Record(host.disk) == record
    modifies host
    ensures host.Valid() && host.Extends(old(host.states), old(host.steps))
    ensures Complete(old(host.disk)) ==> Complete(host.disk)
    ensures host.calm && old(host.alive) ==> host.alive
    ensures OnlyArtifacts(old(host.disk), host.disk)
    ensures ok ==> host.alive && Published(host.disk, candidate) && Complete(old(host.disk))
    ensures ok ==> host.disk.releases.Keys == ReleaseReferences(record) + {candidate.releaseId}
    ensures ok && CurrentOf(record) == Some(candidate) ==> ArtifactsCollected(host.disk)
    ensures (host.calm && old(host.alive) && Published(old(host.disk), candidate) && Complete(old(host.disk))) ==> ok
  {
    ok := host.LoadArtifacts(candidate);
    if !ok { return; }
    ghost var before := host.disk;
    ReferencesCoverRecord(record, Some(candidate));
    ReferencesArePublished(before, Some(candidate));
    var references := ActivationReferences(record, Some(candidate));
    ok := RetainArtifacts(host, references);
    if ok {
      KeptArePublished(before, host.disk, references, [candidate]);
      if CurrentOf(record) == Some(candidate) {
        CollectedRuntimes(host.disk, references);
      }
    }
  }

  /** The current release is asked for again: restart it and settle. */
  method RestartCurrent(host: Host, current: Artifact) returns (ok: bool)
    requires host.Valid() && host.disk.journal.None?
    modifies host
    ensures host.Valid() && host.Extends(old(host.states), old(host.steps))
    ensures Complete(old(host.disk)) ==> Complete(host.disk)
    ensures host.calm && old(host.alive) ==> host.alive
    ensures Drifted(old(host.disk), host.disk)
    ensures host.calm ==> host.disk.live == old(host.disk).live
    ensures host.calm && old(host.alive) ==> (ok <==> current !in host.unready)
    ensures host.disk.running in {old(host.disk).running, Some(current)}
    ensures ok ==> host.alive && host.disk.running == Some(current)
  {
    ok := host.PrepareAndStartServices(current);
    if !ok { return; }
    ok := host.VerifyReady(current);
    if !ok { return; }
    ok := host.Settle();
  }

  method ActivateFromIdle(host: Host, activation: Option<ActivationFile>, candidate: Artifact, id: nat,
                          target: Option<nat>)
    returns (r: Outcome<ActivationRecord>, ghost blind: bool, ghost restored: bool)
    requires host.Valid() && host.disk.journal.None? && host.disk.activation == activation
    modifies host
    ensures host.Valid() && host.Extends(old(host.states), old(host.steps))
    ensures Complete(old(host.disk)) ==> Complete(host.disk)
    ensures r.Returned? ==> Complete(old(host.disk))
    ensures host.calm && old(host.alive) ==> host.alive
    ensures r.Returned? ==>
              && host.alive && host.disk.journal.None? && Record(host.disk) == Some(r.value)
              && r.value.current == candidate && host.disk.running == Some(candidate) && Tidy(host.disk)
    ensures if CurrentOf(RecordOf(activation)) == Some(candidate)
            then !restored && host.disk.running in {old(host.disk).running, Some(candidate)} &&
                 host.disk.activation == activation
            else CatchOutcome(r, host.disk, RecordOf(activation), id, candidate, blind, restored)
    ensures host.calm && old(host.alive) && Complete(old(host.disk)) &&
            CurrentOf(RecordOf(activation)) == Some(candidate) ==>
              (r.Returned? <==> candidate !in host.unready) && SameImage(old(host.disk), host.disk)
    ensures host.calm && old(host.alive) && ActivationAdmitted(old(host.disk), candidate, id, target) ==>
              AllOrNothing(r, old(host.disk), host.disk, candidate, id, target, host.unready)
  {
    r, blind, restored := Threw, false, false;
    var record := RecordOf(activation);
    var ok := AdmitCandidate(host, record, candidate);
    if !ok { return; }
    if CurrentOf(record) == Some(candidate) {
      ok := RestartCurrent(host, candidate);
      if ok {
        r := Returned(record.value);
      }
      return;
    }
    ok := LoadCutoverInputs(host, record, candidate, target);
    if !ok { return; }
    r, blind, restored := CutoverFromIdle(host, activation, candidate, id, target);
  }

  method CutoverFromIdle(host: Host, activation: Option<ActivationFile>, candidate: Artifact, id: nat,
                         target: Option<nat>)
    returns (r: Outcome<ActivationRecord>, ghost blind: bool, ghost restored: bool)
    requires host.Valid() && host.disk.journal.None? && host.disk.activation == activation
    requires CurrentOf(RecordOf(activation)) != Some(candidate) && Published(host.disk, candidate)
    requires TargetIsRetained(host.disk, candidate, target)
    modifies host
    ensures host.Valid() && host.Extends(old(host.states), old(host.steps))
    ensures Complete(old(host.disk)) ==> Complete(host.disk)
    ensures host.calm && old(host.alive) ==> host.alive
    ensures r.Returned? ==>
              && host.alive && host.disk.journal.None? && Record(host.disk) == Some(r.value)
              && r.value == NextRecord(id, RecordOf(activation), candidate)
              && host.disk.running == Some(candidate) && Tidy(host.disk)
    ensures CatchOutcome(r, host.disk, RecordOf(activation), id, candidate, blind, restored)
    ensures host.calm && old(host.alive) && FreshId(old(host.disk), id) && Complete(old(host.disk)) ==>
              AllOrNothing(r, old(host.disk), host.disk, candidate, id, target, host.unready)
  {
    ghost var before := host.disk;
    var attempt := Cutover(host, activation, id, candidate, target);
    if attempt.Committed? { return Returned(attempt.record), false, false; }
    ghost var failed := host.disk;
    r, blind, restored := ReconcileFailure(host, activation, id, candidate, attempt);
    if host.calm && old(host.alive) && FreshId(before, id) && Complete(before) {
      RolledBackRecovers(failed, before, id, candidate, host.unready);
    }
  }

  lemma RolledBackRecovers(d: Disk, before: Disk, id: nat, candidate: Artifact, unready: set<Artifact>)
    requires Invariant(d) && Invariant(before) && before.journal.None?
    requires RolledBackTo(d, before, id, candidate)
    ensures !KeepsCandidate(d, unready)
    ensures Restartable(CurrentOf(Record(before)), unready) ==> RecoveryPossible(d, unready)
    ensures before.live.None? <==> Record(before).None?
  {
  }

  /** The previous release must load; a rollback target must be a snapshot of the candidate release. */
  method LoadCutoverInputs(host: Host, record: Option<ActivationRecord>, candidate: Artifact, target: Option<nat>)
    returns (ok: bool)
    requires host.Valid() && record == Record(host.disk)
    modifies host`alive
    ensures host.Valid()
    ensures host.calm && old(host.alive) ==> host.alive
    ensures ok ==> host.alive
    ensures ok && target.Some? ==>
              IsTarget(host.disk, candidate, target.value)
    ensures host.calm && old(host.alive) && (target.None? || IsTarget(host.disk, candidate, target.value)) ==> ok
  {
    ok := host.Depend();
    if !ok { return; }
    if record.Some? {
      ok := host.LoadArtifacts(record.value.current);
      if !ok { return; }
    }
    if target.Some? {
      ok := host.Depend();
      if !ok || target.value !in host.disk.snapshots ||
         host.disk.snapshots[target.value].owner.releaseId != candidate.releaseId {
        return false;
      }
    }
  }

  lemma ReferencesCoverBoth(record: Option<ActivationRecord>, additional: seq<Artifact>)
    ensures ReleaseIds(DistinctReleases(ActivationReferences(record, None) + additional)) ==
            ReleaseReferences(record) + ReleaseIds(additional)
  {
    ReferencesCoverRecord(record, None);
    var own := ActivationReferences(record, None);
    assert forall a :: a in own + additional <==> a in own || a in additional;
  }

  /** Exactly the record's releases and the additional ones are left. */
  method RetainBesides(host: Host, additional: seq<Artifact>) returns (ok: bool)
    requires host.Valid() && host.disk.journal.None?
    modifies host
    ensures host.Valid() && host.Extends(old(host.states), old(host.steps))
    ensures Complete(old(host.disk)) ==> Complete(host.disk)
    ensures host.calm && old(host.alive) ==> host.alive
    ensures OnlyArtifacts(old(host.disk), host.disk)
    ensures ok ==> host.alive && Complete(old(host.disk))
    ensures ok ==> host.disk.releases.Keys == ReleaseReferences(Record(host.disk)) + ReleaseIds(additional)
    ensures host.calm && old(host.alive) && Complete(old(host.disk)) && AllPublished(old(host.disk), additional) ==>
              ok && AllPublished(host.disk, additional)
  {
    ghost var before := host.disk;
    var own := ActivationReferences(Record(host.disk), None);
    var references := DistinctReleases(own + additional);
    ReferencesCoverBoth(Record(before), additional);
    ReferencesArePublished(before, None);
    assert AllPublished(before, additional) ==> AllPublished(before, references);
    ok := RetainArtifacts(host, references);
    if ok && AllPublished(before, additional) {
      KeptArePublished(before, host.disk, references, additional);
    }
  }

  /** `prepareProductionArtifactAdmission`: recover first, then collect around what is authoritative. */
  method PrepareArtifactAdmission(host: Host, additional: seq<Artifact>) returns (ok: bool)
    requires host.Valid()
    modifies host
    ensures host.Valid() && host.Extends(old(host.states), old(host.steps))
    ensures Complete(old(host.disk)) ==> Complete(host.disk)
    ensures host.calm && old(host.alive) ==> host.alive
    ensures ok ==> Complete(old(host.disk))
    ensures ok ==> host.alive && host.disk.journal.None?
    ensures ok ==> host.disk.releases.Keys == ReleaseReferences(Record(host.disk)) + ReleaseIds(additional)
    ensures old(host.disk).journal.None? ==> OnlyArtifacts(old(host.disk), host.disk)
    ensures host.calm && old(host.alive) && RecoveryPossible(old(host.disk), host.unready) &&
            Complete(old(host.disk)) && AllPublished(old(host.disk), additional) ==>
      && ok && AllPublished(host.disk, additional)
      && Record(host.disk) == RecoveryTarget(old(host.disk), host.unready)
  {
    var recovered := RecoverExistingTransition(host);
    if recovered.Threw? { return false; }
    ok := RetainBesides(host, additional);
  }

  datatype Request =
    | Activate(candidate: Artifact, id: nat, target: Option<nat>)
    | Admit(additional: seq<Artifact>)
    | Provide(artifact: Artifact)

  /**
   Any number of delivery processes, each of which may throw or die anywhere: in every state
   the disk passes through without a journal, database and record name the same release.
   */
  method Operate(host: Host, requests: seq<Request>)
    requires host.Valid()
    modifies host
    ensures host.Valid() && host.Extends(old(host.states), old(host.steps))
    ensures forall k :: 0 <= k < |host.states| && host.states[k].journal.None? ==> Paired(host.states[k])
  {
    for i := 0 to |requests|
      invariant host.Valid() && host.Extends(old(host.states), old(host.steps))
    {
      OperateOnce(host, requests[i]);
    }
    forall k | 0 <= k < |host.states| && host.states[k].journal.None? ensures Paired(host.states[k]) {
      RunKeepsInvariant(host.states, host.steps, k);
    }
  }

  /** One delivery process. */
  method OperateOnce(host: Host, request: Request)
    requires host.Valid()
    modifies host
    ensures host.Valid() && host.Extends(old(host.states), old(host.steps))
  {
    host.Restart();
    match request {
      case Activate(candidate, id, target) =>
        var r, blind, restored, idle := ActivateRelease(host, candidate, id, target);
      case Admit(additional) =>
        var ok := PrepareArtifactAdmission(host, additional);
      case Provide(artifact) =>
        var ok := host.Perform(InstallRuntime(artifact.runtimeRevision));
        if ok && artifact.releaseId !in host.disk.releases {
          ok := host.Perform(PublishRelease(artifact));
        }
    }
  }
}
