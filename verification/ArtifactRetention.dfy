/**
 Retention of published releases and Bun runtimes: everything is verified before the first
 rename, then unreferenced entries are retired and emptied one durable step at a time.
 */
module ArtifactRetention {
  import opened Outcomes
  import opened ManagedTree

  const MAXIMUM_ROOT_ENTRIES: nat := 128

  /**
   A published release with the runtime its descriptor names, or a published runtime. Intact
   means that loading and verifying it succeeds.
   */
  datatype Bundle = Bundle(tree: Tree, intact: bool, revision: nat, version: nat)

  datatype Leftover = Retired(id: nat) | Staged(id: nat, token: nat)

  /** Foreign counts directory entries the inventory does not recognize. */
  datatype Root = Root(
    published: map<nat, Bundle>,
    leftovers: map<Leftover, Tree>,
    pointerStages: set<nat>,
    current: Option<nat>,
    foreign: nat)

  datatype Disk = Disk(releases: Root, runtimes: Option<Root>)

  datatype Reference = Reference(releaseId: nat, runtimeRevision: nat)

  datatype Side = Releases | Runtimes

  const EMPTY_ROOT: Root := Root(map[], map[], {}, None, 0)

  function RootAt(d: Disk, side: Side): Root {
    match side
    case Releases => d.releases
    case Runtimes => if d.runtimes.Some? then d.runtimes.value else EMPTY_ROOT
  }

  function WithRoot(d: Disk, side: Side, root: Root): Disk {
    match side
    case Releases => d.(releases := root)
    case Runtimes => d.(runtimes := Some(root))
  }

  function ReleaseIds(references: seq<Reference>): set<nat> {
    set i | 0 <= i < |references| :: references[i].releaseId
  }

  function RuntimeRevisions(references: seq<Reference>): set<nat> {
    set i | 0 <= i < |references| :: references[i].runtimeRevision
  }

  function Protected(side: Side, references: seq<Reference>): set<nat> {
    if side.Releases? then ReleaseIds(references) else RuntimeRevisions(references)
  }

  // ---------------------------------------------------------------- verification

  predicate ReferencesAreValid(references: seq<Reference>) {
    && |references| <= 3
    && forall i, j :: 0 <= i < j < |references| ==> references[i].releaseId != references[j].releaseId
  }

  function EntryCount(root: Root): nat {
    |root.published.Keys| + |root.leftovers.Keys| + |root.pointerStages|
    + (if root.current.Some? then 1 else 0) + root.foreign
  }

  predicate LeftoversAreManaged(leftovers: map<Leftover, Tree>) {
    forall name :: name in leftovers ==> TreeIsManaged(leftovers[name])
  }

  predicate Inventoried(root: Root, kept: set<nat>) {
    && EntryCount(root) <= MAXIMUM_ROOT_ENTRIES
    && root.foreign == 0
    && (root.current.Some? ==> root.current.value in kept)
    && LeftoversAreManaged(root.leftovers)
  }

  predicate AllIntact(published: map<nat, Bundle>) {
    forall id :: id in published ==> TreeIsManaged(published[id].tree) && published[id].intact
  }

  /** Every published release has its runtime published, in the version its descriptor names. */
  predicate Paired(d: Disk) {
    forall id :: id in d.releases.published ==>
      var release := d.releases.published[id];
      && release.revision in RootAt(d, Runtimes).published
      && release.version == RootAt(d, Runtimes).published[release.revision].version
  }

  predicate ReferencesArePublished(d: Disk, references: seq<Reference>) {
    forall i :: 0 <= i < |references| ==>
      && references[i].releaseId in d.releases.published
      && d.releases.published[references[i].releaseId].revision == references[i].runtimeRevision
  }

  predicate Verified(d: Disk, references: seq<Reference>) {
    && ReferencesAreValid(references)
    && (d.runtimes.None? ==> references == [])
    && Inventoried(d.releases, ReleaseIds(references))
    && Inventoried(RootAt(d, Runtimes), RuntimeRevisions(references))
    && AllIntact(d.releases.published) && AllIntact(RootAt(d, Runtimes).published)
    && ReferencesArePublished(d, references)
    && Paired(d)
  }

  // ---------------------------------------------------------------- the end state

  function Kept(published: map<nat, Bundle>, ids: set<nat>): map<nat, Bundle> {
    map id | id in published && id in ids :: published[id]
  }

  function TidyRoot(root: Root, ids: set<nat>): Root {
    root.(published := Kept(root.published, ids), leftovers := map[], pointerStages := {})
  }

  /** Exactly the referenced artifacts are published and nothing else is left. */
  function Retained(d: Disk, references: seq<Reference>): Disk {
    Disk(TidyRoot(d.releases, ReleaseIds(references)),
         if d.runtimes.None? then None else Some(TidyRoot(d.runtimes.value, RuntimeRevisions(references))))
  }

  lemma EndIsExact(d: Disk, references: seq<Reference>)
    requires Verified(d, references)
    ensures Retained(d, references).releases.published.Keys == ReleaseIds(references)
    ensures RootAt(Retained(d, references), Runtimes).published.Keys == RuntimeRevisions(references)
    ensures Paired(Retained(d, references))
  {
    forall id | id in ReleaseIds(references) ensures id in d.releases.published {
      var i :| 0 <= i < |references| && references[i].releaseId == id;
    }
    forall revision | revision in RuntimeRevisions(references)
      ensures revision in RootAt(d, Runtimes).published
    {
      var i :| 0 <= i < |references| && references[i].runtimeRevision == revision;
      assert d.releases.published[references[i].releaseId].revision == revision;
    }
    ReferencedRuntimesAreKept(d, references);
  }

  /** The runtime of a referenced release is referenced with it. */
  lemma ReferencedRuntimesAreKept(d: Disk, references: seq<Reference>)
    requires ReferencesArePublished(d, references)
    ensures forall id :: id in d.releases.published && id in ReleaseIds(references) ==>
              d.releases.published[id].revision in RuntimeRevisions(references)
  {
    forall id | id in d.releases.published && id in ReleaseIds(references)
      ensures d.releases.published[id].revision in RuntimeRevisions(references)
    {
      var i :| 0 <= i < |references| && references[i].releaseId == id;
      assert references[i].runtimeRevision == d.releases.published[id].revision;
    }
  }

  // ---------------------------------------------------------------- what verification takes

  function Sound(revision: nat, version: nat): Bundle {
    Bundle(Tree(true, []), true, revision, version)
  }

  /** Two releases on their runtimes and a left-over stage; only the first release is referenced. */
  function TwoReleases(): Disk {
    Disk(Root(map[1 := Sound(10, 7), 2 := Sound(20, 8)], map[Staged(3, 0) := Tree(true, [])], {5}, Some(1), 0),
         Some(Root(map[10 := Sound(10, 7), 20 := Sound(20, 8)], map[], {}, None, 0)))
  }

  function OneRelease(): Disk {
    Disk(Root(map[1 := Sound(10, 7)], map[], {}, Some(1), 0),
         Some(Root(map[10 := Sound(10, 7)], map[], {}, None, 0)))
  }

  /** Such a disk verifies, and its end has the first release and its runtime left alone. */
  lemma TwoReleasesAreReduced(references: seq<Reference>)
    requires references == [Reference(1, 10)]
    ensures Verified(TwoReleases(), references) && Retained(TwoReleases(), references) == OneRelease()
  {
    var d := TwoReleases();
    assert references[0].releaseId in ReleaseIds(references);
    assert references[0].runtimeRevision in RuntimeRevisions(references);
    assert ReleaseIds(references) == {1} && RuntimeRevisions(references) == {10};
    assert d.releases.published.Keys == {1, 2} && d.releases.leftovers.Keys == {Staged(3, 0)};
    assert d.runtimes.value.published.Keys == {10, 20} && d.runtimes.value.leftovers.Keys == {};
    assert Verified(d, references);
    assert Kept(d.releases.published, {1}) == OneRelease().releases.published;
    assert Kept(d.runtimes.value.published, {10}) == OneRelease().runtimes.value.published;
  }

  /** Any damage to any published artifact, referenced or not, stops the whole retention. */
  lemma DamageIsRefused(d: Disk, references: seq<Reference>, side: Side, id: nat, place: seq<nat>)
    requires id in RootAt(d, side).published
    requires var bundle := RootAt(d, side).published[id];
      || !bundle.intact
      || !bundle.tree.managed
      || (Exists(bundle.tree.children, place) && !NodeAt(bundle.tree.children, place).value.managed)
    ensures !Verified(d, references)
  {
    AllManagedMeansEveryPlace(RootAt(d, side).published[id].tree.children);
  }

  // ---------------------------------------------------------------- durable steps

  datatype Step =
    | UnlinkPointer(side: Side, token: nat)
    | ReduceEntry(side: Side, name: Leftover)
    | RemoveDirectory(side: Side, name: Leftover)
    | Retire(side: Side, id: nat)

  predicate Enabled(d: Disk, step: Step, references: seq<Reference>) {
    var root := RootAt(d, step.side);
    match step
    case UnlinkPointer(_, token) => token in root.pointerStages
    case ReduceEntry(_, name) => name in root.leftovers && root.leftovers[name].children != []
    case RemoveDirectory(_, name) => name in root.leftovers && root.leftovers[name].children == []
    case Retire(side, id) =>
      && id in root.published && id !in Protected(side, references) && Retired(id) !in root.leftovers
      && (side.Runtimes? ==> d.releases.published.Keys <= ReleaseIds(references))
  }

  function Apply(d: Disk, step: Step): Disk {
    var root := RootAt(d, step.side);
    match step
    case UnlinkPointer(side, token) =>
      WithRoot(d, side, root.(pointerStages := root.pointerStages - {token}))
    case ReduceEntry(side, name) =>
      if name !in root.leftovers || root.leftovers[name].children == [] then d
      else
        var tree := root.leftovers[name];
        WithRoot(d, side, root.(leftovers := root.leftovers[name := ReduceTree(tree)]))
    case RemoveDirectory(side, name) => WithRoot(d, side, root.(leftovers := root.leftovers - {name}))
    case Retire(side, id) =>
      if id !in root.published then d
      else
        WithRoot(d, side, Renamed(root, id))
  }

  lemma WithoutOne<T>(names: set<T>, name: T)
    requires name in names
    ensures |names - {name}| == |names| - 1
  {
  }

  lemma WithOne<T>(names: set<T>, name: T)
    ensures |names + {name}| <= |names| + 1
  {
  }

  lemma KeysWithout<K, V>(entries: map<K, V>, key: K)
    requires key in entries
    ensures |(entries - {key}).Keys| == |entries.Keys| - 1
  {
    assert (entries - {key}).Keys == entries.Keys - {key};
    WithoutOne(entries.Keys, key);
  }

  lemma KeysWith<K, V>(entries: map<K, V>, key: K, value: V)
    ensures |entries[key := value].Keys| <= |entries.Keys| + 1
  {
    assert entries[key := value].Keys == entries.Keys + {key};
    WithOne(entries.Keys, key);
  }

  lemma RetireCounts(root: Root, id: nat)
    requires id in root.published
    ensures EntryCount(Renamed(root, id)) <= EntryCount(root)
  {
    KeysWithout(root.published, id);
    KeysWith(root.leftovers, Retired(id), root.published[id].tree);
  }

  /** The count of directory entries never grows. */
  lemma StepCounts(d: Disk, step: Step, references: seq<Reference>)
    requires Enabled(d, step, references)
    ensures EntryCount(RootAt(Apply(d, step), step.side)) <= EntryCount(RootAt(d, step.side))
  {
    var root := RootAt(d, step.side);
    match step
    case UnlinkPointer(_, token) =>
      WithoutOne(root.pointerStages, token);
    case ReduceEntry(_, name) =>
      var tree := root.leftovers[name];
      assert root.leftovers[name := ReduceTree(tree)].Keys == root.leftovers.Keys;
    case RemoveDirectory(_, name) =>
      KeysWithout(root.leftovers, name);
    case Retire(_, id) =>
      RetireCounts(root, id);
  }

  lemma StepKeepsInventory(d: Disk, step: Step, references: seq<Reference>)
    requires Enabled(d, step, references) && Verified(d, references)
    ensures var root := RootAt(Apply(d, step), step.side);
      Inventoried(root, Protected(step.side, references)) && AllIntact(root.published)
  {
    StepCounts(d, step, references);
    if step.ReduceEntry? {
      ReduceKeepsTree(RootAt(d, step.side).leftovers[step.name]);
    }
  }

  lemma StepKeepsEnd(d: Disk, step: Step, references: seq<Reference>)
    requires Enabled(d, step, references)
    ensures Retained(Apply(d, step), references) == Retained(d, references)
  {
    var kept := Protected(step.side, references);
    var before, after := RootAt(d, step.side), RootAt(Apply(d, step), step.side);
    assert Kept(after.published, kept) == Kept(before.published, kept);
  }

  lemma StepKeepsPairs(d: Disk, step: Step, references: seq<Reference>)
    requires Enabled(d, step, references) && Verified(d, references)
    ensures Paired(Apply(d, step)) && ReferencesArePublished(Apply(d, step), references)
  {
    ReferencedRuntimesAreKept(d, references);
    if step.Retire? && step.side.Releases? {
      forall i | 0 <= i < |references| ensures references[i].releaseId != step.id {
        assert references[i].releaseId in ReleaseIds(references);
      }
    }
  }

  /** Every durable step keeps the disk verified, hence paired, and its end state in place. */
  lemma StepKeepsVerified(d: Disk, step: Step, references: seq<Reference>)
    requires Enabled(d, step, references) && Verified(d, references)
    ensures Verified(Apply(d, step), references)
    ensures Retained(Apply(d, step), references) == Retained(d, references)
  {
    StepKeepsInventory(d, step, references);
    StepKeepsEnd(d, step, references);
    StepKeepsPairs(d, step, references);
  }

  // ---------------------------------------------------------------- retention

  /** A state from which a fresh retention still reaches the end state of the first one. */
  ghost predicate Recoverable(d: Disk, origin: Disk, references: seq<Reference>) {
    Verified(d, references) && Retained(d, references) == Retained(origin, references)
  }

  ghost predicate AllRecoverable(states: seq<Disk>, from: nat, origin: Disk, references: seq<Reference>) {
    forall i :: from <= i < |states| ==> Recoverable(states[i], origin, references)
  }

  predicate OnlySide(before: Disk, after: Disk, side: Side) {
    if side.Releases? then after.runtimes == before.runtimes else after.releases == before.releases
  }

  /** Only the tree of one left-over entry differs. */
  predicate SameButEntry(before: Root, after: Root, name: Leftover) {
    && name in before.leftovers && name in after.leftovers
    && after == before.(leftovers := after.leftovers)
    && after.leftovers.Keys == before.leftovers.Keys
    && forall other :: other in before.leftovers && other != name ==> after.leftovers[other] == before.leftovers[other]
  }

  function Unreferenced(root: Root, kept: set<nat>): set<nat> {
    root.published.Keys - kept
  }

  predicate SameButPublished(before: Root, after: Root) {
    after == before.(published := after.published)
  }

  function Unpublished(root: Root, id: nat): Root {
    root.(published := root.published - {id})
  }

  /** The root right after one entry was renamed to its retired name. */
  function Renamed(root: Root, id: nat): Root
    requires id in root.published
  {
    root.(published := root.published - {id}, leftovers := root.leftovers[Retired(id) := root.published[id].tree])
  }

  lemma RetiredThenReaped(root: Root, id: nat)
    requires id in root.published && Retired(id) !in root.leftovers
    ensures Retired(id) in Renamed(root, id).leftovers
    ensures Reaped(Renamed(root, id), Retired(id)) == Unpublished(root, id)
  {
    assert root.leftovers[Retired(id) := root.published[id].tree] - {Retired(id)} == root.leftovers;
  }

  function Reaped(root: Root, name: Leftover): Root {
    root.(leftovers := root.leftovers - {name})
  }

  lemma OneFewer(root: Root, kept: set<nat>, id: nat)
    requires id in Unreferenced(root, kept)
    ensures |Unreferenced(Unpublished(root, id), kept)| < |Unreferenced(root, kept)|
    ensures SameButPublished(root, Unpublished(root, id))
  {
    assert Unreferenced(Unpublished(root, id), kept) == Unreferenced(root, kept) - {id};
    WithoutOne(Unreferenced(root, kept), id);
  }

  lemma NothingLeft(root: Root, kept: set<nat>)
    requires Unreferenced(root, kept) == {}
    ensures root.published.Keys <= kept
  {
    forall id | id in root.published.Keys ensures id in kept {
      assert id !in Unreferenced(root, kept);
    }
  }

  lemma RemovedEntry(before: Root, after: Root, name: Leftover)
    requires SameButEntry(before, after, name)
    ensures after.leftovers - {name} == before.leftovers - {name}
  {
    assert (after.leftovers - {name}).Keys == (before.leftovers - {name}).Keys;
  }

  /**
   The two artifact roots and the log of every durable state. A durable step may throw before
   or after it happened, and the process may die there; a dead process writes nothing more.
   */
  class Store {
    var disk: Disk
    var alive: bool
    const calm: bool
    const references: seq<Reference>
    ghost var states: seq<Disk>

    constructor (disk: Disk, references: seq<Reference>, calm: bool)
      ensures this.disk == disk && this.references == references && this.calm == calm
      ensures alive && states == [disk]
    {
      this.disk, this.references, this.calm := disk, references, calm;
      alive, states := true, [disk];
    }

    /** Everything written since keeps the disk recoverable. */
    ghost predicate Continues(origin: Disk, log: seq<Disk>)
      reads this
    {
      log <= states && Recoverable(disk, origin, references) && AllRecoverable(states, |log|, origin, references)
    }

    method Depend() returns (ok: bool)
      modifies this`alive
      ensures ok ==> alive
      ensures calm || !old(alive) ==> alive == old(alive)
      ensures calm && old(alive) ==> ok
    {
      ok := false;
      if !alive { return; }
      var fails: bool := *;
      if fails && !calm {
        alive := *;
        return;
      }
      ok := true;
    }

    method Perform(step: Step, ghost origin: Disk, ghost log: seq<Disk>) returns (ok: bool)
      requires Continues(origin, log) && Enabled(disk, step, references)
      modifies this
      ensures Continues(origin, log)
      ensures disk == old(disk) || disk == Apply(old(disk), step)
      ensures ok ==> alive && disk == Apply(old(disk), step)
      ensures calm && old(alive) ==> ok
    {
      ok := Depend();
      if !ok { return; }
      StepKeepsVerified(disk, step, references);
      assert Recoverable(Apply(disk, step), origin, references);
      disk := Apply(disk, step);
      states := states + [disk];
      ok := Depend();
    }

    method ReapPointerStages(side: Side, ghost origin: Disk, ghost log: seq<Disk>) returns (ok: bool)
      requires alive && Continues(origin, log)
      modifies this
      ensures Continues(origin, log) && OnlySide(old(disk), disk, side)
      ensures ok ==> alive && RootAt(disk, side) == RootAt(old(disk), side).(pointerStages := {})
      ensures calm ==> ok
    {
      while RootAt(disk, side).pointerStages != {}
        invariant alive && Continues(origin, log) && OnlySide(old(disk), disk, side)
        invariant RootAt(disk, side) ==
                  RootAt(old(disk), side).(pointerStages := RootAt(disk, side).pointerStages)
        decreases |RootAt(disk, side).pointerStages|
      {
        var token :| token in RootAt(disk, side).pointerStages;
        WithoutOne(RootAt(disk, side).pointerStages, token);
        ok := Perform(UnlinkPointer(side, token), origin, log);
        if !ok { return; }
      }
      return true;
    }

    /** Empties one retired or staged entry, one rename, unlink or directory removal at a time. */
    method EmptyEntry(side: Side, name: Leftover, ghost origin: Disk, ghost log: seq<Disk>) returns (ok: bool)
      requires alive && Continues(origin, log) && name in RootAt(disk, side).leftovers
      modifies this
      ensures Continues(origin, log) && OnlySide(old(disk), disk, side)
      ensures SameButEntry(RootAt(old(disk), side), RootAt(disk, side), name)
      ensures ok ==> alive && RootAt(disk, side).leftovers[name].children == []
      ensures calm ==> ok
    {
      while RootAt(disk, side).leftovers[name].children != []
        invariant alive && Continues(origin, log) && OnlySide(old(disk), disk, side)
        invariant SameButEntry(RootAt(old(disk), side), RootAt(disk, side), name)
        decreases Work(RootAt(disk, side).leftovers[name].children)
      {
        ReduceKeepsTree(RootAt(disk, side).leftovers[name]);
        ok := Perform(ReduceEntry(side, name), origin, log);
        if !ok { return; }
      }
      return true;
    }

    /** Empties one retired or staged entry and removes its directory. */
    method ReapEntry(side: Side, name: Leftover, ghost origin: Disk, ghost log: seq<Disk>) returns (ok: bool)
      requires alive && Continues(origin, log) && name in RootAt(disk, side).leftovers
      modifies this
      ensures Continues(origin, log) && OnlySide(old(disk), disk, side)
      ensures ok ==> alive
      ensures ok ==> RootAt(disk, side) == Reaped(RootAt(old(disk), side), name)
      ensures calm ==> ok
    {
      ok := Depend();
      if !ok { return; }
      ok := EmptyEntry(side, name, origin, log);
      if !ok { return; }
      RemovedEntry(RootAt(old(disk), side), RootAt(disk, side), name);
      ok := Perform(RemoveDirectory(side, name), origin, log);
    }

    method ReapLeftovers(side: Side, ghost origin: Disk, ghost log: seq<Disk>) returns (ok: bool)
      requires alive && Continues(origin, log)
      modifies this
      ensures Continues(origin, log) && OnlySide(old(disk), disk, side)
      ensures ok ==> alive && RootAt(disk, side) == RootAt(old(disk), side).(leftovers := map[])
      ensures calm ==> ok
    {
      while RootAt(disk, side).leftovers != map[]
        invariant alive && Continues(origin, log) && OnlySide(old(disk), disk, side)
        invariant RootAt(disk, side) == RootAt(old(disk), side).(leftovers := RootAt(disk, side).leftovers)
        decreases |RootAt(disk, side).leftovers.Keys|
      {
        ghost var names := RootAt(disk, side).leftovers.Keys;
        assert names != {};
        var name :| name in RootAt(disk, side).leftovers;
        WithoutOne(names, name);
        ok := ReapEntry(side, name, origin, log);
        if !ok { return; }
        assert RootAt(disk, side).leftovers.Keys == names - {name};
      }
      return true;
    }

    /** Retires and reaps one published entry. */
    method RetireAndReap(side: Side, id: nat, ghost origin: Disk, ghost log: seq<Disk>) returns (ok: bool)
      requires alive && Continues(origin, log) && Enabled(disk, Retire(side, id), references)
      modifies this
      ensures Continues(origin, log) && OnlySide(old(disk), disk, side)
      ensures ok ==> alive
      ensures ok ==> RootAt(disk, side) == Unpublished(RootAt(old(disk), side), id)
      ensures calm ==> ok
    {
      ok := Perform(Retire(side, id), origin, log);
      if !ok { return; }
      RetiredThenReaped(RootAt(old(disk), side), id);
      ok := ReapEntry(side, Retired(id), origin, log);
    }

    /** Retires what no reference names; the runtimes only once no unreferenced release is left. */
    method RetireUnreferenced(side: Side, ghost origin: Disk, ghost log: seq<Disk>) returns (ok: bool)
      requires alive && Continues(origin, log) && RootAt(disk, side).leftovers == map[]
      requires side.Runtimes? ==> disk.releases.published.Keys <= ReleaseIds(references)
      modifies this
      ensures Continues(origin, log) && OnlySide(old(disk), disk, side)
      ensures ok ==> alive && Unreferenced(RootAt(disk, side), Protected(side, references)) == {}
      ensures ok ==> SameButPublished(RootAt(old(disk), side), RootAt(disk, side))
      ensures calm ==> ok
    {
      while Unreferenced(RootAt(disk, side), Protected(side, references)) != {}
        invariant alive && Continues(origin, log) && OnlySide(old(disk), disk, side)
        invariant SameButPublished(RootAt(old(disk), side), RootAt(disk, side))
        decreases |Unreferenced(RootAt(disk, side), Protected(side, references))|
      {
        var id :| id in Unreferenced(RootAt(disk, side), Protected(side, references));
        OneFewer(RootAt(disk, side), Protected(side, references), id);
        ok := RetireAndReap(side, id, origin, log);
        if !ok { return; }
      }
      return true;
    }

    /** Left-over entries and then unreferenced entries of one root. */
    method Tidy(side: Side, ghost origin: Disk, ghost log: seq<Disk>) returns (ok: bool)
      requires alive && Continues(origin, log)
      requires side.Runtimes? ==> disk.releases.published.Keys <= ReleaseIds(references)
      modifies this
      ensures Continues(origin, log) && OnlySide(old(disk), disk, side)
      ensures ok ==> alive && IsTidy(RootAt(disk, side), Protected(side, references))
      ensures ok ==> RootAt(disk, side).pointerStages == RootAt(old(disk), side).pointerStages
      ensures calm ==> ok
    {
      ok := ReapLeftovers(side, origin, log);
      if !ok { return; }
      ok := RetireUnreferenced(side, origin, log);
      if ok {
        NothingLeft(RootAt(disk, side), Protected(side, references));
      }
    }

    /** Both roots' pointer stages, then the releases, then the runtimes. */
    method RetainVerified(ghost origin: Disk, ghost log: seq<Disk>) returns (ok: bool)
      requires alive && Continues(origin, log)
      modifies this
      ensures Continues(origin, log)
      ensures ok ==> alive && IsRetained(disk, references)
      ensures calm ==> ok
    {
      ok := ReapPointerStages(Releases, origin, log);
      if !ok { return; }
      ok := ReapPointerStages(Runtimes, origin, log);
      if !ok { return; }
      ok := Tidy(Releases, origin, log);
      if !ok { return; }
      ok := Tidy(Runtimes, origin, log);
    }

    /**
     The whole retention. Without a complete verification nothing changes; otherwise every
     durable state stays paired and recoverable, and a return leaves exactly the end state.
     */
    method Retain() returns (ok: bool)
      modifies this
      ensures !Verified(old(disk), references) ==> !ok && disk == old(disk) && states == old(states)
      ensures Verified(old(disk), references) ==> Continues(old(disk), old(states))
      ensures ok ==> disk == Retained(old(disk), references)
      ensures calm && old(alive) ==> (ok <==> Verified(old(disk), references))
    {
      ok := Depend();
      if !ok { return; }
      if !Verified(disk, references) { return false; }
      ghost var origin, log := disk, states;
      ok := RetainVerified(origin, log);
      if ok {
        TidyIsRetained(disk, references);
      }
    }
  }

  predicate IsTidy(root: Root, ids: set<nat>) {
    root.leftovers == map[] && root.published.Keys <= ids
  }

  predicate IsRetained(d: Disk, references: seq<Reference>) {
    && IsTidy(d.releases, ReleaseIds(references)) && d.releases.pointerStages == {}
    && IsTidy(RootAt(d, Runtimes), RuntimeRevisions(references)) && RootAt(d, Runtimes).pointerStages == {}
  }

  lemma TidyIsRetained(d: Disk, references: seq<Reference>)
    requires IsRetained(d, references)
    ensures Retained(d, references) == d
  {
    assert Kept(d.releases.published, ReleaseIds(references)) == d.releases.published;
    assert Kept(RootAt(d, Runtimes).published, RuntimeRevisions(references)) == RootAt(d, Runtimes).published;
  }

  /**
   However often retention is interrupted, repeating it until it returns ends where the
   uninterrupted one ends, and no state on the way had a release without its runtime.
   */
  method RetainUntilDone(store: Store) returns (done: bool)
    requires Verified(store.disk, store.references)
    modifies store
    ensures old(store.states) <= store.states
    ensures forall i :: |old(store.states)| <= i < |store.states| ==> Paired(store.states[i])
    ensures done ==> store.disk == Retained(old(store.disk), store.references)
    ensures store.calm ==> done
  {
    var rounds: int := *;
    var i := 0;
    while i < rounds
      invariant store.Continues(old(store.disk), old(store.states))
    {
      store.alive := true;
      var interrupted := store.Retain();
      i := i + 1;
    }
    store.alive := true;
    done := store.Retain();
    forall i | |old(store.states)| <= i < |store.states| ensures Paired(store.states[i]) {
      assert Recoverable(store.states[i], old(store.disk), store.references);
    }
  }
}
