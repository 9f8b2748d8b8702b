/**
 The files and directories that a delivery makes, path by path, and that they are what capacity
 admission charged: the runtime installer's directories, the copied release tree, and the staged
 candidate with its archive and its provisioning pair.
 */
module DeliveredObjects {
  import opened Outcomes
  import opened ArtifactDirectories
  import opened ArtifactCapacity

  datatype Object = DirectoryAt(path: string) | FileAt(path: string, bytes: int)

  /** The paths of the directories among the objects, in order. */
  function DirectoriesOf(objects: seq<Object>): seq<string> {
    if objects == [] then []
    else
      var last := objects[|objects| - 1];
      DirectoriesOf(objects[..|objects| - 1]) + (if last.DirectoryAt? then [last.path] else [])
  }

  function FilesOf(objects: seq<Object>): seq<Object> {
    if objects == [] then []
    else
      var last := objects[|objects| - 1];
      FilesOf(objects[..|objects| - 1]) + (if last.FileAt? then [last] else [])
  }

  function Sizes(files: seq<Object>): seq<int> {
    seq(|files|, i requires 0 <= i < |files| => if files[i].FileAt? then files[i].bytes else 0)
  }

  /** What admission has to charge for these objects. */
  function InventoryOf(objects: seq<Object>): Inventory {
    Inventory(Sizes(FilesOf(objects)), |DirectoriesOf(objects)|)
  }

  lemma {:induction false} ObjectsOfConcat(a: seq<Object>, b: seq<Object>)
    ensures DirectoriesOf(a + b) == DirectoriesOf(a) + DirectoriesOf(b)
    ensures FilesOf(a + b) == FilesOf(a) + FilesOf(b)
    ensures InventoryOf(a + b) == Both(InventoryOf(a), InventoryOf(b))
  {
    if b == [] {
      assert a + b == a;
    } else {
      var n := |b| - 1;
      assert (a + b)[..|a| + n] == a + b[..n];
      ObjectsOfConcat(a, b[..n]);
    }
    SizesOfConcat(FilesOf(a), FilesOf(b));
  }

  lemma SizesOfConcat(a: seq<Object>, b: seq<Object>)
    ensures Sizes(a + b) == Sizes(a) + Sizes(b)
  {
  }

  predicate HasContents(objects: seq<Object>) {
    forall i :: 0 <= i < |objects| && objects[i].FileAt? ==> objects[i].bytes > 0
  }

  lemma {:induction false} ContentsArePositive(objects: seq<Object>)
    requires HasContents(objects)
    ensures AllPositive(InventoryOf(objects).fileBytes)
  {
    if objects != [] {
      var n := |objects| - 1;
      ContentsArePositive(objects[..n]);
      assert objects == objects[..n] + [objects[n]];
      ObjectsOfConcat(objects[..n], [objects[n]]);
      assert FilesOf([objects[n]]) == if objects[n].FileAt? then [objects[n]] else [] by {
        assert [objects[n]][..0] == [];
      }
    }
  }

  function ChargeOf(item: Object, blockSize: int): int
    requires blockSize > 0 && (item.FileAt? ==> item.bytes > 0)
  {
    if item.FileAt? then RoundedAllocation(item.bytes, blockSize) + blockSize else blockSize
  }

  /** Each object is made by one use that stays within its own charge. */
  ghost predicate Realizes(uses: seq<Use>, objects: seq<Object>, blockSize: int)
    requires blockSize > 0 && HasContents(objects)
  {
    && |uses| == |objects|
    && (forall i :: 0 <= i < |uses| ==> uses[i].charge == ChargeOf(objects[i], blockSize))
    && AllWithin(uses)
  }

  lemma InventoryOfOne(item: Object)
    ensures InventoryOf([item]) == if item.FileAt? then Inventory([item.bytes], 0) else Inventory([], 1)
  {
    assert [item][..0] == [];
    assert DirectoriesOf([item]) == if item.DirectoryAt? then [item.path] else [];
    assert FilesOf([item]) == if item.FileAt? then [item] else [];
  }

  /** One object by itself creates the inventory of just that object. */
  lemma OneIsCreated(use: Use, item: Object, blockSize: int)
    requires blockSize > 0 && HasContents([item]) && Realizes([use], [item], blockSize)
    ensures AllPositive(InventoryOf([item]).fileBytes) && Creates([use], InventoryOf([item]), blockSize)
  {
    InventoryOfOne(item);
    var inventory := InventoryOf([item]);
    assert [item][0] == item && [use][0] == use;
    assert ChargesOf([use]) == [ChargeOf(item, blockSize)];
    assert Charges(inventory, blockSize) == [ChargeOf(item, blockSize)];
  }

  /** Making objects one by one creates their inventory. */
  lemma {:induction false} RealizedIsCreated(uses: seq<Use>, objects: seq<Object>, blockSize: int)
    requires blockSize > 0 && HasContents(objects) && Realizes(uses, objects, blockSize)
    ensures AllPositive(InventoryOf(objects).fileBytes) && Creates(uses, InventoryOf(objects), blockSize)
  {
    ContentsArePositive(objects);
    if objects == [] {
      assert ChargesOf(uses) == [] && Charges(InventoryOf(objects), blockSize) == [];
    } else {
      var n := |objects| - 1;
      RealizedIsCreated(uses[..n], objects[..n], blockSize);
      OneIsCreated(uses[n], objects[n], blockSize);
      assert uses == uses[..n] + [uses[n]] && objects == objects[..n] + [objects[n]];
      ObjectsOfConcat(objects[..n], [objects[n]]);
      CreatesBoth(uses[..n], InventoryOf(objects[..n]), [uses[n]], InventoryOf([objects[n]]), blockSize);
    }
  }

  // ---------------------------------------------------------------- what is made

  const BUN_ROOT: string := "runtimes/bun"

  function RuntimeRoot(revision: string): string {
    Under(BUN_ROOT, revision)
  }

  function ReleaseRoot(commit: string): string {
    Under("releases", commit)
  }

  /** What admission finds on the production device. */
  function SlotsOf(existing: set<string>, commit: string, revision: string): Slots {
    var runtimeExists := RuntimeRoot(revision) in existing;
    Slots(ReleaseRoot(commit) in existing, runtimeExists, runtimeExists || BUN_ROOT in existing)
  }

  /** The installer makes the shared directory if it is missing, then one for the revision, unless that is there. */
  function InstalledDirectories(existing: set<string>, revision: string, stage: string): (r: seq<Object>)
    ensures HasContents(r)
  {
    (if BUN_ROOT in existing then [] else [DirectoryAt(BUN_ROOT)]) +
    (if RuntimeRoot(revision) in existing then [] else [DirectoryAt(Under(BUN_ROOT, stage))])
  }

  function InstalledExecutable(existing: set<string>, revision: string, stage: string, bytes: int): (r: seq<Object>)
    ensures bytes > 0 ==> HasContents(r)
  {
    if RuntimeRoot(revision) in existing then [] else [FileAt(Under(Under(BUN_ROOT, stage), "bun"), bytes)]
  }

  /** The release's files in order, and each directory they need under the root once, wherever in between. */
  ghost predicate CopiesTree(objects: seq<Object>, root: string, release: Release)
    requires |release.paths| == |release.bytes|
  {
    && FilesOf(objects) == seq(|release.paths|, i requires 0 <= i < |release.paths| =>
                                 FileAt(Under(root, release.paths[i]), release.bytes[i]))
    && var directories := DirectoriesOf(objects);
       && (forall i, j :: 0 <= i < j < |directories| ==> directories[i] != directories[j])
       && (set path | path in directories) == {root} + AllUnder(root, AllAncestors(release.paths))
  }

  /** What the provisioner makes for a candidate: archive and tree in one stage, the pair in another. */
  ghost predicate Stages(objects: seq<Object>, tree: seq<Object>, stage: string, pair: string, commit: string,
                         release: Release, runtimeBytes: int, provisionerBytes: int)
    requires |release.paths| == |release.bytes|
  {
    && CopiesTree(tree, Under(stage, commit), release)
    && objects ==
       [DirectoryAt(stage), FileAt(Under(stage, "release.tar"), MAXIMUM_ARCHIVE_BYTES)] + tree +
       [DirectoryAt(pair), FileAt(Under(pair, "bun"), runtimeBytes),
        FileAt(Under(pair, "productionProvisioning.js"), provisionerBytes)]
  }

  // ---------------------------------------------------------------- it is what was charged

  lemma InstallerIsCharged(existing: set<string>, commit: string, revision: string, stage: string, bytes: int)
    requires RuntimeRoot(revision) in existing ==> BUN_ROOT in existing
    ensures var slots := SlotsOf(existing, commit, revision);
      && InventoryOf(InstalledDirectories(existing, revision, stage)) == RuntimeDirectories(slots)
      && InventoryOf(InstalledExecutable(existing, revision, stage, bytes)) == RuntimeFile(slots, bytes)
  {
    InventoryOfOne(DirectoryAt(BUN_ROOT));
    InventoryOfOne(DirectoryAt(Under(BUN_ROOT, stage)));
    InventoryOfOne(FileAt(Under(Under(BUN_ROOT, stage), "bun"), bytes));
    ObjectsOfConcat(if BUN_ROOT in existing then [] else [DirectoryAt(BUN_ROOT)],
                    if RuntimeRoot(revision) in existing then [] else [DirectoryAt(Under(BUN_ROOT, stage))]);
  }

  lemma {:induction false} DistinctCount(items: seq<string>)
    requires forall i, j :: 0 <= i < j < |items| ==> items[i] != items[j]
    ensures |set x | x in items| == |items|
  {
    if items != [] {
      var n := |items| - 1;
      DistinctCount(items[..n]);
      assert items == items[..n] + [items[n]];
      assert (set x | x in items) == (set x | x in items[..n]) + {items[n]};
    }
  }

  lemma TreeIsCharged(objects: seq<Object>, root: string, release: Release)
    requires ReleaseIsInventoried(release) && CopiesTree(objects, root, release)
    ensures InventoryOf(objects) == Inventory(release.bytes, DirectoryCount(release))
  {
    DistinctCount(DirectoriesOf(objects));
    SameDirectoryCount(root, release.paths);
    assert Sizes(FilesOf(objects)) == release.bytes;
  }

  lemma TwoObjects(a: Object, b: Object)
    ensures InventoryOf([a, b]) == Both(InventoryOf([a]), InventoryOf([b]))
  {
    assert [a] + [b] == [a, b];
    ObjectsOfConcat([a], [b]);
  }

  /** The staged candidate: stage and archive, tree, then the pair. */
  lemma InventoryOfStage(objects: seq<Object>, tree: seq<Object>, stage: string, pair: string, commit: string,
                         release: Release, runtimeBytes: int, provisionerBytes: int)
    requires ReleaseIsInventoried(release)
    requires Stages(objects, tree, stage, pair, commit, release, runtimeBytes, provisionerBytes)
    ensures InventoryOf(objects) ==
            Both(Both(Inventory([MAXIMUM_ARCHIVE_BYTES], 1), Inventory(release.bytes, DirectoryCount(release))),
                 Inventory([runtimeBytes, provisionerBytes], 1))
  {
    TreeIsCharged(tree, Under(stage, commit), release);
    var front := [DirectoryAt(stage), FileAt(Under(stage, "release.tar"), MAXIMUM_ARCHIVE_BYTES)];
    var runtime := FileAt(Under(pair, "bun"), runtimeBytes);
    var provisioner := FileAt(Under(pair, "productionProvisioning.js"), provisionerBytes);
    ObjectsOfConcat(front + tree, [DirectoryAt(pair), runtime, provisioner]);
    ObjectsOfConcat(front, tree);
    TwoObjects(front[0], front[1]);
    InventoryOfOne(front[0]);
    InventoryOfOne(front[1]);
    assert [DirectoryAt(pair)] + [runtime, provisioner] == [DirectoryAt(pair), runtime, provisioner];
    ObjectsOfConcat([DirectoryAt(pair)], [runtime, provisioner]);
    InventoryOfOne(DirectoryAt(pair));
    TwoObjects(runtime, provisioner);
    InventoryOfOne(runtime);
    InventoryOfOne(provisioner);
  }

  /** Staging a candidate creates exactly what admission charges for it. */
  lemma StagingIsCharged(uses: seq<Use>, objects: seq<Object>, tree: seq<Object>, stage: string, pair: string,
                         commit: string, release: Release, runtimeBytes: int, provisionerBytes: int, blockSize: int)
    requires blockSize > 0 && ReleaseIsInventoried(release) && runtimeBytes > 0 && provisionerBytes > 0
    requires Stages(objects, tree, stage, pair, commit, release, runtimeBytes, provisionerBytes)
    requires HasContents(objects) && Realizes(uses, objects, blockSize)
    ensures var charged := CandidateInventory(release.bytes, DirectoryCount(release), runtimeBytes, provisionerBytes);
      AllPositive(charged.fileBytes) && Creates(uses, charged, blockSize)
  {
    RealizedIsCreated(uses, objects, blockSize);
    InventoryOfStage(objects, tree, stage, pair, commit, release, runtimeBytes, provisionerBytes);
    var archive, copied := Inventory([MAXIMUM_ARCHIVE_BYTES], 1), Inventory(release.bytes, DirectoryCount(release));
    var two := Inventory([runtimeBytes, provisionerBytes], 1);
    ChargesOfBoth(archive, copied, blockSize);
    ChargesOfBoth(copied, archive, blockSize);
    ChargesOfBoth(Both(archive, copied), two, blockSize);
    ChargesOfBoth(Both(copied, archive), two, blockSize);
    assert Both(Both(copied, archive), two) ==
           CandidateInventory(release.bytes, DirectoryCount(release), runtimeBytes, provisionerBytes);
  }

  // ---------------------------------------------------------------- admission and delivery

  const RUNTIME_PATH: string := "runtime/bun"
  const PROVISIONER_PATH: string := "server/productionProvisioning.js"

  /** The bytes of the first record with this path, if there is one. */
  function RequiredBytes(release: Release, path: string): (r: Option<int>)
    requires |release.paths| == |release.bytes|
    ensures r.Some? <==> path in release.paths
    ensures forall k :: 0 <= k < |release.paths| && release.paths[k] == path && path !in release.paths[..k] ==>
              r == Some(release.bytes[k])
    decreases |release.paths|
  {
    if release.paths == [] then None
    else
      var n := |release.paths| - 1;
      var before := RequiredBytes(Release(release.paths[..n], release.bytes[..n]), path);
      assert release.paths == release.paths[..n] + [release.paths[n]];
      assert forall k :: 0 <= k < n ==> release.paths[..n][..k] == release.paths[..k];
      if before.Some? then before
      else if release.paths[n] == path then Some(release.bytes[n])
      else None
  }

  method FindRequiredBytes(release: Release, path: string) returns (r: Option<int>)
    requires |release.paths| == |release.bytes|
    ensures r == RequiredBytes(release, path)
  {
    for k := 0 to |release.paths|
      invariant path !in release.paths[..k]
    {
      if release.paths[k] == path { return Some(release.bytes[k]); }
      assert release.paths[..k + 1] == release.paths[..k] + [release.paths[k]];
    }
    assert release.paths[..|release.paths|] == release.paths;
    return None;
  }

  /** Both files of the pair are in the release, and there is room for everything. */
  ghost predicate ReleaseAdmitted(capacity: Capacity, slots: Slots, release: Release, runtimeBytes: int,
                                  copy: CandidateCopy)
    requires |release.paths| == |release.bytes|
  {
    && RUNTIME_PATH in release.paths && PROVISIONER_PATH in release.paths
    && Admits(capacity, ProductionInventory(slots, release.bytes, DirectoryCount(release), runtimeBytes),
              CandidateInventory(release.bytes, DirectoryCount(release), RequiredBytes(release, RUNTIME_PATH).value,
                                 RequiredBytes(release, PROVISIONER_PATH).value), copy)
  }

  /** `assertProductionArtifactCapacity` over the directories it finds and the records it read. */
  method AdmitRelease(capacity: Capacity, existing: set<string>, commit: string, revision: string, release: Release,
                      runtimeBytes: int, copy: CandidateCopy) returns (admitted: bool)
    requires |release.paths| == |release.bytes|
    ensures var slots := SlotsOf(existing, commit, revision);
      admitted <==> (slots.releaseExists && slots.runtimeExists && copy.NoCopy?) ||
                    ReleaseAdmitted(capacity, slots, release, runtimeBytes, copy)
  {
    var slots := SlotsOf(existing, commit, revision);
    if slots.releaseExists && slots.runtimeExists && copy.NoCopy? { return true; }
    var directories := DirectoriesForRelease(release.paths);
    var runtime := FindRequiredBytes(release, RUNTIME_PATH);
    var provisioner := FindRequiredBytes(release, PROVISIONER_PATH);
    if runtime.None? || provisioner.None? { return false; }
    admitted := AdmitDelivery(capacity, slots, release.bytes, |directories|, runtimeBytes,
                              CandidateInventory(release.bytes, |directories|, runtime.value, provisioner.value), copy);
  }

  /**
   An admitted delivery onto the directories that exist: the installer's copy is admitted after the
   directories it made, the publication's after the runtime, with the directory count the copy
   itself computes, and at no point of the whole delivery is a reserve touched.
   */
  lemma DeliveryIsAdmittedThroughout(
      capacity: Capacity, existing: set<string>, commit: string, revision: string, stage: string, root: string,
      release: Release, runtimeBytes: int, copy: CandidateCopy, copied: seq<Object>,
      made: seq<Use>, executable: seq<Use>, tree: seq<Use>, k: nat)
    requires capacity.blockSize > 0 && ReleaseIsInventoried(release) && runtimeBytes > 0
    requires RuntimeRoot(revision) in existing ==> BUN_ROOT in existing
    requires ReleaseRoot(commit) !in existing || RuntimeRoot(revision) !in existing
    requires ReleaseAdmitted(capacity, SlotsOf(existing, commit, revision), release, runtimeBytes, copy)
    requires Realizes(made, InstalledDirectories(existing, revision, stage), capacity.blockSize)
    requires Realizes(executable, InstalledExecutable(existing, revision, stage, runtimeBytes), capacity.blockSize)
    requires if ReleaseRoot(commit) in existing then copied == [] else CopiesTree(copied, root, release)
    requires HasContents(copied) && Realizes(tree, copied, capacity.blockSize)
    requires k <= |made + (executable + tree)|
    ensures RuntimeRoot(revision) !in existing ==> Fits(After(capacity, made), Inventory([runtimeBytes], 0))
    ensures ReleaseRoot(commit) !in existing ==>
              Fits(After(After(capacity, made), executable),
                   Inventory(release.bytes, |{root} + AllUnder(root, AllAncestors(release.paths))|))
    ensures After(capacity, (made + (executable + tree))[..k]).availableBytes >= RESERVE_BYTES
    ensures After(capacity, (made + (executable + tree))[..k]).availableInodes >= RESERVE_INODES
  {
    var slots := SlotsOf(existing, commit, revision);
    InstallerIsCharged(existing, commit, revision, stage, runtimeBytes);
    RealizedIsCreated(made, InstalledDirectories(existing, revision, stage), capacity.blockSize);
    RealizedIsCreated(executable, InstalledExecutable(existing, revision, stage, runtimeBytes), capacity.blockSize);
    RealizedIsCreated(tree, copied, capacity.blockSize);
    if !slots.releaseExists {
      TreeIsCharged(copied, root, release);
    }
    var candidate := CandidateInventory(release.bytes, DirectoryCount(release),
                                        RequiredBytes(release, RUNTIME_PATH).value,
                                        RequiredBytes(release, PROVISIONER_PATH).value);
    PartsAreAdmittedThroughout(capacity, slots, release, runtimeBytes, candidate, copy, root,
                               made, executable, tree, k);
  }

  /** The device the candidate is staged on. */
  function StagingDevice(capacity: Capacity, copy: CandidateCopy): Capacity {
    if copy.OtherDevice? then copy.capacity else capacity
  }

  /** Staging the candidate touches no reserve either, on its own device or after the production copies. */
  lemma StagingIsAdmittedThroughout(
      capacity: Capacity, slots: Slots, release: Release, runtimeBytes: int, copy: CandidateCopy, commit: string,
      stage: string, pair: string, objects: seq<Object>, tree: seq<Object>,
      before: seq<Use>, staged: seq<Use>, n: nat)
    requires capacity.blockSize > 0 && ReleaseIsInventoried(release) && runtimeBytes > 0 && !copy.NoCopy?
    requires ReleaseAdmitted(capacity, slots, release, runtimeBytes, copy)
    requires Stages(objects, tree, stage, pair, commit, release, RequiredBytes(release, RUNTIME_PATH).value,
                    RequiredBytes(release, PROVISIONER_PATH).value)
    requires var production := ProductionInventory(slots, release.bytes, DirectoryCount(release), runtimeBytes);
      if copy.OtherDevice? then before == []
      else AllPositive(production.fileBytes) && Creates(before, production, capacity.blockSize)
    requires HasContents(objects) && StagingDevice(capacity, copy).blockSize > 0
    requires Realizes(staged, objects, StagingDevice(capacity, copy).blockSize) && n <= |before + staged|
    ensures After(StagingDevice(capacity, copy), (before + staged)[..n]).availableBytes >= RESERVE_BYTES
    ensures After(StagingDevice(capacity, copy), (before + staged)[..n]).availableInodes >= RESERVE_INODES
  {
    var device := StagingDevice(capacity, copy);
    var runtime := RequiredBytes(release, RUNTIME_PATH).value;
    var provisioner := RequiredBytes(release, PROVISIONER_PATH).value;
    var candidate := CandidateInventory(release.bytes, DirectoryCount(release), runtime, provisioner);
    RequiredArePositive(release);
    StagingIsCharged(staged, objects, tree, stage, pair, commit, release, runtime, provisioner, device.blockSize);
    if copy.OtherDevice? {
      assert before + staged == staged;
      ReservesStay(device, candidate, staged, n);
    } else {
      var production := ProductionInventory(slots, release.bytes, DirectoryCount(release), runtimeBytes);
      CandidateIsAdmittedAfterProduction(capacity, production, candidate, before, |before|, staged, n);
    }
  }

  lemma RequiredArePositive(release: Release)
    requires ReleaseIsInventoried(release)
    ensures forall path :: path in release.paths ==> RequiredBytes(release, path).value > 0
  {
    forall path | path in release.paths ensures RequiredBytes(release, path).value > 0 {
      var k := FirstIndex(release.paths, path);
    }
  }

  lemma {:induction false} FirstIndex(paths: seq<string>, path: string) returns (k: nat)
    requires path in paths
    ensures k < |paths| && paths[k] == path && path !in paths[..k]
  {
    k := 0;
    if paths[0] != path {
      k := FirstIndex(paths[1..], path);
      assert paths[..k + 1] == [paths[0]] + paths[1..][..k];
      k := k + 1;
    }
  }
}
