/**
 Release trees at both limits of the inventory, which admission refuses beside their candidate
 copy on one device whatever the free space. Any files a release must have are given as its core;
 the rest is filled up below the browser directory.
 */
module LargestRelease {
  import opened ArtifactDirectories
  import opened ArtifactCapacity

  const NAMES: nat := 4096

  function Letter(n: nat): char
    requires n < 16
  {
    (97 + n) as char
  }

  /** Different three-letter names. */
  function Name(n: nat): (r: string)
    requires n < NAMES
    ensures |r| == 3 && SLASH !in r
  {
    [Letter(n / 256), Letter(n / 16 % 16), Letter(n % 16)]
  }

  lemma NamesDiffer(a: nat, b: nat)
    requires a < NAMES && b < NAMES && Name(a) == Name(b)
    ensures a == b
  {
    assert Name(a)[0] == Name(b)[0] && Name(a)[1] == Name(b)[1] && Name(a)[2] == Name(b)[2];
    assert a == a / 16 * 16 + a % 16 && b == b / 16 * 16 + b % 16;
    assert a / 16 == a / 256 * 16 + a / 16 % 16 && b / 16 == b / 256 * 16 + b / 16 % 16;
  }

  const BROWSER: string := "browser"

  function Folder(n: nat): string
    requires n < NAMES
  {
    BROWSER + [SLASH] + Name(n)
  }

  function Filler(folder: nat, file: nat): string
    requires folder < NAMES && file < NAMES
  {
    Folder(folder) + [SLASH] + Name(file)
  }

  lemma FoldersDiffer(a: nat, b: nat)
    requires a < NAMES && b < NAMES && Folder(a) == Folder(b)
    ensures a == b
  {
    assert Folder(a)[8..] == Name(a) && Folder(b)[8..] == Name(b);
    NamesDiffer(a, b);
  }

  lemma FillerSlashes(folder: nat, file: nat, i: nat)
    requires folder < NAMES && file < NAMES && i < 15
    ensures |Filler(folder, file)| == 15
    ensures Filler(folder, file)[i] == SLASH <==> i == 7 || i == 11
  {
    var path := Filler(folder, file);
    assert path == BROWSER + [SLASH] + Name(folder) + [SLASH] + Name(file);
    if i < 7 {
      assert path[i] == BROWSER[i] && SLASH !in BROWSER;
    } else if 7 < i < 11 {
      assert path[i] == Name(folder)[i - 8];
    } else if 11 < i {
      assert path[i] == Name(file)[i - 12];
    }
  }

  lemma FillerAncestors(folder: nat, file: nat)
    requires folder < NAMES && file < NAMES
    ensures WellFormed(Filler(folder, file))
    ensures Ancestors(Filler(folder, file)) == {BROWSER, Folder(folder)}
  {
    var path := Filler(folder, file);
    forall i | 0 <= i < |path| ensures path[i] == SLASH <==> i == 7 || i == 11 {
      FillerSlashes(folder, file, 0);
      FillerSlashes(folder, file, i);
    }
    FillerSlashes(folder, file, 0);
    assert path[..7] == BROWSER && path[..11] == Folder(folder);
    assert path[7] == SLASH && path[11] == SLASH;
  }

  // ---------------------------------------------------------------- padding

  /** The directories that are missing to the limit, and the files. */
  function MissingFolders(core: seq<string>): int {
    MAXIMUM_DIRECTORY_COUNT - |{""} + AllAncestors(core)|
  }

  function MissingFiles(core: seq<string>): int {
    MAXIMUM_TREE_FILE_COUNT - |core|
  }

  /** Files that leave room for the padding, with none of its folders in use. */
  ghost predicate IsCore(core: seq<string>) {
    && (forall k :: 0 <= k < |core| ==> WellFormed(core[k]))
    && BROWSER in AllAncestors(core)
    && (forall n :: 0 <= n < NAMES ==> Folder(n) !in AllAncestors(core))
    && 2 <= |core| && 0 < MissingFolders(core) <= MissingFiles(core)
  }

  /** One file after the other into each folder in turn. */
  function Fillers(folders: nat, files: nat): seq<string>
    requires 0 < folders < NAMES && files <= NAMES
  {
    seq(files, k requires 0 <= k < files => QuotientIsSmall(k, folders); Filler(k % folders, k / folders))
  }

  lemma QuotientIsSmall(k: nat, folders: nat)
    requires folders > 0
    ensures k / folders <= k
  {
    assert k == k / folders * folders + k % folders;
    Grows(k / folders, folders);
  }

  lemma Grows(a: nat, b: nat)
    requires b > 0
    ensures a <= a * b
  {
    assert a * b == a + a * (b - 1);
    Product(a, b - 1);
  }

  function FirstFolders(n: nat): set<string>
    requires n <= NAMES
  {
    if n == 0 then {} else FirstFolders(n - 1) + {Folder(n - 1)}
  }

  lemma {:induction false} FirstFoldersHold(n: nat, name: string)
    requires n <= NAMES
    ensures name in FirstFolders(n) <==> exists m :: 0 <= m < n && Folder(m) == name
  {
    if n > 0 {
      FirstFoldersHold(n - 1, name);
    }
  }

  lemma FolderIsNew(n: nat)
    requires 0 < n <= NAMES
    ensures Folder(n - 1) !in FirstFolders(n - 1)
  {
    FirstFoldersHold(n - 1, Folder(n - 1));
    if Folder(n - 1) in FirstFolders(n - 1) {
      var m :| 0 <= m < n - 1 && Folder(m) == Folder(n - 1);
      FoldersDiffer(m, n - 1);
    }
  }

  lemma {:induction false} FirstFoldersCount(n: nat)
    requires n <= NAMES
    ensures |FirstFolders(n)| == n
  {
    if n > 0 {
      FirstFoldersCount(n - 1);
      FolderIsNew(n);
    }
  }

  lemma FillerAt(folders: nat, files: nat, k: nat)
    requires 0 < folders < NAMES && k < files <= NAMES
    ensures WellFormed(Fillers(folders, files)[k])
    ensures Ancestors(Fillers(folders, files)[k]) == {BROWSER, Folder(k % folders)}
  {
    QuotientIsSmall(k, folders);
    FillerAncestors(k % folders, k / folders);
  }

  lemma SmallRemainder(m: nat, d: nat)
    requires m < d
    ensures m % d == m
  {
  }

  lemma FillersUseFolders(folders: nat, files: nat, name: string)
    requires 0 < folders < NAMES && folders <= files <= NAMES
    requires name in AllAncestors(Fillers(folders, files))
    ensures name == BROWSER || name in FirstFolders(folders)
  {
    var fillers := Fillers(folders, files);
    var k :| 0 <= k < |fillers| && name in Ancestors(fillers[k]);
    FillerAt(folders, files, k);
    FirstFoldersHold(folders, name);
  }

  lemma FoldersAreUsed(folders: nat, files: nat, name: string)
    requires 0 < folders < NAMES && folders <= files <= NAMES
    requires name == BROWSER || name in FirstFolders(folders)
    ensures name in AllAncestors(Fillers(folders, files))
  {
    FirstFoldersHold(folders, name);
    var m: nat := 0;
    if name != BROWSER {
      m :| 0 <= m < folders && Folder(m) == name;
    }
    SmallRemainder(m, folders);
    FillerAt(folders, files, m);
    assert name in Ancestors(Fillers(folders, files)[m]);
  }

  lemma FillersFolder(folders: nat, files: nat, name: string)
    requires 0 < folders < NAMES && folders <= files <= NAMES
    ensures name in AllAncestors(Fillers(folders, files)) <==> name == BROWSER || name in FirstFolders(folders)
  {
    if name in AllAncestors(Fillers(folders, files)) {
      FillersUseFolders(folders, files, name);
    }
    if name == BROWSER || name in FirstFolders(folders) {
      FoldersAreUsed(folders, files, name);
    }
  }

  lemma AncestorsOfBoth(a: seq<string>, b: seq<string>)
    ensures AllAncestors(a + b) == AllAncestors(a) + AllAncestors(b)
  {
    var both := a + b;
    forall name | name in AllAncestors(a) ensures name in AllAncestors(both) {
      var k :| 0 <= k < |a| && name in Ancestors(a[k]);
      assert both[k] == a[k];
    }
    forall name | name in AllAncestors(b) ensures name in AllAncestors(both) {
      var k :| 0 <= k < |b| && name in Ancestors(b[k]);
      assert both[|a| + k] == b[k];
    }
  }

  function Padded(core: seq<string>): Release
    requires IsCore(core)
  {
    CoreBounds(core);
    Release(core + Fillers(MissingFolders(core), MissingFiles(core)), seq(MAXIMUM_TREE_FILE_COUNT, _ => 1))
  }

  lemma CoreBounds(core: seq<string>)
    requires IsCore(core)
    ensures 0 < MissingFolders(core) < NAMES && MissingFiles(core) <= NAMES
  {
    assert "" in {""} + AllAncestors(core);
  }

  lemma PaddedDirectories(core: seq<string>)
    requires IsCore(core)
    ensures DirectoryCount(Padded(core)) == MAXIMUM_DIRECTORY_COUNT
  {
    CoreBounds(core);
    var folders, files := MissingFolders(core), MissingFiles(core);
    var used := {""} + AllAncestors(core);
    AncestorsOfBoth(core, Fillers(folders, files));
    forall name
      ensures name in AllAncestors(Fillers(folders, files)) <==> name == BROWSER || name in FirstFolders(folders)
    {
      FillersFolder(folders, files, name);
    }
    forall name | name in FirstFolders(folders) ensures name !in used {
      FirstFoldersHold(folders, name);
    }
    FirstFoldersCount(folders);
    assert {""} + AllAncestors(Padded(core).paths) == used + FirstFolders(folders);
    assert used !! FirstFolders(folders);
  }

  lemma PaddedIsInventoried(core: seq<string>)
    requires IsCore(core)
    ensures ReleaseIsInventoried(Padded(core)) && |Padded(core).paths| == MAXIMUM_TREE_FILE_COUNT
  {
    CoreBounds(core);
    var folders, files := MissingFolders(core), MissingFiles(core);
    var paths := Padded(core).paths;
    forall k | 0 <= k < |paths| ensures WellFormed(paths[k]) {
      if k >= |core| {
        FillerAt(folders, files, k - |core|);
        assert paths[k] == Fillers(folders, files)[k - |core|];
      } else {
        assert paths[k] == core[k];
      }
    }
  }

  /** Every file beside the core lies below the browser directory. */
  lemma PaddingIsBelowBrowser(core: seq<string>, k: nat)
    requires IsCore(core) && |core| <= k < |Padded(core).paths|
    ensures BROWSER in Ancestors(Padded(core).paths[k])
  {
    CoreBounds(core);
    FillerAt(MissingFolders(core), MissingFiles(core), k - |core|);
  }

  lemma RefusedWhenLarge(capacity: Capacity, slots: Slots, release: Release, runtimeBytes: int)
    requires ReleaseIsInventoried(release) && DirectoryCount(release) == MAXIMUM_DIRECTORY_COUNT
    requires |release.bytes| == MAXIMUM_TREE_FILE_COUNT && !slots.releaseExists && runtimeBytes > 0
    ensures !Admits(capacity, ProductionInventory(slots, release.bytes, DirectoryCount(release), runtimeBytes),
                    CandidateInventory(release.bytes, DirectoryCount(release), 1, 1), SameDevice)
  {
    CombinedObjectLimit(slots, release, runtimeBytes, 1, 1);
  }

  /**
   Whatever files a release must have, it can be filled up to both limits of its inventory, and is
   then refused at every capacity.
   */
  lemma LargestIsRefused(core: seq<string>, capacity: Capacity, slots: Slots, runtimeBytes: int)
    requires IsCore(core) && !slots.releaseExists && runtimeBytes > 0
    ensures core <= Padded(core).paths && |Padded(core).paths| == MAXIMUM_TREE_FILE_COUNT
    ensures ReleaseIsInventoried(Padded(core)) && DirectoryCount(Padded(core)) == MAXIMUM_DIRECTORY_COUNT
    ensures !Admits(capacity,
                    ProductionInventory(slots, Padded(core).bytes, DirectoryCount(Padded(core)), runtimeBytes),
                    CandidateInventory(Padded(core).bytes, DirectoryCount(Padded(core)), 1, 1), SameDevice)
  {
    PaddedIsInventoried(core);
    PaddedDirectories(core);
    RefusedWhenLarge(capacity, slots, Padded(core), runtimeBytes);
  }

  // ---------------------------------------------------------------- a core

  /** The two identity files, and one file of each part that a capacity decision reads. */
  function SmallCore(): seq<string> {
    ["release-manifest.json", "release-descriptor.json", "browser/index.html", "runtime/bun",
     "server/productionProvisioning.js"]
  }

  lemma OneFolder(folder: string, file: string)
    requires folder != "" && file != "" && SLASH !in folder && SLASH !in file
    ensures WellFormed(folder + [SLASH] + file) && Ancestors(folder + [SLASH] + file) == {folder}
  {
    var path := folder + [SLASH] + file;
    var n := |folder|;
    assert path[n] == SLASH && path[..n] == folder;
    forall i | 0 <= i < |path| && i != n ensures path[i] != SLASH {
      if i < n { assert path[i] == folder[i]; } else { assert path[i] == file[i - n - 1]; }
    }
  }

  lemma NoFolder(file: string)
    requires file != "" && SLASH !in file
    ensures WellFormed(file) && Ancestors(file) == {}
  {
  }

  lemma RootFiles(core: seq<string>)
    requires core == SmallCore()
    ensures WellFormed(core[0]) && Ancestors(core[0]) == {}
    ensures WellFormed(core[1]) && Ancestors(core[1]) == {}
  {
    NoFolder("release-manifest.json");
    NoFolder("release-descriptor.json");
  }

  lemma FolderFiles(core: seq<string>)
    requires core == SmallCore()
    ensures WellFormed(core[2]) && Ancestors(core[2]) == {BROWSER}
    ensures WellFormed(core[3]) && Ancestors(core[3]) == {"runtime"}
  {
    assert core[2] == BROWSER + [SLASH] + "index.html";
    OneFolder(BROWSER, "index.html");
    assert core[3] == "runtime" + [SLASH] + "bun";
    OneFolder("runtime", "bun");
  }

  lemma ServerFile(core: seq<string>)
    requires core == SmallCore()
    ensures WellFormed(core[4]) && Ancestors(core[4]) == {"server"}
  {
    assert core[4] == "server" + [SLASH] + "productionProvisioning.js";
    OneFolder("server", "productionProvisioning.js");
  }

  lemma AncestorsOfFive(core: seq<string>)
    requires |core| == 5 && Ancestors(core[0]) == {} && Ancestors(core[1]) == {}
    requires Ancestors(core[2]) == {BROWSER} && Ancestors(core[3]) == {"runtime"} && Ancestors(core[4]) == {"server"}
    ensures AllAncestors(core) == {BROWSER, "runtime", "server"}
  {
    assert BROWSER in Ancestors(core[2]) && "runtime" in Ancestors(core[3]) && "server" in Ancestors(core[4]);
  }

  lemma SmallCoreAncestors(core: seq<string>)
    requires core == SmallCore()
    ensures AllAncestors(core) == {BROWSER, "runtime", "server"}
    ensures forall k :: 0 <= k < |core| ==> WellFormed(core[k])
  {
    RootFiles(core);
    FolderFiles(core);
    ServerFile(core);
    AncestorsOfFive(core);
  }

  lemma SmallCoreIsCore(core: seq<string>)
    requires core == SmallCore()
    ensures IsCore(core)
  {
    SmallCoreAncestors(core);
    forall n | 0 <= n < NAMES ensures Folder(n) !in AllAncestors(core) {
      assert |Folder(n)| == 11;
    }
    var used := {"", BROWSER, "runtime", "server"};
    assert |used| == 4;
    assert {""} + AllAncestors(core) == used;
  }

  /** Trees that pass the cap on an archive's listing pass the object limit in every slot state. */
  lemma ArchivedTreesPass(slots: Slots, release: Release, runtimeBytes: int, bundledRuntime: int, provisioner: int)
    requires ReleaseIsInventoried(release) && DirectoryCount(release) <= MAXIMUM_DIRECTORY_COUNT
    requires runtimeBytes > 0 && bundledRuntime > 0 && provisioner > 0
    requires |release.paths| + DirectoryCount(release) <= MAXIMUM_ARTIFACT_COUNT + MAXIMUM_DIRECTORY_COUNT
    ensures WellCounted(
              Both(ProductionInventory(slots, release.bytes, DirectoryCount(release), runtimeBytes),
                   CandidateInventory(release.bytes, DirectoryCount(release), bundledRuntime, provisioner)))
  {
    CombinedObjectLimit(slots, release, runtimeBytes, bundledRuntime, provisioner);
  }
}
