/**
 Capacity admission of immutable copies, and why the admission of a whole delivery implies
 every later admission on the way and keeps the reserves.
 */
module ArtifactCapacity {
  import opened Outcomes
  import opened ArtifactDirectories

  const MAXIMUM_ARTIFACT_COUNT: nat := 4096
  const MAXIMUM_TREE_FILE_COUNT: nat := MAXIMUM_ARTIFACT_COUNT + 2
  const MAXIMUM_DIRECTORY_COUNT: nat := 512
  const MAXIMUM_CAPACITY_OBJECTS: nat := 2 * (MAXIMUM_ARTIFACT_COUNT + MAXIMUM_DIRECTORY_COUNT) + 8
  const MAXIMUM_RUNTIME_BYTES: nat := 256 * 1024 * 1024
  const MAXIMUM_ARCHIVE_BYTES: nat := 544 * 1024 * 1024
  const RESERVE_BYTES: nat := 64 * 1024 * 1024
  const RESERVE_INODES: nat := 64

  datatype Capacity = Capacity(availableBytes: int, availableInodes: int, blockSize: int)

  datatype Inventory = Inventory(fileBytes: seq<int>, newDirectories: int)

  /** The least multiple of the block size that holds the bytes. */
  function RoundedAllocation(bytes: int, blockSize: int): (r: int)
    requires bytes > 0 && blockSize > 0
    ensures r % blockSize == 0 && bytes <= r < bytes + blockSize
  {
    var n := bytes + blockSize - 1;
    RoundingFacts(n, blockSize);
    (n / blockSize) * blockSize
  }

  lemma RoundingFacts(n: int, d: int)
    requires d > 0 && n >= 0
    ensures ((n / d) * d) % d == 0 && n - d < (n / d) * d <= n
  {
    assert n == (n / d) * d + n % d;
    MultipleHasNoRest(n / d, d);
  }

  lemma Gap(gap: int, d: int)
    requires gap > 0 && d > 0
    ensures gap * d >= d
  {
    assert gap * d == (gap - 1) * d + d;
  }

  lemma MultipleHasNoRest(q: int, d: int)
    requires d > 0
    ensures (q * d) % d == 0
  {
    var m := q * d;
    var k := m / d;
    assert m == k * d + m % d;
    Distribute(q - k, k, d);
    Distribute(k - q, q, d);
    if q > k { Gap(q - k, d); }
    if q < k { Gap(k - q, d); }
  }

  ghost predicate AllPositive(fileBytes: seq<int>) {
    forall i :: 0 <= i < |fileBytes| ==> fileBytes[i] > 0
  }

  function Allocation(fileBytes: seq<int>, blockSize: int): int
    requires blockSize > 0 && AllPositive(fileBytes)
  {
    if fileBytes == [] then 0
    else
      var n := |fileBytes| - 1;
      assert forall i :: 0 <= i < n ==> fileBytes[..n][i] == fileBytes[i];
      Allocation(fileBytes[..n], blockSize) + RoundedAllocation(fileBytes[n], blockSize)
  }

  function ObjectCount(inventory: Inventory): int {
    |inventory.fileBytes| + inventory.newDirectories
  }

  ghost predicate WellCounted(inventory: Inventory) {
    && 0 < |inventory.fileBytes| <= MAXIMUM_CAPACITY_OBJECTS
    && inventory.newDirectories >= 0
    && ObjectCount(inventory) <= MAXIMUM_CAPACITY_OBJECTS
    && AllPositive(inventory.fileBytes)
  }

  function Required(inventory: Inventory, blockSize: int): int
    requires blockSize > 0 && AllPositive(inventory.fileBytes)
  {
    Allocation(inventory.fileBytes, blockSize) + ObjectCount(inventory) * blockSize
  }

  ghost predicate Fits(capacity: Capacity, inventory: Inventory) {
    && capacity.blockSize > 0
    && WellCounted(inventory)
    && capacity.availableBytes >= Required(inventory, capacity.blockSize) + RESERVE_BYTES
    && capacity.availableInodes >= ObjectCount(inventory) + RESERVE_INODES
  }

  /** `assertFitsCapacity`: one pass over the files, then two comparisons. */
  method FitsCapacity(capacity: Capacity, inventory: Inventory) returns (fits: bool)
    ensures fits <==> Fits(capacity, inventory)
  {
    var files := |inventory.fileBytes|;
    var objectCount := files + inventory.newDirectories;
    if capacity.availableBytes < 0 || capacity.availableInodes < 0 || capacity.blockSize <= 0 ||
       files == 0 || files > MAXIMUM_CAPACITY_OBJECTS || inventory.newDirectories < 0 ||
       objectCount > MAXIMUM_CAPACITY_OBJECTS {
      RequiredIsPositive(capacity, inventory);
      return false;
    }
    var allocation := 0;
    for n := 0 to files
      invariant AllPositive(inventory.fileBytes[..n])
      invariant allocation == Allocation(inventory.fileBytes[..n], capacity.blockSize)
    {
      if inventory.fileBytes[n] <= 0 { return false; }
      assert inventory.fileBytes[..n + 1][..n] == inventory.fileBytes[..n];
      allocation := allocation + RoundedAllocation(inventory.fileBytes[n], capacity.blockSize);
    }
    assert inventory.fileBytes[..files] == inventory.fileBytes;
    var required := allocation + objectCount * capacity.blockSize;
    fits := capacity.availableBytes >= required + RESERVE_BYTES &&
            capacity.availableInodes >= objectCount + RESERVE_INODES;
  }

  lemma {:induction false} AllocationIsPositive(fileBytes: seq<int>, blockSize: int)
    requires blockSize > 0 && AllPositive(fileBytes)
    ensures Allocation(fileBytes, blockSize) >= 0
  {
    if fileBytes != [] {
      var n := |fileBytes| - 1;
      assert forall i :: 0 <= i < n ==> fileBytes[..n][i] == fileBytes[i];
      AllocationIsPositive(fileBytes[..n], blockSize);
    }
  }

  lemma Product(a: int, b: int)
    requires a >= 0 && b >= 0
    ensures a * b >= 0
  {
  }

  lemma RequiredIsPositive(capacity: Capacity, inventory: Inventory)
    ensures Fits(capacity, inventory) ==> capacity.availableBytes >= 0 && capacity.availableInodes >= 0
  {
    if Fits(capacity, inventory) {
      AllocationIsPositive(inventory.fileBytes, capacity.blockSize);
      Product(ObjectCount(inventory), capacity.blockSize);
    }
  }

  // ---------------------------------------------------------------- consumption

  /** One created file or directory: what admission charged for it and what it takes. */
  datatype Use = Use(charge: int, bytes: int, inodes: int)

  /** The charge of every object of an inventory, in any order. */
  function Charges(inventory: Inventory, blockSize: int): seq<int>
    requires blockSize > 0 && AllPositive(inventory.fileBytes) && inventory.newDirectories >= 0
  {
    FileCharges(inventory.fileBytes, blockSize) + seq(inventory.newDirectories, _ => blockSize)
  }

  function FileCharges(fileBytes: seq<int>, blockSize: int): seq<int>
    requires blockSize > 0 && AllPositive(fileBytes)
  {
    seq(|fileBytes|, i requires 0 <= i < |fileBytes| => RoundedAllocation(fileBytes[i], blockSize) + blockSize)
  }

  function Sum(charges: seq<int>): int {
    if charges == [] then 0 else Sum(charges[..|charges| - 1]) + charges[|charges| - 1]
  }

  function BytesUsed(uses: seq<Use>): int {
    if uses == [] then 0 else BytesUsed(uses[..|uses| - 1]) + uses[|uses| - 1].bytes
  }

  function InodesUsed(uses: seq<Use>): int {
    if uses == [] then 0 else InodesUsed(uses[..|uses| - 1]) + uses[|uses| - 1].inodes
  }

  function ChargesOf(uses: seq<Use>): seq<int> {
    seq(|uses|, i requires 0 <= i < |uses| => uses[i].charge)
  }

  predicate WithinCharge(use: Use) {
    0 <= use.bytes <= use.charge && 0 <= use.inodes <= 1
  }

  ghost predicate AllWithin(uses: seq<Use>) {
    forall i :: 0 <= i < |uses| ==> WithinCharge(uses[i])
  }

  /** The objects of the inventory are created in some order, each within its charge. */
  ghost predicate Creates(uses: seq<Use>, inventory: Inventory, blockSize: int)
    requires blockSize > 0 && AllPositive(inventory.fileBytes) && inventory.newDirectories >= 0
  {
    multiset(ChargesOf(uses)) == multiset(Charges(inventory, blockSize)) && AllWithin(uses)
  }

  function After(capacity: Capacity, uses: seq<Use>): Capacity {
    capacity.(availableBytes := capacity.availableBytes - BytesUsed(uses),
              availableInodes := capacity.availableInodes - InodesUsed(uses))
  }

  lemma {:induction false} SumOfConcat(a: seq<int>, b: seq<int>)
    ensures Sum(a + b) == Sum(a) + Sum(b)
  {
    if b == [] {
      assert a + b == a;
    } else {
      assert (a + b)[..|a + b| - 1] == a + b[..|b| - 1];
      SumOfConcat(a, b[..|b| - 1]);
    }
  }

  lemma SumOfThree(a: seq<int>, x: int, b: seq<int>)
    ensures Sum(a + [x] + b) == Sum(a + b) + x
  {
    SumOfConcat(a + [x], b);
    SumOfConcat(a, [x]);
    SumOfConcat(a, b);
    assert Sum([x]) == x;
  }

  lemma BagOfThree(a: seq<int>, x: int, b: seq<int>)
    ensures multiset(a + [x] + b) == multiset(a + b) + multiset{x}
  {
  }

  lemma TakeOut(charges: seq<int>, x: int) returns (before: seq<int>, after: seq<int>)
    requires x in charges
    ensures charges == before + [x] + after
  {
    var i :| 0 <= i < |charges| && charges[i] == x;
    before, after := charges[..i], charges[i + 1..];
  }

  /** A sum does not depend on the order. */
  lemma {:induction false} SumOfPermutation(a: seq<int>, b: seq<int>)
    requires multiset(a) == multiset(b)
    ensures Sum(a) == Sum(b)
    decreases |a|
  {
    if a == [] {
      assert |multiset(b)| == 0;
    } else {
      var front, x := a[..|a| - 1], a[|a| - 1];
      assert a == front + [x] + [] && front + [] == front;
      assert x in multiset(b);
      var before, after := TakeOut(b, x);
      BagOfThree(front, x, []);
      BagOfThree(before, x, after);
      SameRest(multiset(front), multiset(before + after), x);
      SumOfPermutation(front, before + after);
      SumOfThree(before, x, after);
    }
  }

  lemma SameRest(a: multiset<int>, b: multiset<int>, x: int)
    requires a + multiset{x} == b + multiset{x}
    ensures a == b
  {
    assert a == a + multiset{x} - multiset{x};
    assert b == b + multiset{x} - multiset{x};
  }

  lemma {:induction false} SumOfFiles(fileBytes: seq<int>, blockSize: int)
    requires blockSize > 0 && AllPositive(fileBytes)
    ensures Sum(FileCharges(fileBytes, blockSize)) == Allocation(fileBytes, blockSize) + |fileBytes| * blockSize
  {
    if fileBytes != [] {
      var n := |fileBytes| - 1;
      assert forall i :: 0 <= i < n ==> fileBytes[..n][i] == fileBytes[i];
      SumOfFiles(fileBytes[..n], blockSize);
      assert FileCharges(fileBytes, blockSize)[..n] == FileCharges(fileBytes[..n], blockSize);
      Distribute(n, 1, blockSize);
    }
  }

  lemma {:induction false} SumOfEqual(count: nat, charge: int)
    ensures Sum(seq(count, _ => charge)) == count * charge
  {
    if count > 0 {
      assert seq(count, _ => charge)[..count - 1] == seq(count - 1, _ => charge);
      SumOfEqual(count - 1, charge);
      assert count * charge == (count - 1) * charge + charge;
    }
  }

  /** The admitted requirement is exactly the sum of the charges. */
  lemma RequiredIsTheCharges(inventory: Inventory, blockSize: int)
    requires blockSize > 0 && AllPositive(inventory.fileBytes) && inventory.newDirectories >= 0
    ensures Sum(Charges(inventory, blockSize)) == Required(inventory, blockSize)
    ensures |Charges(inventory, blockSize)| == ObjectCount(inventory)
  {
    SumOfConcat(FileCharges(inventory.fileBytes, blockSize), seq(inventory.newDirectories, _ => blockSize));
    SumOfFiles(inventory.fileBytes, blockSize);
    SumOfEqual(inventory.newDirectories, blockSize);
    Distribute(|inventory.fileBytes|, inventory.newDirectories, blockSize);
  }

  lemma Distribute(a: int, b: int, c: int)
    ensures (a + b) * c == a * c + b * c
  {
  }

  lemma {:induction false} UseIsBounded(uses: seq<Use>)
    requires AllWithin(uses)
    ensures 0 <= BytesUsed(uses) <= Sum(ChargesOf(uses)) && 0 <= InodesUsed(uses) <= |uses|
  {
    if uses != [] {
      var n := |uses| - 1;
      forall i | 0 <= i < n ensures WithinCharge(uses[..n][i]) {
        assert WithinCharge(uses[i]);
      }
      UseIsBounded(uses[..n]);
      assert ChargesOf(uses)[..n] == ChargesOf(uses[..n]);
      assert WithinCharge(uses[n]);
    }
  }

  lemma {:induction false} PrefixIsSmaller(uses: seq<Use>, k: nat)
    requires AllWithin(uses) && k <= |uses|
    ensures BytesUsed(uses[..k]) <= BytesUsed(uses) && InodesUsed(uses[..k]) <= InodesUsed(uses)
    decreases |uses| - k
  {
    if k == |uses| {
      assert uses[..k] == uses;
    } else {
      PrefixIsSmaller(uses, k + 1);
      assert uses[..k + 1][..k] == uses[..k];
      assert WithinCharge(uses[k]);
    }
  }

  /** However the objects of an inventory are created, a prefix takes at most the requirement. */
  lemma CreationIsBounded(uses: seq<Use>, inventory: Inventory, blockSize: int, k: nat)
    requires blockSize > 0 && AllPositive(inventory.fileBytes) && inventory.newDirectories >= 0
    requires Creates(uses, inventory, blockSize) && k <= |uses|
    ensures BytesUsed(uses[..k]) <= Required(inventory, blockSize)
    ensures InodesUsed(uses[..k]) <= ObjectCount(inventory)
  {
    SumOfPermutation(ChargesOf(uses), Charges(inventory, blockSize));
    assert |multiset(ChargesOf(uses))| == |multiset(Charges(inventory, blockSize))|;
    RequiredIsTheCharges(inventory, blockSize);
    UseIsBounded(uses);
    PrefixIsSmaller(uses, k);
  }

  /** After admission the reserves are intact at every prefix of the copy. */
  lemma ReservesStay(capacity: Capacity, inventory: Inventory, uses: seq<Use>, k: nat)
    requires Fits(capacity, inventory) && Creates(uses, inventory, capacity.blockSize) && k <= |uses|
    ensures After(capacity, uses[..k]).availableBytes >= RESERVE_BYTES
    ensures After(capacity, uses[..k]).availableInodes >= RESERVE_INODES
  {
    CreationIsBounded(uses, inventory, capacity.blockSize, k);
  }

  // ---------------------------------------------------------------- composition

  function Both(first: Inventory, second: Inventory): Inventory {
    Inventory(first.fileBytes + second.fileBytes, first.newDirectories + second.newDirectories)
  }

  lemma {:induction false} AllocationOfConcat(a: seq<int>, b: seq<int>, blockSize: int)
    requires blockSize > 0 && AllPositive(a) && AllPositive(b) && AllPositive(a + b)
    ensures Allocation(a + b, blockSize) == Allocation(a, blockSize) + Allocation(b, blockSize)
  {
    if b == [] {
      assert a + b == a;
    } else {
      var n := |b| - 1;
      assert (a + b)[..|a| + n] == a + b[..n];
      assert forall i :: 0 <= i < n ==> b[..n][i] == b[i];
      assert forall i :: 0 <= i < |a| + n ==> (a + b)[..|a| + n][i] == (a + b)[i];
      AllocationOfConcat(a, b[..n], blockSize);
    }
  }

  lemma PartsArePositive(a: seq<int>, b: seq<int>)
    requires AllPositive(a + b)
    ensures AllPositive(a) && AllPositive(b)
  {
    forall i | 0 <= i < |a| ensures a[i] > 0 { assert (a + b)[i] == a[i]; }
    forall i | 0 <= i < |b| ensures b[i] > 0 { assert (a + b)[|a| + i] == b[i]; }
  }

  lemma RequiredOfBoth(first: Inventory, second: Inventory, blockSize: int)
    requires blockSize > 0 && AllPositive(Both(first, second).fileBytes)
    ensures AllPositive(first.fileBytes) && AllPositive(second.fileBytes)
    ensures Required(Both(first, second), blockSize) == Required(first, blockSize) + Required(second, blockSize)
  {
    PartsArePositive(first.fileBytes, second.fileBytes);
    AllocationOfConcat(first.fileBytes, second.fileBytes, blockSize);
    Distribute(ObjectCount(first), ObjectCount(second), blockSize);
  }

  /**
   Admission composes: once both inventories are admitted together, the second is admitted at
   every moment while the first is being created.
   */
  lemma RemainderFits(capacity: Capacity, first: Inventory, second: Inventory, uses: seq<Use>, k: nat)
    requires Fits(capacity, Both(first, second)) && first.newDirectories >= 0
    requires second.newDirectories >= 0 && second.fileBytes != []
    requires AllPositive(first.fileBytes) && Creates(uses, first, capacity.blockSize) && k <= |uses|
    ensures Fits(After(capacity, uses[..k]), second)
  {
    RequiredOfBoth(first, second, capacity.blockSize);
    CreationIsBounded(uses, first, capacity.blockSize, k);
  }

  /** The order of two parts does not matter, and each part with files fits alone. */
  lemma PartsFit(capacity: Capacity, first: Inventory, second: Inventory)
    requires Fits(capacity, Both(first, second)) && first.newDirectories >= 0 && second.newDirectories >= 0
    ensures Fits(capacity, Both(second, first))
    ensures second.fileBytes != [] ==> Fits(capacity, second)
  {
    var block := capacity.blockSize;
    RequiredOfBoth(first, second, block);
    forall i | 0 <= i < |second.fileBytes + first.fileBytes| ensures (second.fileBytes + first.fileBytes)[i] > 0 {
    }
    RequiredOfBoth(second, first, block);
    AllocationIsPositive(first.fileBytes, block);
    Product(ObjectCount(first), block);
  }

  // ---------------------------------------------------------------- a delivery

  datatype Release = Release(paths: seq<string>, bytes: seq<int>)

  /** Which slots are already filled by an immutable artifact. */
  datatype Slots = Slots(releaseExists: bool, runtimeExists: bool, bunRootExists: bool)

  /** Where the additional candidate copy of the release goes. */
  datatype CandidateCopy = NoCopy | SameDevice | OtherDevice(capacity: Capacity)

  ghost predicate ReleaseIsInventoried(release: Release) {
    && 0 < |release.paths| == |release.bytes| <= MAXIMUM_TREE_FILE_COUNT
    && AllPositive(release.bytes)
    && forall k :: 0 <= k < |release.paths| ==> WellFormed(release.paths[k])
  }

  function DirectoryCount(release: Release): nat {
    |{""} + AllAncestors(release.paths)|
  }

  function RuntimePart(slots: Slots, runtimeBytes: int): Inventory {
    if slots.runtimeExists then Inventory([], 0)
    else Inventory([runtimeBytes], if slots.bunRootExists then 1 else 2)
  }

  function ReleasePart(slots: Slots, bytes: seq<int>, directories: nat): Inventory {
    if slots.releaseExists then Inventory([], 0) else Inventory(bytes, directories)
  }

  function ProductionInventory(slots: Slots, bytes: seq<int>, directories: nat, runtimeBytes: int): Inventory {
    Both(ReleasePart(slots, bytes, directories), RuntimePart(slots, runtimeBytes))
  }

  /** The candidate: the tree, the archive, its own runtime and its provisioning entry point. */
  function CandidateInventory(bytes: seq<int>, directories: nat, bundledRuntime: int, provisioner: int): Inventory {
    Inventory(bytes + [MAXIMUM_ARCHIVE_BYTES, bundledRuntime, provisioner], directories + 2)
  }

  predicate HasObjects(inventory: Inventory) {
    |inventory.fileBytes| > 0 || inventory.newDirectories > 0
  }

  /** What the outer admission decides about space. */
  ghost predicate Admits(capacity: Capacity, production: Inventory, candidate: Inventory, copy: CandidateCopy) {
    match copy
    case NoCopy => HasObjects(production) ==> Fits(capacity, production)
    case SameDevice => Fits(capacity, Both(production, candidate))
    case OtherDevice(other) => (HasObjects(production) ==> Fits(capacity, production)) && Fits(other, candidate)
  }

  /** The space decision of `assertProductionArtifactCapacity`, with its early returns. */
  method AdmitDelivery(capacity: Capacity, slots: Slots, bytes: seq<int>, directories: nat, runtimeBytes: int,
                       candidate: Inventory, copy: CandidateCopy) returns (admitted: bool)
    ensures admitted <==>
            Admits(capacity, ProductionInventory(slots, bytes, directories, runtimeBytes), candidate, copy)
  {
    if slots.releaseExists && slots.runtimeExists && copy.NoCopy? { return true; }
    var production := ProductionInventory(slots, bytes, directories, runtimeBytes);
    match copy {
      case NoCopy =>
        if !HasObjects(production) { return true; }
        admitted := FitsCapacity(capacity, production);
      case SameDevice =>
        admitted := FitsCapacity(capacity, Both(production, candidate));
      case OtherDevice(other) =>
        if HasObjects(production) {
          admitted := FitsCapacity(capacity, production);
          if !admitted { return; }
        }
        admitted := FitsCapacity(other, candidate);
    }
  }

  function RuntimeDirectories(slots: Slots): Inventory {
    Inventory([], RuntimePart(slots, 1).newDirectories)
  }

  function RuntimeFile(slots: Slots, runtimeBytes: int): Inventory {
    Inventory(RuntimePart(slots, runtimeBytes).fileBytes, 0)
  }

  /** The objects of a delivery in the order in which they are made: directories, runtime, tree. */
  ghost predicate Delivers(slots: Slots, release: Release, runtimeBytes: int, blockSize: int,
                           made: seq<Use>, executable: seq<Use>, tree: seq<Use>)
    requires blockSize > 0 && ReleaseIsInventoried(release) && runtimeBytes > 0
  {
    && Creates(made, RuntimeDirectories(slots), blockSize)
    && Creates(executable, RuntimeFile(slots, runtimeBytes), blockSize)
    && Creates(tree, ReleasePart(slots, release.bytes, DirectoryCount(release)), blockSize)
  }

  lemma PartsMakeProduction(slots: Slots, bytes: seq<int>, directories: nat, runtimeBytes: int)
    ensures Both(RuntimeDirectories(slots),
                 Both(ReleasePart(slots, bytes, directories), RuntimeFile(slots, runtimeBytes))) ==
            ProductionInventory(slots, bytes, directories, runtimeBytes)
  {
  }

  /** The runtime's directories come first: after them its copy is admitted. */
  lemma RuntimeCopyIsAdmitted(capacity: Capacity, slots: Slots, bytes: seq<int>, directories: nat, runtimeBytes: int,
                              made: seq<Use>)
    requires bytes != [] && AllPositive(bytes) && runtimeBytes > 0
    requires Fits(capacity, ProductionInventory(slots, bytes, directories, runtimeBytes))
    requires Creates(made, RuntimeDirectories(slots), capacity.blockSize)
    ensures Fits(After(capacity, made), Both(RuntimeFile(slots, runtimeBytes), ReleasePart(slots, bytes, directories)))
    ensures !slots.runtimeExists ==> Fits(After(capacity, made), Inventory([runtimeBytes], 0))
  {
    var tree, file := ReleasePart(slots, bytes, directories), RuntimeFile(slots, runtimeBytes);
    PartsMakeProduction(slots, bytes, directories, runtimeBytes);
    assert made[..|made|] == made;
    assert Both(tree, file).fileBytes == ProductionInventory(slots, bytes, directories, runtimeBytes).fileBytes;
    RemainderFits(capacity, RuntimeDirectories(slots), Both(tree, file), made, |made|);
    PartsFit(After(capacity, made), tree, file);
  }

  lemma ReleaseCopyIsAdmitted(capacity: Capacity, slots: Slots, bytes: seq<int>, directories: nat, runtimeBytes: int,
                              executable: seq<Use>)
    requires bytes != [] && AllPositive(bytes) && runtimeBytes > 0 && !slots.releaseExists
    requires Fits(capacity, Both(RuntimeFile(slots, runtimeBytes), ReleasePart(slots, bytes, directories)))
    requires Creates(executable, RuntimeFile(slots, runtimeBytes), capacity.blockSize)
    ensures Fits(After(capacity, executable), Inventory(bytes, directories))
  {
    assert executable[..|executable|] == executable;
    RemainderFits(capacity, RuntimeFile(slots, runtimeBytes), ReleasePart(slots, bytes, directories),
                  executable, |executable|);
  }

  lemma FileChargesOfBoth(a: seq<int>, b: seq<int>, blockSize: int)
    requires blockSize > 0 && AllPositive(a) && AllPositive(b) && AllPositive(a + b)
    ensures FileCharges(a + b, blockSize) == FileCharges(a, blockSize) + FileCharges(b, blockSize)
  {
  }

  lemma BagOfFour(a: multiset<int>, b: multiset<int>, c: multiset<int>, d: multiset<int>)
    ensures (a + b) + (c + d) == (a + c) + (b + d)
  {
  }

  /** The charges of two inventories together are the charges of both. */
  lemma ChargesOfBoth(first: Inventory, second: Inventory, blockSize: int)
    requires blockSize > 0 && AllPositive(first.fileBytes) && AllPositive(second.fileBytes)
    requires first.newDirectories >= 0 && second.newDirectories >= 0
    ensures AllPositive(Both(first, second).fileBytes)
    ensures multiset(Charges(Both(first, second), blockSize)) ==
            multiset(Charges(first, blockSize)) + multiset(Charges(second, blockSize))
  {
    var files := first.fileBytes + second.fileBytes;
    forall i | 0 <= i < |files| ensures files[i] > 0 {
    }
    FileChargesOfBoth(first.fileBytes, second.fileBytes, blockSize);
    var some, others := seq(first.newDirectories, _ => blockSize), seq(second.newDirectories, _ => blockSize);
    assert seq(first.newDirectories + second.newDirectories, _ => blockSize) == some + others;
    BagOfFour(multiset(FileCharges(first.fileBytes, blockSize)), multiset(FileCharges(second.fileBytes, blockSize)),
              multiset(some), multiset(others));
  }

  /** Creating one inventory and then another creates both. */
  lemma CreatesBoth(a: seq<Use>, first: Inventory, b: seq<Use>, second: Inventory, blockSize: int)
    requires blockSize > 0 && AllPositive(first.fileBytes) && AllPositive(second.fileBytes)
    requires first.newDirectories >= 0 && second.newDirectories >= 0
    requires Creates(a, first, blockSize) && Creates(b, second, blockSize)
    ensures AllPositive(Both(first, second).fileBytes) && Creates(a + b, Both(first, second), blockSize)
  {
    ChargesOfBoth(first, second, blockSize);
    assert ChargesOf(a + b) == ChargesOf(a) + ChargesOf(b);
    forall i | 0 <= i < |a + b| ensures WithinCharge((a + b)[i]) {
      if i < |a| { assert WithinCharge(a[i]); } else { assert WithinCharge(b[i - |a|]); }
    }
  }

  lemma SameBothCharges(first: Inventory, second: Inventory, uses: seq<Use>, blockSize: int)
    requires blockSize > 0 && AllPositive(first.fileBytes) && AllPositive(second.fileBytes)
    requires first.newDirectories >= 0 && second.newDirectories >= 0
    requires AllPositive(Both(first, second).fileBytes) && Creates(uses, Both(first, second), blockSize)
    ensures AllPositive(Both(second, first).fileBytes) && Creates(uses, Both(second, first), blockSize)
  {
    ChargesOfBoth(first, second, blockSize);
    ChargesOfBoth(second, first, blockSize);
  }

  /** A whole delivery creates exactly the inventory the outer admission charged. */
  lemma DeliveryCreatesProduction(slots: Slots, release: Release, runtimeBytes: int, blockSize: int,
                                  made: seq<Use>, executable: seq<Use>, tree: seq<Use>)
    requires blockSize > 0 && ReleaseIsInventoried(release) && runtimeBytes > 0
    requires Delivers(slots, release, runtimeBytes, blockSize, made, executable, tree)
    ensures AllPositive(ProductionInventory(slots, release.bytes, DirectoryCount(release), runtimeBytes).fileBytes)
    ensures Creates(made + (executable + tree),
                    ProductionInventory(slots, release.bytes, DirectoryCount(release), runtimeBytes), blockSize)
  {
    var file, part := RuntimeFile(slots, runtimeBytes), ReleasePart(slots, release.bytes, DirectoryCount(release));
    CreatesBoth(executable, file, tree, part, blockSize);
    SameBothCharges(file, part, executable + tree, blockSize);
    CreatesBoth(made, RuntimeDirectories(slots), executable + tree, Both(part, file), blockSize);
    PartsMakeProduction(slots, release.bytes, DirectoryCount(release), runtimeBytes);
  }

  /** However the outer admission came about, it admits the production part by itself. */
  lemma ProductionFits(capacity: Capacity, production: Inventory, candidate: Inventory, copy: CandidateCopy)
    requires Admits(capacity, production, candidate, copy) && HasObjects(production)
    requires production.newDirectories >= 0 && candidate.newDirectories >= 0
    requires production.fileBytes != []
    ensures Fits(capacity, production)
  {
    if copy.SameDevice? {
      PartsFit(capacity, production, candidate);
      PartsFit(capacity, candidate, production);
    }
  }

  /**
   An admitted delivery, whichever slots are already filled and wherever the candidate copy goes: a
   new runtime's copy is admitted after its directories, a new release's copy after the runtime,
   with the directory count the copy itself computes, and at no point of the whole delivery is a
   reserve touched.
   */
  lemma PartsAreAdmittedThroughout(capacity: Capacity, slots: Slots, release: Release, runtimeBytes: int,
                                   candidate: Inventory, copy: CandidateCopy, root: string,
                                   made: seq<Use>, executable: seq<Use>, tree: seq<Use>, k: nat)
    requires capacity.blockSize > 0 && ReleaseIsInventoried(release) && runtimeBytes > 0
    requires candidate.newDirectories >= 0
    requires var production := ProductionInventory(slots, release.bytes, DirectoryCount(release), runtimeBytes);
      HasObjects(production) && Admits(capacity, production, candidate, copy)
    requires Delivers(slots, release, runtimeBytes, capacity.blockSize, made, executable, tree)
    requires k <= |made + (executable + tree)|
    ensures !slots.runtimeExists ==> Fits(After(capacity, made), Inventory([runtimeBytes], 0))
    ensures !slots.releaseExists ==>
              Fits(After(After(capacity, made), executable),
                   Inventory(release.bytes, |{root} + AllUnder(root, AllAncestors(release.paths))|))
    ensures After(capacity, (made + (executable + tree))[..k]).availableBytes >= RESERVE_BYTES
    ensures After(capacity, (made + (executable + tree))[..k]).availableInodes >= RESERVE_INODES
  {
    var directories := DirectoryCount(release);
    var production := ProductionInventory(slots, release.bytes, directories, runtimeBytes);
    ProductionFits(capacity, production, candidate, copy);
    RuntimeCopyIsAdmitted(capacity, slots, release.bytes, directories, runtimeBytes, made);
    if !slots.releaseExists {
      ReleaseCopyIsAdmitted(After(capacity, made), slots, release.bytes, directories, runtimeBytes, executable);
      SameDirectoryCount(root, release.paths);
    }
    DeliveryCreatesProduction(slots, release, runtimeBytes, capacity.blockSize, made, executable, tree);
    ReservesStay(capacity, production, made + (executable + tree), k);
  }

  /**
   On one device the candidate copy is still admitted after any part of the production copies, and
   the reserves last to the end of both.
   */
  lemma CandidateIsAdmittedAfterProduction(capacity: Capacity, production: Inventory, candidate: Inventory,
                                           uses: seq<Use>, k: nat, copied: seq<Use>, n: nat)
    requires Admits(capacity, production, candidate, SameDevice)
    requires production.newDirectories >= 0 && candidate.newDirectories >= 0 && candidate.fileBytes != []
    requires AllPositive(production.fileBytes) && AllPositive(candidate.fileBytes)
    requires Creates(uses, production, capacity.blockSize) && k <= |uses|
    requires Creates(copied, candidate, capacity.blockSize) && n <= |uses + copied|
    ensures Fits(After(capacity, uses[..k]), candidate)
    ensures After(capacity, (uses + copied)[..n]).availableBytes >= RESERVE_BYTES
    ensures After(capacity, (uses + copied)[..n]).availableInodes >= RESERVE_INODES
  {
    RemainderFits(capacity, production, candidate, uses, k);
    CreatesBoth(uses, production, copied, candidate, capacity.blockSize);
    ReservesStay(capacity, Both(production, candidate), uses + copied, n);
  }

  // ---------------------------------------------------------------- the object limit

  /** Without a candidate copy every tree within the inventory limits passes the object limit. */
  lemma ProductionIsWellCounted(slots: Slots, release: Release, runtimeBytes: int)
    requires ReleaseIsInventoried(release) && DirectoryCount(release) <= MAXIMUM_DIRECTORY_COUNT && runtimeBytes > 0
    requires HasObjects(ProductionInventory(slots, release.bytes, DirectoryCount(release), runtimeBytes))
    ensures WellCounted(ProductionInventory(slots, release.bytes, DirectoryCount(release), runtimeBytes))
  {
  }

  /**
   With a candidate copy on the same device the limit is short by the two identity files of each
   tree. Whatever the free space, a delivery passes it exactly when its release is already
   published, or its files and directories together are at most the two maxima without those files
   and one more if the runtime is installed.
   */
  lemma CombinedObjectLimit(slots: Slots, release: Release, runtimeBytes: int, bundledRuntime: int, provisioner: int)
    requires ReleaseIsInventoried(release) && DirectoryCount(release) <= MAXIMUM_DIRECTORY_COUNT
    requires runtimeBytes > 0 && bundledRuntime > 0 && provisioner > 0
    ensures var both := Both(ProductionInventory(slots, release.bytes, DirectoryCount(release), runtimeBytes),
                             CandidateInventory(release.bytes, DirectoryCount(release), bundledRuntime, provisioner));
      && WellCounted(both) <==>
         || slots.releaseExists
         || |release.bytes| + DirectoryCount(release) <=
              MAXIMUM_ARTIFACT_COUNT + MAXIMUM_DIRECTORY_COUNT + (if slots.runtimeExists then 1 else 0)
  {
    var production := ProductionInventory(slots, release.bytes, DirectoryCount(release), runtimeBytes);
    var candidate := CandidateInventory(release.bytes, DirectoryCount(release), bundledRuntime, provisioner);
    assert AllPositive(production.fileBytes) && AllPositive(candidate.fileBytes);
    ChargesOfBoth(production, candidate, 1);
  }
}
