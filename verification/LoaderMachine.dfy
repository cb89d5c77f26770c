/** The boot loader's file reader as it runs: sectors come in through a buffer in low memory, at most 16 at a time
    (bootmgr/stage2/echfs.asm). */
module LoaderMachine {
  import opened Memory
  import opened Directory
  import opened Fat
  import opened Volume
  import opened Image
  import opened Loader
  import opened ImageTool

  const DISK_BUFFER: nat := 0x8000
  const BUFFER_SIZE: nat := 8192
  const SECTOR: nat := 512

  // ----- Copying -----

  /** `n` bytes of `src` at `a` are in `m` at `b`. */
  ghost predicate Fetched(src: Mem, a: nat, m: Mem, b: nat, n: nat) {
    forall x: nat {:trigger Rd8(m, x)} :: b <= x < b + n ==> Rd8(m, x) == Rd8(src, a + (x - b))
  }

  /** Outside `[b, b + n)` nothing changed. */
  ghost predicate Outside(was: Mem, m: Mem, b: nat, n: nat) {
    forall x: nat {:trigger Rd8(m, x)} :: !(b <= x < b + n) ==> Rd8(m, x) == Rd8(was, x)
  }

  /** The BIOS writes `n` bytes of the disk into memory. */
  function Transfer(disk: Mem, a: nat, ram: Mem, b: nat, n: nat): Mem {
    if n == 0 then ram else Transfer(disk, a, ram, b, n - 1)[b + n - 1 := Rd8(disk, a + n - 1)]
  }

  lemma {:induction false} TransferReads(disk: Mem, a: nat, ram: Mem, b: nat, n: nat)
    ensures Fetched(disk, a, Transfer(disk, a, ram, b, n), b, n) && Outside(ram, Transfer(disk, a, ram, b, n), b, n)
  {
    if n > 0 {
      TransferReads(disk, a, ram, b, n - 1);
      var rest := Transfer(disk, a, ram, b, n - 1);
      var m := Transfer(disk, a, ram, b, n);
      assert m == rest[b + n - 1 := Rd8(disk, a + n - 1)];
      assert forall x: nat {:trigger Rd8(m, x)} :: x != b + n - 1 ==> Rd8(m, x) == Rd8(rest, x);
      assert Rd8(m, b + n - 1) == Rd8(disk, a + n - 1);
      hide Rd8, Transfer;
    }
  }

  /** `rep movsb`, upwards. */
  function Move(m: Mem, a: nat, b: nat, n: nat): Mem
    decreases n
  {
    if n == 0 then m else Move(m[b := Rd8(m, a)], a + 1, b + 1, n - 1)
  }

  lemma {:induction false} MoveReads(m: Mem, a: nat, b: nat, n: nat)
    requires a == b || a + n <= b
    ensures Fetched(m, a, Move(m, a, b, n), b, n) && Outside(m, Move(m, a, b, n), b, n)
    decreases n
  {
    if n > 0 {
      var m1 := m[b := Rd8(m, a)];
      var r := Move(m, a, b, n);
      MoveReads(m1, a + 1, b + 1, n - 1);
      assert r == Move(m1, a + 1, b + 1, n - 1);
      assert forall x: nat {:trigger Rd8(m1, x)} :: x != b ==> Rd8(m1, x) == Rd8(m, x);
      assert Rd8(m1, b) == Rd8(m, a);
      hide Rd8, Move;
      forall x: nat | b <= x < b + n ensures Rd8(r, x) == Rd8(m, a + (x - b)) {
        if x > b {
          assert Rd8(r, x) == Rd8(m1, a + 1 + (x - (b + 1)));
          assert a + 1 + (x - (b + 1)) == a + (x - b);
        }
      }
    }
  }

  /** Only the target and the buffer changed. */
  ghost predicate Untouched(was: Mem, m: Mem, b: nat, n: nat) {
    forall x: nat {:trigger Rd8(m, x)} ::
      !(b <= x < b + n) && !(DISK_BUFFER <= x < DISK_BUFFER + BUFFER_SIZE) ==> Rd8(m, x) == Rd8(was, x)
  }

  ghost predicate Target(b: nat, n: nat) {
    (b == DISK_BUFFER && n <= BUFFER_SIZE) || b >= DISK_BUFFER + BUFFER_SIZE
  }

  /** One turn of the sector loop: through the buffer to the target. */
  lemma FetchMore(disk: Mem, was: Mem, ram: Mem, a: nat, b: nat, done: nat, n: nat)
    requires Fetched(disk, a, ram, b, done) && Untouched(was, ram, b, done) && n <= BUFFER_SIZE
    requires Target(b, done + n) && (b == DISK_BUFFER ==> done == 0)
    ensures var ram' := Move(Transfer(disk, a + done, ram, DISK_BUFFER, n), DISK_BUFFER, b + done, n);
            Fetched(disk, a, ram', b, done + n) && Untouched(was, ram', b, done + n)
  {
    hide Rd8, Transfer, Move;
    var mid := Transfer(disk, a + done, ram, DISK_BUFFER, n);
    TransferReads(disk, a + done, ram, DISK_BUFFER, n);
    MoveReads(mid, DISK_BUFFER, b + done, n);
    var ram' := Move(mid, DISK_BUFFER, b + done, n);
    forall x: nat | b <= x < b + (done + n) ensures Rd8(ram', x) == Rd8(disk, a + (x - b)) {
      if x >= b + done {
        var y := DISK_BUFFER + (x - (b + done));
        assert Rd8(ram', x) == Rd8(mid, y) == Rd8(disk, a + done + (y - DISK_BUFFER));
        assert a + done + (y - DISK_BUFFER) == a + (x - b);
      } else {
        assert Rd8(ram', x) == Rd8(mid, x) == Rd8(ram, x);
      }
    }
  }

  // ----- Double words -----

  function HalfBytes(m: Mem): nat {
    4
  }

  function Rd32(m: Mem, a: nat): nat {
    RdLe(m, a, HalfBytes(m))
  }

  lemma {:induction false} RdLeSplit(m: Mem, a: nat, j: nat, k: nat)
    ensures RdLe(m, a, j + k) == RdLe(m, a, j) + Pow256(j) * RdLe(m, a + j, k)
    decreases j
  {
    if j > 0 {
      RdLeSplit(m, a + 1, j - 1, k);
      var p, lo, hi := Pow256(j - 1), RdLe(m, a + 1, j - 1), RdLe(m, a + j, k);
      assert RdLe(m, a + 1, j - 1 + k) == lo + p * hi;
      assert RdLe(m, a, j + k) == Rd8(m, a) + 256 * (lo + p * hi);
      assert RdLe(m, a, j) == Rd8(m, a) + 256 * lo && Pow256(j) == 256 * p;
      hide RdLe, Pow256;
      Regroup(p, hi);
    }
  }

  lemma Regroup(p: nat, hi: nat)
    ensures 256 * (p * hi) == 256 * p * hi
  {
  }

  /** A quad-word is its two halves. */
  lemma Halves(m: Mem, a: nat)
    ensures Rd64(m, a) == Rd32(m, a) + DWORD * Rd32(m, a + 4) && Rd32(m, a) < DWORD
  {
    var k := HalfBytes(m);
    assert Pow256(4) == DWORD;
    hide RdLe;
    RdLeSplit(m, a, k, k);
    RdLeBound(m, a, k);
  }

  lemma Rd64Fetched(disk: Mem, a: nat, ram: Mem, b: nat, n: nat, k: nat)
    requires Fetched(disk, a, ram, b, n) && k + 8 <= n
    ensures Rd64(ram, b + k) == Rd64(disk, a + k)
  {
    hide Rd8, RdLe;
    FetchedPart(disk, a, ram, b, n, k, WordBytes(ram));
    RdLeMoved(disk, a + k, ram, b + k, WordBytes(ram));
  }

  lemma FetchedPart(disk: Mem, a: nat, ram: Mem, b: nat, n: nat, k: nat, j: nat)
    requires Fetched(disk, a, ram, b, n) && k + j <= n
    ensures Fetched(disk, a + k, ram, b + k, j)
  {
    hide Rd8;
    forall x: nat | b + k <= x < b + k + j ensures Rd8(ram, x) == Rd8(disk, a + k + (x - (b + k))) {
      assert a + k + (x - (b + k)) == a + (x - b);
    }
  }

  lemma {:induction false} RdLeMoved(m: Mem, a: nat, m': Mem, b: nat, n: nat)
    requires Fetched(m, a, m', b, n)
    ensures RdLe(m', b, n) == RdLe(m, a, n)
    decreases n
  {
    if n > 0 {
      assert Rd8(m', b) == Rd8(m, a + (b - b));
      forall x: nat | b + 1 <= x < b + 1 + (n - 1) ensures Rd8(m', x) == Rd8(m, a + 1 + (x - (b + 1))) {
        assert a + (x - b) == a + 1 + (x - (b + 1));
      }
      RdLeMoved(m, a + 1, m', b + 1, n - 1);
    }
  }

  /** The partition that starts at sector `lba` of the disk has the bytes of the image. */
  ghost predicate OnDisk(disk: Mem, lba: nat, image: Mem) {
    forall x: nat {:trigger Rd8(image, x)} :: Rd8(disk, SECTOR * lba + x) == Rd8(image, x)
  }

  lemma FetchedImage(disk: Mem, lba: nat, image: Mem, sectors: nat, ram: Mem, b: nat, n: nat)
    requires OnDisk(disk, lba, image) && Fetched(disk, SECTOR * (lba + sectors), ram, b, n)
    ensures Fetched(image, SECTOR * sectors, ram, b, n)
  {
    Shifted(disk, SECTOR * lba, image, SECTOR * sectors, ram, b, n);
  }

  lemma Shifted(disk: Mem, base: nat, image: Mem, a: nat, ram: Mem, b: nat, n: nat)
    requires forall x: nat {:trigger Rd8(image, x)} :: Rd8(disk, base + x) == Rd8(image, x)
    requires Fetched(disk, base + a, ram, b, n)
    ensures Fetched(image, a, ram, b, n)
  {
    hide Rd8;
    forall x: nat | b <= x < b + n ensures Rd8(ram, x) == Rd8(image, a + (x - b)) {
      var y: nat := a + (x - b);
      assert Rd8(ram, x) == Rd8(disk, base + a + (x - b));
      assert base + a + (x - b) == base + y;
      assert Rd8(disk, base + y) == Rd8(image, y);
    }
  }

  class BootLoader {
    const disk: Mem
    const lba: nat   // partition.lba
    var ram: Mem
    var blockSize: nat     // in sectors
    var allocPerBlock: nat

    constructor (disk: Mem, lba: nat, ram: Mem)
      ensures this.disk == disk && this.lba == lba && this.ram == ram
    {
      this.disk, this.lba, this.ram := disk, lba, ram;
    }

    /** `hdd_read_sector`. */
    method HddReadSector(first: nat, n: nat, address: nat)
      requires n > 0 && Target(address, SECTOR * n)
      modifies this`ram
      ensures Fetched(disk, SECTOR * first, ram, address, SECTOR * n) && Untouched(old(ram), ram, address, SECTOR * n)
    {
      hide Rd8, Transfer, Move;
      var sector: nat, count: nat, target: nat := first, n, address;
      while count != 0
        invariant count <= n && sector == first + (n - count) && target == address + SECTOR * (n - count)
        invariant Fetched(disk, SECTOR * first, ram, address, SECTOR * (n - count))
        invariant Untouched(old(ram), ram, address, SECTOR * (n - count))
        invariant address == DISK_BUFFER ==> count == n || count == 0
        decreases count
      {
        var chunk := if count <= 16 then count else 16;
        FetchMore(disk, old(ram), ram, SECTOR * first, address, SECTOR * (n - count), SECTOR * chunk);
        ram := Transfer(disk, SECTOR * sector, ram, DISK_BUFFER, SECTOR * chunk);
        ram := Move(ram, DISK_BUFFER, target, SECTOR * chunk);
        sector, count, target := sector + chunk, count - chunk, target + SECTOR * chunk;
      }
    }

    /** `echfs_read_block`. */
    method ReadBlock(b: nat, address: nat, ghost image: Mem)
      requires OnDisk(disk, lba, image) && 0 < blockSize <= 16 && Target(address, SECTOR * blockSize)
      modifies this`ram
      ensures Fetched(image, b * (SECTOR * blockSize), ram, address, SECTOR * blockSize)
      ensures Untouched(old(ram), ram, address, SECTOR * blockSize)
    {
      hide Rd8, Fetched, Untouched, OnDisk;
      HddReadSector(b * blockSize + lba, blockSize, address);
      FetchedImage(disk, lba, image, b * blockSize, ram, address, SECTOR * blockSize);
      assert SECTOR * (b * blockSize) == b * (SECTOR * blockSize);
    }

    /** `echfs_next_block`. */
    method NextBlock(b: nat, ghost v: Volume, ghost image: Mem) returns (next: nat)
      requires OnDisk(disk, lba, image) && Encodes(image, v) && b < v.g.blocks
      requires 0 < blockSize <= 16 && v.g.bpb == SECTOR * blockSize && allocPerBlock == blockSize * 64
      modifies this`ram
      ensures b < |v.disk.fat| && next == v.disk.fat[b] % DWORD
      ensures Untouched(old(ram), ram, DISK_BUFFER, BUFFER_SIZE)
    {
      hide Rd8, Fetched, OnDisk, Encodes, Rd64, Rd32;
      var alloc := b / allocPerBlock + 16;
      var entry := 8 * (b % allocPerBlock);
      LookupPlace(v.g, b, allocPerBlock);
      ReadBlock(alloc, DISK_BUFFER, image);
      FatWord(image, v, b);
      Rd64Fetched(image, alloc * v.g.bpb, ram, DISK_BUFFER, v.g.bpb, entry);
      Halves(ram, DISK_BUFFER + entry);
      next := Rd32(ram, DISK_BUFFER + entry);
      LowHalf(v.disk.fat[b], next, Rd32(ram, DISK_BUFFER + entry + 4));
    }

    /** `rep cmpsb` of a name and its terminating zero. */
    method CompareName(at: nat, name: Name) returns (same: bool)
      ensures same <==> NameAt(ram, at, name)
    {
      hide Rd8;
      var k := 0;
      while k < |name|
        invariant k <= |name| && forall j :: 0 <= j < k ==> Rd8(ram, at + j) == name[j]
      {
        if Rd8(ram, at + k) != name[k] {
          return false;
        }
        k := k + 1;
      }
      return Rd8(ram, at + k) == 0;
    }

    /** The test of one entry: in the root, with the name. */
    method CheckEntry(si: nat, name: Name, ghost i: nat, ghost v: Volume, ghost image: Mem) returns (same: bool)
      requires Encodes(image, v) && i < Capacity(v.g) && v.g.bpb > 0 && NameOk(name)
      requires Fetched(image, EntryLoc(v.g, i), ram, si, ENTRY_SIZE)
      ensures same <==> i < |v.dir| && v.dir[i].parent == ROOT_ID && v.dir[i].name == name
    {
      hide Rd8, Encodes, Capacity, EntryLoc, Rd64, Rd32, NameOk;
      EntryBytes(image, v, i);
      Rd64Fetched(image, EntryLoc(v.g, i), ram, si, ENTRY_SIZE, 0);
      Halves(ram, si);
      Halves(ram, si + 4);
      ghost var expected := if i < |v.dir| then v.dir[i].name else [];
      if NameOk(expected) && NameAt(image, EntryLoc(v.g, i) + 9, expected) {
        NameFetched(image, EntryLoc(v.g, i), ram, si, expected);
      }
      if Rd32(ram, si) != 0xFFFF_FFFF || Rd32(ram, si + 4) != 0xFFFF_FFFF {
        return false;
      }
      same := CompareName(si + 9, name);
      if same && i < |v.dir| {
        NamesSame(ram, si + 9, expected, name);
      }
    }

    /** The entries in the buffer, from entry `first` of the directory on. `at` is the entry that was found. */
    method ScanBlock(name: Name, entriesPerBlock: nat, ghost first: nat, ghost v: Volume, ghost image: Mem)
        returns (found: bool, at: nat)
      requires v.g.bpb > 0 && NameOk(name) && first + entriesPerBlock <= Capacity(v.g)
      requires Fetched(image, EntryLoc(v.g, first), ram, DISK_BUFFER, 256 * entriesPerBlock)
      requires Encodes(image, v)
      ensures found ==> RootFrom(v.dir, name, first) < |v.dir| &&
                        Fetched(image, EntryLoc(v.g, RootFrom(v.dir, name, first)), ram, at, ENTRY_SIZE)
      ensures !found ==> RootFrom(v.dir, name, first + entriesPerBlock) == RootFrom(v.dir, name, first)
    {
      hide Rd8, Encodes, NameOk, DirStart, Fetched, Capacity, RootFrom;
      at := DISK_BUFFER;
      var left: nat := entriesPerBlock;
      while left != 0
        invariant left <= entriesPerBlock && at == DISK_BUFFER + 256 * (entriesPerBlock - left)
        invariant RootFrom(v.dir, name, first + (entriesPerBlock - left)) == RootFrom(v.dir, name, first)
      {
        ghost var e := entriesPerBlock - left;
        FetchedPart(image, EntryLoc(v.g, first), ram, DISK_BUFFER, 256 * entriesPerBlock, 256 * e, ENTRY_SIZE);
        found := CheckEntry(at, name, first + e, v, image);
        RootFromStep(v.dir, name, first + e);
        if found {
          return;
        }
        at, left := at + 256, left - 1;
      }
      found := false;
    }

    /** The scan of the directory, block by block. */
    method ScanDirectory(name: Name, directory: nat, dirSize: nat, entriesPerBlock: nat, ghost v: Volume,
                         ghost image: Mem)
        returns (found: bool, at: nat)
      requires OnDisk(disk, lba, image) && Encodes(image, v) && NameOk(name) && v.g.bpb > 0
      requires 0 < blockSize <= 16 && v.g.bpb == SECTOR * blockSize && entriesPerBlock == 2 * blockSize
      requires directory == DirStart(v.g) && dirSize == DirBlocks(v.g) > 0
      modifies this`ram
      ensures found <==> RootFrom(v.dir, name, 0) < |v.dir|
      ensures found ==> Fetched(image, EntryLoc(v.g, RootFrom(v.dir, name, 0)), ram, at, ENTRY_SIZE)
      ensures Untouched(old(ram), ram, DISK_BUFFER, BUFFER_SIZE)
    {
      hide Rd8, Encodes, EntryLoc, NameOk, OnDisk, DirStart, DirBlocks, Fetched, Untouched, RootFrom, Capacity;
      var count: nat := 0;
      EntriesUsed(image, v);
      CapacityIs(v.g, entriesPerBlock);
      UntouchedSelf(ram);
      while true
        invariant count < dirSize && Untouched(old(ram), ram, DISK_BUFFER, BUFFER_SIZE)
        invariant RootFrom(v.dir, name, count * entriesPerBlock) == RootFrom(v.dir, name, 0)
        decreases dirSize - count
      {
        ghost var was := ram;
        ReadBlock(directory + count, DISK_BUFFER, image);
        UntouchedTrans(old(ram), was, ram, SECTOR * blockSize);
        EntryInBlock(v.g, count, entriesPerBlock);
        found, at := ScanBlock(name, entriesPerBlock, count * entriesPerBlock, v, image);
        if found {
          return;
        }
        count := count + 1;
        if count >= dirSize {
          RootFromEnd(v.dir, name, count * entriesPerBlock);
          return;
        }
      }
    }

    /** The loop that reads the blocks of a file one after the other. */
    method ReadChain(first: nat, address: nat, ghost i: nat, ghost v: Volume, ghost image: Mem)
      requires OnDisk(disk, lba, image) && Inv(v) && Encodes(image, v) && v.g.blocks < 0x1000_0000
      requires 0 < blockSize <= 16 && v.g.bpb == SECTOR * blockSize && allocPerBlock == blockSize * 64
      requires IsFile(v.dir, i) && first == v.dir[i].payload && address >= DISK_BUFFER + BUFFER_SIZE
      modifies this`ram
      ensures BlockAt(ram, address, FileBytes(v, i)) && Untouched(old(ram), ram, address, |FileBytes(v, i)|)
    {
      hide Rd8, Encodes, Inv, OnDisk, BlockAt, Fetched, Untouched, Follow, Concat, Reading, FileBytes, DataStart;
      ghost var c := Follow(v.disk.fat, v.dir[i].payload);
      ghost var got: Bytes := [];
      var block: nat, at: nat := first, address;
      StartReading(v, i);
      NothingRead(ram, address);
      while true
        invariant Reading(v, c, block) && at == address + |got|
        invariant Joins(v, got, c, FileBytes(v, i))
        invariant BlockAt(ram, address, got) && Untouched(old(ram), ram, address, |got|)
        decreases |c|
      {
        ghost var was := ram;
        ReadingPlace(v, c, block);
        DataBytes(image, v, block);
        ReadBlock(block, at, image);
        ghost var mid := ram;
        Appended(image, block * v.g.bpb, old(ram), was, mid, address, got, v.disk.data[block]);
        JoinsNext(v, got, c, block, FileBytes(v, i));
        ReadingNext(v, c, block);
        got := got + v.disk.data[block];
        block := NextBlock(block, v, image);
        GotStays(old(ram), mid, ram, address, got);
        at := at + SECTOR * blockSize;
        if block == 0xFFFF_FFFF {
          return;
        }
        c := c[1..];
      }
    }

    /** `echfs_load`; false where the loader stops with an error. */
    method Load(name: Name, address: nat, ghost v: Volume, ghost image: Mem) returns (ok: bool)
      requires OnDisk(disk, lba, image) && Inv(v) && Encodes(image, v) && NameOk(name)
      requires v.g.bpb <= BUFFER_SIZE && v.g.blocks < 0x1000_0000 && DirBlocks(v.g) > 0
      requires address >= DISK_BUFFER + BUFFER_SIZE
      modifies this
      ensures ok <==> Loaded(v, name).Some?
      ensures ok ==>
                BlockAt(ram, address, Loaded(v, name).value)
                && Untouched(old(ram), ram, address, |Loaded(v, name).value|)
      ensures !ok ==> Untouched(old(ram), ram, DISK_BUFFER, BUFFER_SIZE)
    {
      hide Rd8, Rd32, Rd64, Encodes, Inv, OnDisk, BlockAt, Fetched, Untouched, NameOk, FatBlocks, TableBlocks, EntryLoc;
      hide FileBytes, Follow, RootEntry, NameAt, HeaderAt, SIGNATURE;
      ghost var g := v.g;
      HddReadSector(lba, 1, DISK_BUFFER);
      UntouchedGrow(old(ram), ram, SECTOR);
      HeaderFetched(disk, lba, image, ram, v);
      var signed := Signed();
      if !signed {
        return false;
      }
      var dirSize := Rd32(ram, DISK_BUFFER + 20);
      blockSize := Rd32(ram, DISK_BUFFER + 28) / 512 % 0x1_0000;
      var allocSize := TableBlocks(Rd32(ram, DISK_BUFFER + 12), Rd32(ram, DISK_BUFFER + 28));
      var directory := allocSize + 16;
      var entriesPerBlock := blockSize * 2 % 256;
      ghost var was := ram;
      var found, at := ScanDirectory(name, directory, dirSize, entriesPerBlock, v, image);
      UntouchedTrans(old(ram), was, ram, BUFFER_SIZE);
      RootFromStart(v.dir, name);
      if !found {
        return false;
      }
      ghost var i := RootEntry(v.dir, name, 0);
      EntryFetched(image, v, i, ram, at);
      if Rd8(ram, at + 8) != 0 {
        return false;
      }
      var block := Rd32(ram, at + 240);
      allocPerBlock := blockSize * 64 % 0x1_0000;
      was := ram;
      ReadChain(block, address, i, v, image);
      UntouchedLater(old(ram), was, ram, address, |FileBytes(v, i)|);
      LoadedFile(v, name, i);
      return true;
    }

    /** The signature in the buffer. */
    method Signed() returns (ok: bool)
      ensures ok <==> forall k :: 0 <= k < |SIGNATURE| ==> Rd8(ram, DISK_BUFFER + 4 + k) == SIGNATURE[k]
    {
      hide Rd8;
      var k := 0;
      while k < |SIGNATURE|
        invariant k <= |SIGNATURE| && forall j :: 0 <= j < k ==> Rd8(ram, DISK_BUFFER + 4 + j) == SIGNATURE[j]
      {
        if Rd8(ram, DISK_BUFFER + 4 + k) != SIGNATURE[k] {
          return false;
        }
        k := k + 1;
      }
      return true;
    }
  }

  // ----- Reading a chain -----

  /** All the bytes on the chain of file `i`. */
  ghost function FileBytes(v: Volume, i: nat): Bytes
    requires Inv(v) && IsFile(v.dir, i)
  {
    FileBlocks(v, i);
    Concat(v.disk.data, Follow(v.disk.fat, v.dir[i].payload))
  }

  /** `c` is the rest of a chain, from `block` on. */
  ghost predicate Reading(v: Volume, c: seq<nat>, block: nat) {
    && v.g.bpb > 0 && IsChain(v.disk.fat, c) && block == c[0] && |v.disk.data| == |v.disk.fat| == v.g.blocks
    && forall j :: 0 <= j < |c| ==> DataStart(v.g) <= c[j] < |v.disk.data|
  }

  /** What was read and what is on the rest of the chain are the whole. */
  ghost predicate Joins(v: Volume, got: Bytes, c: seq<nat>, all: Bytes) {
    (forall j :: 0 <= j < |c| ==> c[j] < |v.disk.data|) && got + Concat(v.disk.data, c) == all
  }

  lemma StartReading(v: Volume, i: nat)
    requires Inv(v) && IsFile(v.dir, i)
    ensures var c := Follow(v.disk.fat, v.dir[i].payload);
            Reading(v, c, v.dir[i].payload)
            && Joins(v, [], c, FileBytes(v, i))
  {
    hide Inv, Follow, IsChain, Concat, DataStart, Sized;
    InvSizes(v);
    FileBlocks(v, i);
    assert [] + FileBytes(v, i) == FileBytes(v, i);
  }

  lemma NothingRead(ram: Mem, address: nat)
    ensures BlockAt(ram, address, []) && Untouched(ram, ram, address, 0)
  {
  }

  lemma ReadingPlace(v: Volume, c: seq<nat>, block: nat)
    requires Reading(v, c, block)
    ensures c != [] && block == c[0] && v.g.bpb > 0 && DataStart(v.g) <= block < v.g.blocks == |v.disk.data|
  {
    hide DataStart;
  }

  lemma ReadingNext(v: Volume, c: seq<nat>, block: nat)
    requires Reading(v, c, block) && v.g.blocks < 0x1000_0000
    ensures c != [] && block < |v.disk.fat|
    ensures |c| == 1 ==> v.disk.fat[block] % DWORD == 0xFFFF_FFFF
    ensures |c| > 1 ==> v.disk.fat[block] % DWORD != 0xFFFF_FFFF && Reading(v, c[1..], v.disk.fat[block] % DWORD)
  {
    hide DataStart;
    if |c| == 1 {
      assert v.disk.fat[block] == END_OF_CHAIN;
    } else {
      ChainTail(v.disk.fat, c);
      assert v.disk.fat[block] == c[1] < 0x1000_0000;
      hide IsChain;
      assert forall j :: 0 <= j < |c[1..]| ==> c[1..][j] == c[j + 1];
    }
  }

  lemma JoinsNext(v: Volume, got: Bytes, c: seq<nat>, block: nat, all: Bytes)
    requires Joins(v, got, c, all) && c != [] && block == c[0] < |v.disk.data|
    ensures |c| == 1 ==> got + v.disk.data[block] == all
    ensures |c| > 1 ==> Joins(v, got + v.disk.data[block], c[1..], all)
  {
    var rest := c[1..];
    assert forall j :: 0 <= j < |rest| ==> rest[j] == c[j + 1];
    assert got + (v.disk.data[block] + Concat(v.disk.data, rest)) == got + v.disk.data[block]
        + Concat(v.disk.data, rest);
    if |c| == 1 {
      assert Concat(v.disk.data, rest) == [];
    }
  }

  /** One more block. */
  lemma Appended(image: Mem, a: nat, was0: Mem, was: Mem, mid: Mem, address: nat, got: Bytes, s: Bytes)
    requires BlockAt(image, a, s) && address >= DISK_BUFFER + BUFFER_SIZE
    requires Fetched(image, a, mid, address + |got|, |s|) && Untouched(was, mid, address + |got|, |s|)
    requires BlockAt(was, address, got) && Untouched(was0, was, address, |got|)
    ensures BlockAt(mid, address, got + s) && Untouched(was0, mid, address, |got| + |s|)
  {
    hide Rd8;
    var all := got + s;
    forall k | 0 <= k < |all| ensures Rd8(mid, address + k) == all[k] {
      var x := address + k;
      if k < |got| {
        assert Rd8(mid, x) == Rd8(was, x);
        assert all[k] == got[k];
      } else {
        var j := k - |got|;
        assert Rd8(mid, x) == Rd8(image, a + (x - (address + |got|)));
        assert a + (x - (address + |got|)) == a + j;
        assert all[k] == s[j];
      }
    }
  }

  lemma GotStays(was0: Mem, mid: Mem, ram: Mem, address: nat, got: Bytes)
    requires Untouched(mid, ram, DISK_BUFFER, BUFFER_SIZE) && address >= DISK_BUFFER + BUFFER_SIZE
    requires BlockAt(mid, address, got) && Untouched(was0, mid, address, |got|)
    ensures BlockAt(ram, address, got) && Untouched(was0, ram, address, |got|)
  {
    hide Rd8;
    forall k | 0 <= k < |got| ensures Rd8(ram, address + k) == got[k] {
      assert Rd8(ram, address + k) == Rd8(mid, address + k);
    }
  }

  lemma UntouchedGrow(was: Mem, m: Mem, n: nat)
    requires Untouched(was, m, DISK_BUFFER, n) && n <= BUFFER_SIZE
    ensures Untouched(was, m, DISK_BUFFER, BUFFER_SIZE)
  {
  }

  lemma UntouchedLater(a: Mem, b: Mem, c: Mem, address: nat, n: nat)
    requires Untouched(a, b, DISK_BUFFER, BUFFER_SIZE) && Untouched(b, c, address, n)
    ensures Untouched(a, c, address, n)
  {
    hide Rd8;
  }

  // ----- The header and the entry in the buffer -----

  lemma SmallWord(m: Mem, a: nat)
    requires Rd64(m, a) < DWORD
    ensures Rd32(m, a) == Rd64(m, a)
  {
    hide Rd64, Rd32;
    Halves(m, a);
  }

  lemma HeaderFetched(disk: Mem, lba: nat, image: Mem, ram: Mem, v: Volume)
    requires OnDisk(disk, lba, image) && Fetched(disk, SECTOR * lba, ram, DISK_BUFFER, SECTOR)
    requires Encodes(image, v) && v.g.bpb <= BUFFER_SIZE && v.g.blocks < 0x1000_0000
    ensures forall k :: 0 <= k < |SIGNATURE| ==> Rd8(ram, DISK_BUFFER + 4 + k) == SIGNATURE[k]
    ensures Rd32(ram, DISK_BUFFER + 12) == v.g.blocks && Rd32(ram, DISK_BUFFER + 20) == DirBlocks(v.g)
    ensures Rd32(ram, DISK_BUFFER + 28) == v.g.bpb && v.g.bpb % 512 == 0 && v.g.bpb >= 512
    ensures TableBlocks(v.g.blocks, v.g.bpb) == FatBlocks(v.g)
  {
    hide Encodes, Rd8, Rd64, Rd32, FatBlocks, TableBlocks, OnDisk, Fetched, Capacity;
    EncodesParts(image, v);
    ValidSizes(v.g);
    assert v.g.bpb % 512 == 0;
    TableBlocksAgree(v.g);
    hide Valid;
    FetchedImage(disk, lba, image, 0, ram, DISK_BUFFER, SECTOR);
    Rd64Fetched(image, 0, ram, DISK_BUFFER, SECTOR, 12);
    Rd64Fetched(image, 0, ram, DISK_BUFFER, SECTOR, 20);
    Rd64Fetched(image, 0, ram, DISK_BUFFER, SECTOR, 28);
    SmallWord(ram, DISK_BUFFER + 12);
    SmallWord(ram, DISK_BUFFER + 20);
    SmallWord(ram, DISK_BUFFER + 28);
    SignatureFetched(image, ram, v.g);
  }

  lemma SignatureFetched(image: Mem, ram: Mem, g: Geometry)
    requires Fetched(image, 0, ram, DISK_BUFFER, SECTOR) && HeaderAt(image, g)
    ensures forall k :: 0 <= k < |SIGNATURE| ==> Rd8(ram, DISK_BUFFER + 4 + k) == SIGNATURE[k]
  {
    hide Rd8, Rd64;
    forall k | 0 <= k < |SIGNATURE| ensures Rd8(ram, DISK_BUFFER + 4 + k) == SIGNATURE[k] {
      var x := DISK_BUFFER + 4 + k;
      assert Rd8(ram, x) == Rd8(image, 0 + (x - DISK_BUFFER));
      assert 0 + (x - DISK_BUFFER) == 4 + k;
    }
  }

  lemma EntryFetched(image: Mem, v: Volume, i: nat, ram: Mem, at: nat)
    requires Encodes(image, v) && v.g.bpb > 0 && Inv(v) && i < |v.dir| && v.g.blocks < 0x1000_0000
    requires Fetched(image, EntryLoc(v.g, i), ram, at, ENTRY_SIZE)
    ensures Rd8(ram, at + 8) == Code(v.dir[i].kind)
    ensures v.dir[i].kind == File ==> Rd32(ram, at + 240) == v.dir[i].payload
  {
    hide Encodes, Rd64, Rd32, EntryLoc, Inv, NameAt, Rd8, Follow;
    EntryBytes(image, v, i);
    ByteFetched(image, EntryLoc(v.g, i), ram, at, ENTRY_SIZE, 8);
    Rd64Fetched(image, EntryLoc(v.g, i), ram, at, ENTRY_SIZE, 240);
    if v.dir[i].kind == File {
      FileBlocks(v, i);
      SmallWord(ram, at + 240);
    }
  }

  lemma ByteFetched(image: Mem, a: nat, ram: Mem, b: nat, n: nat, k: nat)
    requires Fetched(image, a, ram, b, n) && k < n
    ensures Rd8(ram, b + k) == Rd8(image, a + k)
  {
    hide Rd8;
    assert a + (b + k - b) == a + k;
  }

  lemma LoadedFile(v: Volume, name: Name, i: nat)
    requires Inv(v) && i == RootEntry(v.dir, name, 0) < |v.dir| && v.dir[i].kind == File
    ensures Loaded(v, name) == Some(FileBytes(v, i))
  {
    hide Inv, Follow, Concat;
  }

  lemma RootFromStart(dir: Table, name: Name)
    ensures RootFrom(dir, name, 0) == RootEntry(dir, name, 0)
  {
  }

  /** `RootEntry` from `i`, also when that is past the last entry. */
  function RootFrom(dir: Table, name: Name, i: nat): nat {
    RootEntry(dir, name, if i < |dir| then i else |dir|)
  }

  lemma RootFromStep(dir: Table, name: Name, i: nat)
    ensures if i < |dir| && dir[i].parent == ROOT_ID && dir[i].name == name then RootFrom(dir, name, i) == i
            else RootFrom(dir, name, i + 1) == RootFrom(dir, name, i)
  {
  }

  lemma RootFromEnd(dir: Table, name: Name, i: nat)
    requires i >= |dir|
    ensures RootFrom(dir, name, i) == |dir|
  {
  }

  lemma CapacityIs(g: Geometry, per: nat)
    requires g.bpb == 256 * per && g.bpb % 512 == 0
    ensures Capacity(g) == DirBlocks(g) * per
  {
    assert g.bpb / 512 * 2 == per;
  }

  lemma EntryInBlock(g: Geometry, count: nat, per: nat)
    requires g.bpb == 256 * per > 0 && count < DirBlocks(g) && Capacity(g) == DirBlocks(g) * per
    ensures (DirStart(g) + count) * g.bpb == EntryLoc(g, count * per)
    ensures count * per + per == (count + 1) * per <= Capacity(g)
  {
    hide DirStart, DirBlocks, Capacity;
    Distribute(DirStart(g), count, g.bpb);
    assert count * g.bpb == 256 * (count * per);
    MulLess(count, DirBlocks(g), per);
    Distribute(count, 1, per);
  }

  lemma UntouchedSelf(m: Mem)
    ensures Untouched(m, m, DISK_BUFFER, BUFFER_SIZE)
  {
  }

  lemma UntouchedTrans(a: Mem, b: Mem, c: Mem, n: nat)
    requires Untouched(a, b, DISK_BUFFER, BUFFER_SIZE) && Untouched(b, c, DISK_BUFFER, n) && n <= BUFFER_SIZE
    ensures Untouched(a, c, DISK_BUFFER, BUFFER_SIZE)
  {
  }

  lemma NameFetched(image: Mem, a: nat, ram: Mem, b: nat, name: Name)
    requires Fetched(image, a, ram, b, ENTRY_SIZE) && NameAt(image, a + 9, name) && NameOk(name)
    ensures NameAt(ram, b + 9, name)
  {
    hide Rd8;
    forall j | 0 <= j < |name| ensures Rd8(ram, b + 9 + j) == name[j] {
      var x := b + 9 + j;
      assert a + (x - b) == a + 9 + j;
    }
    var x := b + 9 + |name|;
    assert a + (x - b) == a + 9 + |name|;
    assert Rd8(ram, x) == Rd8(image, a + (x - b));
  }

  /** A string in memory is only one string. */
  lemma NamesSame(m: Mem, a: nat, n1: Name, n2: Name)
    requires NameAt(m, a, n1) && NameAt(m, a, n2) && NameOk(n1) && NameOk(n2)
    ensures n1 == n2
  {
    hide Rd8;
    if |n1| < |n2| {
      NameIs(m, a, n2, |n1|);
    } else {
      NameIs(m, a, n1, |n2|);
    }
    assert |n1| == |n2|;
    forall j | 0 <= j < |n1| ensures n1[j] == n2[j] {
      assert Rd8(m, a + j) == n1[j];
    }
  }

  lemma LowHalf(w: nat, lo: nat, hi: nat)
    requires w == lo + DWORD * hi && lo < DWORD
    ensures w % DWORD == lo
  {
  }

  lemma FatWord(m: Mem, v: Volume, b: nat)
    requires Encodes(m, v) && b < v.g.blocks
    ensures b < |v.disk.fat| && Rd64(m, FatLoc(v.g, b)) == v.disk.fat[b]
  {
    hide HeaderAt, DirAt, DataAt, Capacity, DataStart, Rd64;
  }
}
