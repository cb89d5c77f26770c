/** The bytes of an echidnaFS image: where the tables lie, how an entry is laid out, and why no write to one of
    them touches another (echfs-utils/echfs-utils.c, echfs-utils/spec.txt). */
module Image {
  import opened Memory
  import opened Directory
  import opened Fat
  import opened Volume

  const ENTRY_SIZE: nat := 256

  // ----- Locations -----

  function FatLoc(g: Geometry, b: nat): nat {
    RESERVED_BLOCKS * g.bpb + 8 * b
  }

  function EntryLoc(g: Geometry, i: nat): nat
    requires g.bpb > 0
  {
    DirStart(g) * g.bpb + ENTRY_SIZE * i
  }

  function BlockLoc(g: Geometry, b: nat): nat {
    b * g.bpb
  }

  /** The header, the quad-words of the table, the entries of the directory and the blocks of data lie in this order
      without overlap, before the end of the image. */
  lemma Layout(g: Geometry)
    requires Valid(g)
    ensures 512 <= FatLoc(g, 0) && FatLoc(g, g.blocks) <= EntryLoc(g, 0)
    ensures EntryLoc(g, Capacity(g)) == BlockLoc(g, DataStart(g)) <= BlockLoc(g, g.blocks) < WORD_LIMIT
  {
    ValidSizes(g);
    FatFitsBlocks(g.blocks * 8, g.bpb);
    MulLessEq(DataStart(g), g.blocks, g.bpb, g.bpb);
    hide FatBlocks, DirBlocks, Capacity;
    Distribute(RESERVED_BLOCKS, FatBlocks(g), g.bpb);
    Distribute(DirStart(g), DirBlocks(g), g.bpb);
  }

  lemma Distribute(a: nat, b: nat, k: nat)
    ensures (a + b) * k == a * k + b * k
  {
  }

  lemma FatPlace(g: Geometry, b: nat)
    requires Valid(g) && b < g.blocks
    ensures 512 <= FatLoc(g, b) && FatLoc(g, b) + 8 <= EntryLoc(g, 0)
  {
    hide DirStart, DataStart, Capacity, BlockLoc;
    Layout(g);
  }

  lemma EntryPlace(g: Geometry, i: nat)
    requires Valid(g) && i < Capacity(g)
    ensures 512 <= EntryLoc(g, 0) <= EntryLoc(g, i) && EntryLoc(g, i) + ENTRY_SIZE <= BlockLoc(g, DataStart(g))
  {
    hide DirStart, DataStart, Capacity, BlockLoc;
    Layout(g);
  }

  lemma BlockPlace(g: Geometry, b: nat)
    requires Valid(g) && DataStart(g) <= b < g.blocks
    ensures 512 <= EntryLoc(g, 0) <= BlockLoc(g, DataStart(g)) <= BlockLoc(g, b)
            && BlockLoc(g, b) + g.bpb <= BlockLoc(g, g.blocks)
  {
    MulLessEq(DataStart(g), b, g.bpb, g.bpb);
    MulLess(b, g.blocks, g.bpb);
    hide DirStart, DataStart, Capacity;
    Layout(g);
  }

  /** The table has room for every block. */
  lemma FatFitsBlocks(n: nat, k: nat)
    requires k > 0
    ensures (n / k + if n % k != 0 then 1 else 0) * k >= n
  {
    var q, r := n / k, n % k;
    assert n == q * k + r;
    if r != 0 {
      assert (q + 1) * k == q * k + k;
    }
  }

  /** Two blocks do not overlap. */
  lemma BlocksDisjoint(g: Geometry, b: nat, c: nat)
    requires b != c
    ensures BlockLoc(g, b) + g.bpb <= BlockLoc(g, c) || BlockLoc(g, c) + g.bpb <= BlockLoc(g, b)
  {
    if b < c {
      MulLess(b, c, g.bpb);
    } else {
      MulLess(c, b, g.bpb);
    }
  }

  // ----- Bytes -----

  function WrBytes(m: Mem, a: nat, s: Bytes): Mem
    decreases |s|
  {
    if s == [] then m else WrBytes(m[a := s[0]], a + 1, s[1..])
  }

  lemma {:induction false} WrBytesReads(m: Mem, a: nat, s: Bytes)
    ensures forall x: nat :: Rd8(WrBytes(m, a, s), x) == if a <= x < a + |s| then s[x - a] else Rd8(m, x)
    decreases |s|
  {
    if s != [] {
      WrBytesReads(m[a := s[0]], a + 1, s[1..]);
    }
  }

  lemma Wr64Reads(m: Mem, a: nat, w: nat)
    requires w < WORD_LIMIT
    ensures Rd64(Wr64(m, a, w), a) == w
    ensures forall x: nat :: !(a <= x < a + 8) ==> Rd8(Wr64(m, a, w), x) == Rd8(m, x)
  {
    hide RdLe, WrLe;
    RdWr64(m, a, w);
    WrLeBytes(m, a, WordBytes(m), w);
  }

  lemma Rd64Same(m: Mem, m': Mem, a: nat)
    requires forall x: nat :: a <= x < a + 8 ==> Rd8(m, x) == Rd8(m', x)
    ensures Rd64(m, a) == Rd64(m', a)
  {
    RdLeSame(m, m', a, WordBytes(m));
  }

  // ----- Entries -----

  function Code(kind: Kind): Byte {
    if kind == Folder then 1 else 0
  }

  /** The packed structure at `a` is `e`. */
  ghost predicate EntryAt(m: Mem, a: nat, e: Entry) {
    && Rd64(m, a) == e.parent && Rd8(m, a + 8) == Code(e.kind)
    && (forall k :: 0 <= k < |e.name| ==> Rd8(m, a + 9 + k) == e.name[k]) && Rd8(m, a + 9 + |e.name|) == 0
    && Rd64(m, a + 232) == e.time && Rd64(m, a + 240) == e.payload && Rd64(m, a + 248) == e.size
  }

  /** What the fields of an entry may be. */
  ghost predicate EntryFits(e: Entry) {
    && NameOk(e.name) && 0 < e.parent < WORD_LIMIT && e.time < WORD_LIMIT && e.payload < WORD_LIMIT
       && e.size < WORD_LIMIT
  }

  /** `wr_entry` of a structure that was zeroed before its fields were set. */
  function WrEntry(m: Mem, a: nat, e: Entry): Mem {
    var zeroed := Zero(m, a, ENTRY_SIZE);
    var named := WrBytes(Wr64(zeroed, a, e.parent)[a + 8 := Code(e.kind)], a + 9, e.name);
    Wr64(Wr64(Wr64(named, a + 232, e.time), a + 240, e.payload), a + 248, e.size)
  }

  lemma WrEntryReads(m: Mem, a: nat, e: Entry)
    requires EntryFits(e)
    ensures EntryAt(WrEntry(m, a, e), a, e)
    ensures forall x: nat :: !(a <= x < a + ENTRY_SIZE) ==> Rd8(WrEntry(m, a, e), x) == Rd8(m, x)
  {
    hide Rd64, Wr64, Zero, WrBytes;
    var m0 := Zero(m, a, ENTRY_SIZE);
    var m1 := Wr64(m0, a, e.parent);
    var m2 := m1[a + 8 := Code(e.kind)];
    var m3 := WrBytes(m2, a + 9, e.name);
    var m4 := Wr64(m3, a + 232, e.time);
    var m5 := Wr64(m4, a + 240, e.payload);
    var m6 := Wr64(m5, a + 248, e.size);
    ZeroBytes(m, a, ENTRY_SIZE);
    Wr64Reads(m0, a, e.parent);
    assert forall x: nat :: x != a + 8 ==> Rd8(m2, x) == Rd8(m1, x);
    WrBytesReads(m2, a + 9, e.name);
    Wr64Reads(m3, a + 232, e.time);
    Wr64Reads(m4, a + 240, e.payload);
    Wr64Reads(m5, a + 248, e.size);
    Rd64Same(m1, m6, a);
    Rd64Same(m4, m6, a + 232);
    Rd64Same(m5, m6, a + 240);
  }

  lemma EntrySame(m: Mem, m': Mem, a: nat, e: Entry)
    requires EntryAt(m, a, e) && |e.name| < NAME_LIMIT
    requires forall x: nat :: a <= x < a + ENTRY_SIZE ==> Rd8(m', x) == Rd8(m, x)
    ensures EntryAt(m', a, e)
  {
    hide Rd64, Rd8;
    Rd64Same(m, m', a);
    Rd64Same(m, m', a + 232);
    Rd64Same(m, m', a + 240);
    Rd64Same(m, m', a + 248);
  }

  // ----- The image of a volume -----

  const SIGNATURE: Bytes := [0x5F, 0x45, 0x43, 0x48, 0x5F, 0x46, 0x53, 0x5F]   // _ECH_FS_

  ghost predicate HeaderAt(m: Mem, g: Geometry) {
    && (forall k :: 0 <= k < |SIGNATURE| ==> Rd8(m, 4 + k) == SIGNATURE[k])
    && Rd64(m, 12) == g.blocks && Rd64(m, 20) == DirBlocks(g) && Rd64(m, 28) == g.bpb
  }

  /** The header, byte by byte: `_ECH_FS_` from the fourth byte on, then the blocks, a twentieth of them and the size of
      one. */
  lemma HeaderWords(m: Mem, g: Geometry)
    ensures HeaderAt(m, g) <==>
              && Rd8(m, 4) == 0x5F && Rd8(m, 5) == 0x45 && Rd8(m, 6) == 0x43 && Rd8(m, 7) == 0x48
              && Rd8(m, 8) == 0x5F && Rd8(m, 9) == 0x46 && Rd8(m, 10) == 0x53 && Rd8(m, 11) == 0x5F
              && Rd64(m, 12) == g.blocks && Rd64(m, 20) == g.blocks / 20 && Rd64(m, 28) == g.bpb
  {
    hide Rd8, Rd64;
    if HeaderAt(m, g) {
      forall k | 0 <= k < 8 ensures Rd8(m, 4 + k) == SIGNATURE[k] {
      }
      assert Rd8(m, 4 + 0) == SIGNATURE[0] && Rd8(m, 4 + 1) == SIGNATURE[1] && Rd8(m, 4 + 2) == SIGNATURE[2];
      assert Rd8(m, 4 + 3) == SIGNATURE[3] && Rd8(m, 4 + 4) == SIGNATURE[4] && Rd8(m, 4 + 5) == SIGNATURE[5];
      assert Rd8(m, 4 + 6) == SIGNATURE[6] && Rd8(m, 4 + 7) == SIGNATURE[7];
    }
  }

  ghost predicate FatAt(m: Mem, g: Geometry, fat: seq<nat>) {
    forall b :: 0 <= b < |fat| ==> Rd64(m, FatLoc(g, b)) == fat[b]
  }

  ghost predicate DirAt(m: Mem, g: Geometry, dir: Table)
    requires g.bpb > 0
  {
    && (forall i :: 0 <= i < |dir| ==> EntryFits(dir[i]) && EntryAt(m, EntryLoc(g, i), dir[i]))
    && (forall i: nat :: |dir| <= i < Capacity(g) ==> Rd64(m, EntryLoc(g, i)) == 0)
  }

  ghost predicate BlockAt(m: Mem, a: nat, s: Bytes) {
    forall k :: 0 <= k < |s| ==> Rd8(m, a + k) == s[k]
  }

  ghost predicate DataAt(m: Mem, g: Geometry, data: seq<Bytes>)
    requires g.bpb > 0
  {
    forall b :: DataStart(g) <= b < |data| ==> BlockAt(m, BlockLoc(g, b), data[b])
  }

  ghost predicate Encodes(m: Mem, v: Volume) {
    && Valid(v.g) && Sized(v.disk, v.g.bpb) && |v.disk.fat| == v.g.blocks && |v.dir| <= Capacity(v.g)
    && (forall b :: 0 <= b < v.g.blocks ==> v.disk.fat[b] < WORD_LIMIT)
    && HeaderAt(m, v.g) && FatAt(m, v.g, v.disk.fat) && DirAt(m, v.g, v.dir) && DataAt(m, v.g, v.disk.data)
  }

  // What a write that leaves a region alone keeps.

  lemma HeaderSame(m: Mem, m': Mem, g: Geometry)
    requires HeaderAt(m, g) && forall x: nat :: x < 512 ==> Rd8(m', x) == Rd8(m, x)
    ensures HeaderAt(m', g)
  {
    hide Rd64, Rd8;
    Rd64Same(m, m', 12);
    Rd64Same(m, m', 20);
    Rd64Same(m, m', 28);
  }

  lemma FatSame(m: Mem, m': Mem, g: Geometry, fat: seq<nat>)
    requires Valid(g) && |fat| == g.blocks && FatAt(m, g, fat)
    requires forall x: nat :: 512 <= x < EntryLoc(g, 0) ==> Rd8(m', x) == Rd8(m, x)
    ensures FatAt(m', g, fat)
  {
    hide Rd64, Rd8, FatLoc, EntryLoc;
    forall b | 0 <= b < |fat| ensures Rd64(m', FatLoc(g, b)) == fat[b] {
      FatPlace(g, b);
      Rd64Same(m, m', FatLoc(g, b));
    }
  }

  lemma DirSame(m: Mem, m': Mem, g: Geometry, dir: Table)
    requires Valid(g) && |dir| <= Capacity(g) && DirAt(m, g, dir)
    requires forall x: nat :: EntryLoc(g, 0) <= x < BlockLoc(g, DataStart(g)) ==> Rd8(m', x) == Rd8(m, x)
    ensures DirAt(m', g, dir)
  {
    hide Rd64, Rd8, EntryAt, EntryLoc, BlockLoc, Capacity, DataStart;
    forall i | 0 <= i < |dir| ensures EntryAt(m', EntryLoc(g, i), dir[i]) {
      EntryPlace(g, i);
      EntrySame(m, m', EntryLoc(g, i), dir[i]);
    }
    forall i: nat | |dir| <= i < Capacity(g) ensures Rd64(m', EntryLoc(g, i)) == 0 {
      EntryPlace(g, i);
      Rd64Same(m, m', EntryLoc(g, i));
    }
  }

  lemma DataSame(m: Mem, m': Mem, g: Geometry, data: seq<Bytes>)
    requires Valid(g) && DataAt(m, g, data)
    requires forall x: nat :: BlockLoc(g, DataStart(g)) <= x ==> Rd8(m', x) == Rd8(m, x)
    ensures DataAt(m', g, data)
  {
    hide Rd8;
    forall b | DataStart(g) <= b < |data| ensures BlockAt(m', BlockLoc(g, b), data[b]) {
      MulLessEq(DataStart(g), b, g.bpb, g.bpb);
      assert BlockAt(m, BlockLoc(g, b), data[b]);
    }
  }

  // ----- One write of the tool is one change of the volume -----

  lemma EncodesParts(m: Mem, v: Volume)
    requires Encodes(m, v)
    ensures Valid(v.g) && Sized(v.disk, v.g.bpb) && |v.disk.fat| == v.g.blocks && |v.dir| <= Capacity(v.g)
    ensures HeaderAt(m, v.g) && FatAt(m, v.g, v.disk.fat) && DirAt(m, v.g, v.dir) && DataAt(m, v.g, v.disk.data)
  {
  }

  /** `wr_qword` into the allocation table. */
  lemma FatWrite(m: Mem, v: Volume, b: nat, x: nat)
    requires Encodes(m, v) && b < v.g.blocks && x < WORD_LIMIT
    ensures Encodes(Wr64(m, FatLoc(v.g, b), x), v.(disk := v.disk.(fat := v.disk.fat[b := x])))
  {
    hide Rd64, Wr64, Rd8, HeaderAt, DirAt, DataAt, EntryLoc, BlockLoc, Capacity, FatLoc, FatAt, DataStart;
    var g := v.g;
    var m' := Wr64(m, FatLoc(g, b), x);
    EncodesParts(m, v);
    Wr64Reads(m, FatLoc(g, b), x);
    FatPlace(g, b);
    FatBeforeDir(g);
    HeaderSame(m, m', g);
    DirSame(m, m', g, v.dir);
    DataSame(m, m', g, v.disk.data);
    FatWriteTable(m, m', g, v.disk.fat, b, x);
  }

  lemma FatBeforeDir(g: Geometry)
    requires Valid(g)
    ensures 512 <= EntryLoc(g, 0) <= BlockLoc(g, DataStart(g))
  {
    hide DirStart, DataStart, Capacity, BlockLoc;
    Layout(g);
  }

  lemma FatWriteTable(m: Mem, m': Mem, g: Geometry, fat: seq<nat>, b: nat, x: nat)
    requires FatAt(m, g, fat) && b < |fat| && Rd64(m', FatLoc(g, b)) == x
    requires forall y: nat :: !(FatLoc(g, b) <= y < FatLoc(g, b) + 8) ==> Rd8(m', y) == Rd8(m, y)
    ensures FatAt(m', g, fat[b := x])
  {
    hide Rd64, Rd8;
    forall c | 0 <= c < |fat| ensures Rd64(m', FatLoc(g, c)) == fat[b := x][c] {
      if c != b {
        Rd64Same(m, m', FatLoc(g, c));
      }
    }
  }

  /** `wr_entry` into the first unused entry. */
  lemma EntryWrite(m: Mem, v: Volume, e: Entry)
    requires Encodes(m, v) && |v.dir| < Capacity(v.g) && EntryFits(e)
    ensures Encodes(WrEntry(m, EntryLoc(v.g, |v.dir|), e), v.(dir := v.dir + [e]))
  {
    hide Rd64, Rd8, WrEntry, HeaderAt, FatAt, DataAt, DirAt, BlockLoc, Capacity, EntryFits, EntryAt, EntryLoc;
    hide DataStart;
    var g := v.g;
    var a := EntryLoc(g, |v.dir|);
    var m' := WrEntry(m, a, e);
    EncodesParts(m, v);
    WrEntryReads(m, a, e);
    EntryPlace(g, |v.dir|);
    HeaderSame(m, m', g);
    FatSame(m, m', g, v.disk.fat);
    DataSame(m, m', g, v.disk.data);
    EntryWriteDir(m, m', g, v.dir, e);
  }

  lemma EntryWriteDir(m: Mem, m': Mem, g: Geometry, dir: Table, e: Entry)
    requires Valid(g) && DirAt(m, g, dir) && |dir| < Capacity(g) && EntryFits(e) && EntryAt(m', EntryLoc(g, |dir|), e)
    requires var a := EntryLoc(g, |dir|); forall x: nat :: !(a <= x < a + ENTRY_SIZE) ==> Rd8(m', x) == Rd8(m, x)
    ensures DirAt(m', g, dir + [e])
  {
    hide Rd64, Rd8, EntryAt, DirStart, Capacity;
    var d := dir + [e];
    forall i | 0 <= i < |d| ensures EntryFits(d[i]) && EntryAt(m', EntryLoc(g, i), d[i]) {
      if i < |dir| {
        assert d[i] == dir[i];
        EntrySame(m, m', EntryLoc(g, i), dir[i]);
      }
    }
    forall i: nat | |d| <= i < Capacity(g) ensures Rd64(m', EntryLoc(g, i)) == 0 {
      Rd64Same(m, m', EntryLoc(g, i));
    }
  }

  /** Writing a data block. */
  lemma BlockWrite(m: Mem, v: Volume, b: nat, s: Bytes)
    requires Encodes(m, v) && DataStart(v.g) <= b < v.g.blocks && |s| == v.g.bpb
    ensures Encodes(WrBytes(m, BlockLoc(v.g, b), s), v.(disk := v.disk.(data := v.disk.data[b := s])))
  {
    hide Rd64, Rd8, WrBytes, HeaderAt, FatAt, DirAt, DataAt, EntryLoc, BlockLoc, Capacity, DataStart;
    var g := v.g;
    var a := BlockLoc(g, b);
    var m' := WrBytes(m, a, s);
    EncodesParts(m, v);
    WrBytesReads(m, a, s);
    BlockPlace(g, b);
    HeaderSame(m, m', g);
    FatSame(m, m', g, v.disk.fat);
    DirSame(m, m', g, v.dir);
    BlockWriteData(m, m', g, v.disk.data, b, s);
  }

  lemma BlockWriteData(m: Mem, m': Mem, g: Geometry, data: seq<Bytes>, b: nat, s: Bytes)
    requires g.bpb > 0 && DataAt(m, g, data) && b < |data| && |s| == g.bpb
    requires forall c :: 0 <= c < |data| ==> |data[c]| == g.bpb
    requires var a := BlockLoc(g, b); forall x: nat :: Rd8(m', x) == if a <= x < a + |s| then s[x - a] else Rd8(m, x)
    ensures DataAt(m', g, data[b := s])
  {
    hide Rd8, BlockLoc, DataStart;
    var data' := data[b := s];
    forall c | DataStart(g) <= c < |data'| ensures BlockAt(m', BlockLoc(g, c), data'[c]) {
      if c != b {
        BlocksDisjoint(g, b, c);
        assert BlockAt(m, BlockLoc(g, c), data[c]);
      }
    }
  }
}
