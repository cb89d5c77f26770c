/** The page tables as the processor reads them: four words, each picked by nine bits of the address. What
    `vmm_map_page` and `vmm_get_page` (kernel/src/mm/vmm.c) store and read is tied to these words, and the heap's pages
    are shown to be writable through them. */
module PageWords {
  import opened Memory
  import opened PageTable
  import opened AddressSpaces
  import opened Vmm
  import Heap
  import Pmm

  /** The four indices in the low 48 bits of an address, above the offset in its page. */
  predicate Indices(v: nat, a: nat, b: nat, c: nat, d: nat) {
    && a < 512 && b < 512 && c < 512 && d < 512
    && v % 0x1_0000_0000_0000 / 4096 == ((a * 512 + b) * 512 + c) * 512 + d
  }

  /** Every address has just one such split. */
  lemma IndicesOf(v: nat, a: nat, b: nat, c: nat, d: nat)
    ensures Indices(v, a, b, c, d) <==> a == Slot(v, 4) && b == Slot(v, 3) && c == Slot(v, 2) && d == Slot(v, 1)
  {
    var n := v % 0x1_0000_0000_0000 / 4096;
    assert Low48(v) / 0x20_0000 == n / 512 && Low48(v) / 0x4000_0000 == n / 512 / 512;
    assert Low48(v) / 0x80_0000_0000 == n / 512 / 512 / 512;
    if Indices(v, a, b, c, d) {
      assert n / 512 == (a * 512 + b) * 512 + c && n / 512 / 512 == a * 512 + b && n / 512 / 512 / 512 == a;
    }
  }

  /** The word at index `i` of the table in frame `f`. */
  function Word(m: Mem, f: nat, i: nat): nat {
    Rd64(m, f * 4096 + 8 * i)
  }

  /** A word that leads to the table in frame `f`: bit 0 is set, bit 7 is not, and the frame is above bit 12. */
  predicate LeadsTo(w: nat, f: nat) {
    w % 2 == 1 && w / 128 % 2 == 0 && w / 4096 == f
  }

  /** From the root down, three words lead to the last table. */
  predicate Path(m: Mem, root: nat, a: nat, b: nat, c: nat, f3: nat, f2: nat, f1: nat) {
    LeadsTo(Word(m, root, a), f3) && LeadsTo(Word(m, f3, b), f2) && LeadsTo(Word(m, f2, c), f1)
  }

  /** `vmm_get_page` reads the word that the processor takes for the address; it gives 0 where a word on the way is not
      present, and the large entry where there is one. */
  lemma GetPageReads(m: Mem, root: nat, v: nat, a: nat, b: nat, c: nat, d: nat)
    requires Indices(v, a, b, c, d)
    ensures forall f3, f2, f1 :: Path(m, root, a, b, c, f3, f2, f1) ==> GetPage(m, root, v) == Word(m, f1, d)
    ensures var w := Word(m, root, a); w % 2 == 0 ==> GetPage(m, root, v) == 0
    ensures forall f3 :: LeadsTo(Word(m, root, a), f3) && Word(m, f3, b) % 2 == 0 ==> GetPage(m, root, v) == 0
    ensures forall f3, f2 :: LeadsTo(Word(m, root, a), f3) && LeadsTo(Word(m, f3, b), f2) ==>
              var w := Word(m, f2, c);
              (w % 2 == 0 ==> GetPage(m, root, v) == 0) && (w % 2 == 1 && w / 128 % 2 == 1 ==> GetPage(m, root, v) == w)
  {
    hide Rd64, Slot;
    IndicesOf(v, a, b, c, d);
    WalkWords(m, root, 4, v);
    forall f { WalkWords(m, f, 3, v); }
    forall f { WalkWords(m, f, 2, v); }
    forall f { WalkWords(m, f, 1, v); }
    hide Walk;
  }

  lemma WalkWords(m: Mem, f: nat, level: nat, v: nat)
    requires 1 <= level <= 4
    ensures var w := Word(m, f, Slot(v, level));
            Walk(m, f, level, v) == if level == 1 then w else if w % 2 == 0 then 0 else if w / 128 % 2 == 1 then w
                                    else Walk(m, w / 4096, level - 1, v)
  {
    hide Rd64, Slot;
  }

  /** `vmm_map_page` stores one word there, if the tables exist: the address OR the flags. */
  lemma MapPageStores(vm: Vm, v: nat, phys: nat, flags: nat, a: nat, b: nat, c: nat, d: nat, f3: nat, f2: nat, f1: nat)
    requires vm.frames.highest >= Pmm.PAGE && Indices(v, a, b, c, d) && Path(vm.mem, vm.cr3, a, b, c, f3, f2, f1)
    requires vm.cr3 < WINDOW && f3 < WINDOW && f2 < WINDOW && f1 < WINDOW
    ensures MapPage(vm, v, phys, flags) == Some(vm.(mem := Wr64(vm.mem, f1 * 4096 + 8 * d, BitOr(phys, flags))))
  {
    hide Rd64, Wr64, Slot, BitOr;
    IndicesOf(v, a, b, c, d);
    assert Descend(vm, f1, 1, v) == Some((vm, f1));
    assert Descend(vm, f2, 2, v) == Some((vm, f1));
    assert Descend(vm, f3, 3, v) == Some((vm, f1));
  }

  /** Whatever tables it has to make, afterwards three words lead to the word stored for the address, and a new table is
      linked with the flags present, write and user. */
  lemma MapPageLinks(vm: Vm, t: Layout, v: nat, phys: nat, flags: nat, a: nat, b: nat, c: nat, d: nat)
    requires Inv(vm, t) && Covers(t, vm.cr3, v) && LargeFree(vm.mem, vm.cr3, 4, v) && Indices(v, a, b, c, d)
    requires phys < WORD_LIMIT && flags < WORD_LIMIT && MapPage(vm, v, phys, flags).Some?
    ensures var m := MapPage(vm, v, phys, flags).value.mem;
            exists f3, f2, f1 :: Path(m, vm.cr3, a, b, c, f3, f2, f1) && Word(m, f1, d) == BitOr(phys, flags)
  {
    hide Rd64, Slot, BitOr, MapPage, Descended, LargeFree, Walk, PageNumber, Prefix;
    IndicesOf(v, a, b, c, d);
    PrefixRoot(v);
    var vm' := MapPage(vm, v, phys, flags).value;
    MapPageRefines(vm, t, v, phys, flags);
    MappedLeaf(vm, t, v, phys, flags);
    PathOfLeaf(vm'.mem, vm.cr3, v);
    var f3 := FrameOf(Entry(vm'.mem, vm.cr3, a));
    var f2 := FrameOf(Entry(vm'.mem, f3, b));
    var f1 := FrameOf(Entry(vm'.mem, f2, c));
    EntryWord(vm'.mem, vm.cr3, a);
    EntryWord(vm'.mem, f3, b);
    EntryWord(vm'.mem, f2, c);
    GetPageReads(vm'.mem, vm.cr3, v, a, b, c, d);
    hide Entry;
    assert Path(vm'.mem, vm.cr3, a, b, c, f3, f2, f1);
  }

  lemma EntryWord(m: Mem, f: nat, i: nat)
    ensures Entry(m, f, i) == Word(m, f, i)
  {
  }

  lemma MappedLeaf(vm: Vm, t: Layout, v: nat, phys: nat, flags: nat)
    requires Inv(vm, t) && Covers(t, vm.cr3, v) && LargeFree(vm.mem, vm.cr3, 4, v)
    requires phys < WORD_LIMIT && flags < WORD_LIMIT && MapPage(vm, v, phys, flags).Some?
    ensures Leaf(MapPage(vm, v, phys, flags).value.mem, vm.cr3, 4, v).Some?
  {
    hide Entry, Slot, Prefix, WithEntry, BitOr, Walk, Leaf, LargeFree, PageNumber;
    var w := BitOr(phys, flags);
    OrWord(phys, flags);
    PrefixRoot(v);
    DescendCorrect(vm, t, vm.cr3, 4, v);
    var (vm1, pt) := Descend(vm, vm.cr3, 4, v).value;
    LeafWrite(vm1.mem, Descended(vm, t, vm.cr3, 4, v), pt, Slot(v, 1), w, vm.cr3, 4, v);
  }

  lemma PathOfLeaf(m: Mem, root: nat, v: nat)
    requires Leaf(m, root, 4, v).Some?
    ensures var e3 := Entry(m, root, Slot(v, 4));
            var e2 := Entry(m, FrameOf(e3), Slot(v, 3));
            var e1 := Entry(m, FrameOf(e2), Slot(v, 2));
            Present(e3) && !Large(e3) && Present(e2) && !Large(e2) && Present(e1) && !Large(e1)
  {
    hide Entry, Slot, FrameOf, Present, Large;
    LeafStep(m, root, 4, v);
    LeafStep(m, FrameOf(Entry(m, root, Slot(v, 4))), 3, v);
    LeafStep(m, FrameOf(Entry(m, FrameOf(Entry(m, root, Slot(v, 4))), Slot(v, 3))), 2, v);
  }

  lemma LeafStep(m: Mem, f: nat, level: nat, v: nat)
    requires 2 <= level <= 4 && Leaf(m, f, level, v).Some?
    ensures var e := Entry(m, f, Slot(v, level));
            Present(e) && !Large(e) && Leaf(m, FrameOf(e), level - 1, v) == Leaf(m, f, level, v)
  {
  }

  /** A new table is linked by its frame with the flags present, write and user, and is empty. */
  lemma NewTableWord(vm: Vm, t: Layout, f: nat, i: nat)
    requires Inv(vm, t) && Managed(t, f, i) && Word(vm.mem, f, i) % 2 == 0 && EnsureTable(vm, f, i).Some?
    ensures var (vm', p) := EnsureTable(vm, f, i).value;
            && p in vm.frames.free && p !in vm'.frames.free && Word(vm'.mem, f, i) == p * 4096 + 7
            && forall j :: 0 <= j < 512 ==> Word(vm'.mem, p, j) == 0
  {
    hide Rd64, EnsureTable;
    EntryWord(vm.mem, f, i);
    EnsureTableFresh(vm, t, f, i);
    EntryWord(EnsureTable(vm, f, i).value.0.mem, f, i);
    forall j { EntryWord(EnsureTable(vm, f, i).value.0.mem, EnsureTable(vm, f, i).value.1, j); }
  }

  // ----- The physical window -----

  /** In the window the kernel's short cut is the processor's translation: the 2 MB page that holds the address. */
  lemma WindowIsDirect(m: Mem, es: seq<Pmm.E820>, foreign: set<nat>, x: nat)
    requires BootTables(m) && es != [] && x < 0x2_0000_0000
    ensures var vm, v := BootVm(m, es, foreign), 0xFFFF_8000_0000_0000 + x;
            var e := GetPage(vm.mem, vm.cr3, v);
            && GetPhysical(vm, v) == Some(x) && e % 2 == 1 && e / 128 % 2 == 1
            && e / 0x20_0000 * 0x20_0000 + v % 0x20_0000 == x
  {
    hide Walk, BootTables, Pmm.Init, AfterVmmInit;
    DirectMap(m, x);
    LargeBit(x / 0x20_0000);
    var q := x / 0x20_0000;
    assert (q * 0x20_0000 + 0x83) / 0x20_0000 == q;
    assert 0xFFFF_8000_0000_0000 == 0x7FF_FC00_0000 * 0x20_0000;
    ModShift(0x7FF_FC00_0000, x);
  }

  lemma ModShift(q: nat, x: nat)
    ensures (q * 0x20_0000 + x) % 0x20_0000 == x % 0x20_0000
  {
  }

  /** Outside the window the address comes from the word: its frame and the offset in the page. */
  lemma PhysicalReads(vm: Vm, v: nat, a: nat, b: nat, c: nat, d: nat, f3: nat, f2: nat, f1: nat)
    requires Indices(v, a, b, c, d) && Path(vm.mem, vm.cr3, a, b, c, f3, f2, f1)
    requires v < 0xFFFF_8000_0000_0000 || v >= 0xFFFF_8080_0000_0000
    ensures var w := Word(vm.mem, f1, d);
            GetPhysical(vm, v) == if w % 2 == 1 then Some(w / 4096 * 4096 + v % 4096) else None
  {
    hide Walk;
    GetPageReads(vm.mem, vm.cr3, v, a, b, c, d);
  }

  // ----- Writable pages -----

  /** Bit 1 is set in every present word that the kernel set up above the last level. */
  ghost predicate TablesWritable(m: Mem, t: Layout) {
    forall f, i :: Managed(t, f, i) && Present(Entry(m, f, i)) ==> Entry(m, f, i) / 2 % 2 == 1
  }

  lemma BootWritable(m: Mem)
    requires BootTables(m)
    ensures TablesWritable(AfterVmmInit(m), BootLayout())
  {
    hide Entry, WithEntry, Present;
    EntryAfterWrite(m, BOOT_ROOT, 0, 0);
    ZeroEntry();
    forall q { WriteBit(q); }
  }

  lemma WriteBit(q: nat)
    ensures (q * 4096 + 3) / 2 % 2 == 1 && (q * 0x20_0000 + 0x83) / 2 % 2 == 1 && (q * 4096 + TABLE_FLAGS) / 2 % 2 == 1
  {
    assert (q * 4096 + 3) / 2 == 2 * (q * 1024) + 1;
    assert (q * 0x20_0000 + 0x83) / 2 == 2 * (q * 0x8_0000 + 32) + 1;
    assert (q * 4096 + 7) / 2 == 2 * (q * 1024 + 1) + 1;
  }

  lemma EnsureWritable(vm: Vm, t: Layout, f: nat, i: nat)
    requires Inv(vm, t) && Managed(t, f, i) && EnsureTable(vm, f, i).Some? && TablesWritable(vm.mem, t)
    ensures TablesWritable(EnsureTable(vm, f, i).value.0.mem, Extended(vm, t, f, i))
  {
    hide Entry, Present, TablesWritable, WithEntry, Cleared, BitOr;
    if !Present(Entry(vm.mem, f, i)) {
      EnsureTableFresh(vm, t, f, i);
      var (vm', p) := EnsureTable(vm, f, i).value;
      LinkWritable(vm.mem, vm'.mem, t, f, i, p, Role(t.roles[f].level - 1, t.roles[f].prefix * 512 + i));
    }
  }

  lemma LinkWritable(m: Mem, m': Mem, t: Layout, f: nat, i: nat, p: nat, role: Role)
    requires TablesWritable(m, t) && f in t.roles && p !in t.roles && Entry(m', f, i) == p * 4096 + TABLE_FLAGS
    requires forall j :: 0 <= j < 512 ==> Entry(m', p, j) == 0
    requires forall h: nat, j: nat :: h != p && j < 512 && !(h == f && j == i) ==> Entry(m', h, j) == Entry(m, h, j)
    ensures TablesWritable(m', t.(roles := t.roles[p := role]))
  {
    hide Entry, Present;
    ZeroEntry();
    WriteBit(p);
    forall g, j | Managed(t.(roles := t.roles[p := role]), g, j) && Present(Entry(m', g, j))
      ensures Entry(m', g, j) / 2 % 2 == 1
    {
      assert g != p ==> Managed(t, g, j);
    }
  }

  lemma {:induction false} DescendWritable(vm: Vm, t: Layout, f: nat, level: nat, v: nat)
    requires Inv(vm, t) && 1 <= level <= 4 && TablesWritable(vm.mem, t)
    requires f in t.roles && t.roles[f] == Role(level, Prefix(v, level)) && (level == 4 ==> Covers(t, f, v))
    requires LargeFree(vm.mem, f, level, v) && Descend(vm, f, level, v).Some?
    ensures TablesWritable(Descend(vm, f, level, v).value.0.mem, Descended(vm, t, f, level, v))
    decreases level
  {
    hide Entry, Slot, Prefix, WithEntry, Cleared, BitOr, TablesWritable;
    if level > 1 {
      var s := Slot(v, level);
      PrefixStep(v, level);
      assert Managed(t, f, s);
      var (vm1, p) := EnsureTable(vm, f, s).value;
      EnsureTableKeepsTree(vm, t, f, s);
      EnsureTableHighest(vm, f, s);
      EnsureWritable(vm, t, f, s);
      if !Present(Entry(vm.mem, f, s)) {
        EnsureTableFresh(vm, t, f, s);
        assert Entry(vm1.mem, p, Slot(v, level - 1)) == 0;
      }
      assert LargeFree(vm1.mem, p, level - 1, v);
      DescendWritable(vm1, Extended(vm, t, f, s), p, level - 1, v);
    }
  }

  lemma LastLevelWritable(m: Mem, t: Layout, pt: nat, j: nat, w: nat)
    requires TablesWritable(m, t) && pt in t.roles && t.roles[pt].level == 1 && j < 512 && w < WORD_LIMIT
    ensures TablesWritable(WithEntry(m, pt, j, w), t)
  {
    hide Entry, WithEntry, Present;
    EntryAfterWrite(m, pt, j, w);
  }

  lemma MapPageWritable(vm: Vm, t: Layout, v: nat, phys: nat, flags: nat)
    requires Inv(vm, t) && Covers(t, vm.cr3, v) && LargeFree(vm.mem, vm.cr3, 4, v) && TablesWritable(vm.mem, t)
    requires phys < WORD_LIMIT && flags < WORD_LIMIT && MapPage(vm, v, phys, flags).Some?
    ensures TablesWritable(MapPage(vm, v, phys, flags).value.mem, Descended(vm, t, vm.cr3, 4, v))
  {
    hide Entry, Slot, Prefix, WithEntry, BitOr, Leaf, LargeFree, TablesWritable, Grown;
    PrefixRoot(v);
    OrWord(phys, flags);
    DescendCorrect(vm, t, vm.cr3, 4, v);
    DescendWritable(vm, t, vm.cr3, 4, v);
    var (vm1, pt) := Descend(vm, vm.cr3, 4, v).value;
    LastLevelWritable(vm1.mem, Descended(vm, t, vm.cr3, 4, v), pt, Slot(v, 1), BitOr(phys, flags));
  }

  lemma {:induction false} BackRangeWritable(vm: Vm, t: Layout, ptr: nat, n: nat, flags: nat)
    requires Inv(vm, t) && Reserved(vm, t, ptr, n) && flags < 4096 && TablesWritable(vm.mem, t)
    requires BackRange(vm, ptr, n, flags).Backed?
    ensures TablesWritable(BackRange(vm, ptr, n, flags).vm.mem, BackedLayout(vm, t, ptr, n, flags))
  {
    hide Walk, LargeFree, MapPage, Descended, PageNumber, Low48, Slot, RangeBacked, Mapped, TablesWritable;
    if n > 0 {
      var r := BackRange(vm, ptr, n - 1, flags);
      BackRangeCorrect(vm, t, ptr, n - 1, flags);
      BackRangeWritable(vm, t, ptr, n - 1, flags);
      var t1 := BackedLayout(vm, t, ptr, n - 1, flags);
      RangeFacts(vm, t, r.vm, t1, ptr, n - 1, flags, r.frames);
      TakeFrame(r.vm, t1);
      var (fr, a) := Pmm.Alloc(r.vm.frames);
      MapPageWritable(r.vm.(frames := fr), t1, Page(ptr, n - 1), a.value * 4096, flags);
    }
  }

  /** Data outside the tables does not matter. */
  lemma DataKeepsWritable(m: Mem, m': Mem, t: Layout)
    requires TablesWritable(m, t) && forall x: nat :: x / 4096 in t.roles ==> Rd8(m', x) == Rd8(m, x)
    ensures TablesWritable(m', t)
  {
    hide Rd8;
    forall f: nat, i: nat | f in t.roles && i < 512 ensures Entry(m', f, i) == Entry(m, f, i) {
      Heap.EntryBytes(m, m', f, i);
    }
    hide Entry, Present;
  }

  /** `kmalloc` leaves it so. */
  lemma KmallocWritable(h: Heap.State, n: nat)
    requires Heap.HeapInv(h) && h.vm.frames.highest >= Pmm.PAGE && Heap.RoomFor(h, n) && Heap.Kmalloc(h, n).Given?
    requires TablesWritable(h.vm.mem, h.t)
    ensures TablesWritable(Heap.Kmalloc(h, n).h.vm.mem, Heap.Kmalloc(h, n).h.t)
  {
    hide Heap.HeapInv, Heap.RoomFor, TablesWritable, BackRange, BackedLayout, FirstFit, RangeBacked, Heap.WithHeader;
    hide Heap.Fill;
    Heap.FoundRange(h, n);
    var pages := Heap.PagesFor(n);
    var (r, ptr) := Alloc(h.vm, Heap.KERNEL_HEAP, pages, Heap.FLAGS);
    Heap.KmallocKeeps(h, n);
    HeapFacts(h);
    Heap.HeapReserved(h.vm, h.t, ptr, pages);
    BackRangeWritable(h.vm, h.t, ptr, pages, Heap.FLAGS);
    Heap.BlockBytes(r.vm.mem, r.frames, n);
    NotTables(h.vm, h.t, r.vm, BackedLayout(h.vm, h.t, ptr, pages, Heap.FLAGS), ptr, pages, r.frames);
    DataKeepsWritable(r.vm.mem, Heap.Kmalloc(h, n).h.vm.mem, BackedLayout(h.vm, h.t, ptr, pages, Heap.FLAGS));
  }

  lemma NotTables(vm: Vm, t: Layout, vm': Vm, t': Layout, ptr: nat, n: nat, ps: seq<nat>)
    requires RangeBacked(vm, t, vm', t', ptr, n, Heap.FLAGS, ps)
    ensures forall p :: p in ps ==> p !in t'.roles
  {
  }

  lemma HeapFacts(h: Heap.State)
    requires Heap.HeapInv(h)
    ensures Inv(h.vm, h.t) && Heap.HeapArea(h.vm, h.t)
  {
  }

  /** The processor can write to the page: all four words have bit 0 and bit 1 set. */
  predicate CanWrite(m: Mem, root: nat, a: nat, b: nat, c: nat, d: nat, f3: nat, f2: nat, f1: nat) {
    && Path(m, root, a, b, c, f3, f2, f1)
    && Word(m, root, a) / 2 % 2 == 1 && Word(m, f3, b) / 2 % 2 == 1 && Word(m, f2, c) / 2 % 2 == 1
    && Word(m, f1, d) % 2 == 1 && Word(m, f1, d) / 2 % 2 == 1
  }

  /** Every page of a live block is its frame, and can be written to. */
  lemma BlockWritable(h: Heap.State, q: nat, i: nat, a: nat, b: nat, c: nat, d: nat)
    requires Heap.HeapInv(h) && TablesWritable(h.vm.mem, h.t) && q in h.blocks && i < |h.blocks[q].frames|
    requires Indices(q + i * 4096, a, b, c, d)
    ensures exists f3, f2, f1 ::
              CanWrite(h.vm.mem, h.vm.cr3, a, b, c, d, f3, f2, f1)
              && Word(h.vm.mem, f1, d) / 4096 == h.blocks[q].frames[i]
  {
    hide Rd64, Slot, Walk, Leaf, LargeFree, Prefix;
    var v, m, root := Page(q, i), h.vm.mem, h.vm.cr3;
    BlockPage(h, q, i);
    IndicesOf(v, a, b, c, d);
    LeafExists(m, root, 4, v);
    PathOfLeaf(m, root, v);
    PathManaged(h.vm, h.t, v);
    var f3 := FrameOf(Entry(m, root, a));
    var f2 := FrameOf(Entry(m, f3, b));
    var f1 := FrameOf(Entry(m, f2, c));
    EntryWord(m, root, a);
    EntryWord(m, f3, b);
    EntryWord(m, f2, c);
    GetPageReads(m, root, v, a, b, c, d);
    WriteBit(h.blocks[q].frames[i]);
    hide Entry, Heap.HeapInv;
    assert Path(m, root, a, b, c, f3, f2, f1);
    assert CanWrite(m, root, a, b, c, d, f3, f2, f1);
  }

  lemma BlockPage(h: Heap.State, q: nat, i: nat)
    requires Heap.HeapInv(h) && q in h.blocks && i < |h.blocks[q].frames|
    ensures Inv(h.vm, h.t) && Covers(h.t, h.vm.cr3, Page(q, i)) && LargeFree(h.vm.mem, h.vm.cr3, 4, Page(q, i))
    ensures GetPage(h.vm.mem, h.vm.cr3, Page(q, i)) == h.blocks[q].frames[i] * 4096 + 3
    ensures (h.blocks[q].frames[i] * 4096 + 3) / 4096 == h.blocks[q].frames[i]
    ensures (h.blocks[q].frames[i] * 4096 + 3) % 2 == 1
  {
    hide Walk, LargeFree, Slot, Inv, Heap.HeapArea, Heap.StoredPages, Heap.StoredSize;
    Heap.LiveOk(h, q);
    PresentEntry(h.blocks[q].frames[i], 3);
  }

  /** The pointer given out is 16 bytes past the start of the block, and byte `k` from there is byte `k` of the
      payload. */
  lemma PayloadAddress(h: Heap.State, q: nat, k: nat)
    requires Heap.HeapInv(h) && q in h.blocks && k < h.blocks[q].n
    ensures 16 + k < |h.blocks[q].frames| * 4096
    ensures GetPhysical(h.vm, q + 16 + k) == Some(Heap.Payload(h.blocks[q].frames, k))
  {
    hide Walk, LargeFree, Slot, Inv, Heap.HeapArea, Heap.StoredPages, Heap.StoredSize, Holds;
    Heap.LiveOk(h, q);
    hide GetPhysical;
    Heap.HeldAddress(h.vm, h.t, q, h.blocks[q].frames, 16 + k);
    assert q + 16 + k == q + (16 + k);
  }

  /** The first block of the booted kernel starts the heap region. */
  lemma FirstBlock(m: Mem, es: seq<Pmm.E820>, foreign: set<nat>, n: nat)
    requires BootTables(m) && es != [] && Pmm.NearlyFits(es) && forall p :: p in foreign ==> p >= Pmm.Limit(es)
    requires Pmm.PAGE <= Pmm.Init(es, foreign).highest < WORD_LIMIT
    requires n < 0x10_0000_0000
    requires Heap.Kmalloc(Heap.State(BootVm(m, es, foreign), BootLayout(), map[]), n).Given?
    ensures Heap.Kmalloc(Heap.State(BootVm(m, es, foreign), BootLayout(), map[]), n).ptr == 0xFFFF_8100_0000_0000
  {
    hide Pmm.Init, BootTables, Pmm.NearlyFits, Pmm.Limit, BackRange, BackedLayout, Heap.Fill, Heap.WithHeader, Walk;
    var vm, count := BootVm(m, es, foreign), Heap.PagesFor(n);
    forall i | 0 <= i < count ensures Unmapped(vm, Page(0xFFFF_8100_0000_0000, i)) {
      HeapEmpty(m, 0xFFFF_8100_0000_0000 + i * 4096);
      ZeroEntry();
    }
    assert FitsAt(vm, 0xFFFF_8100_0000_0000, count);
    hide Unmapped, FitsAt;
    assert FirstFit(vm, 0xFFFF_8100_0000_0000, count) == Some(0xFFFF_8100_0000_0000);
  }

  /** At boot nothing is mapped in the first 512 GB of the heap region. */
  lemma HeapEmpty(m: Mem, v: nat)
    requires BootTables(m) && 0xFFFF_8100_0000_0000 <= v < 0xFFFF_8180_0000_0000
    ensures GetPage(AfterVmmInit(m), BOOT_ROOT, v) == 0
  {
    hide WithEntry, Slot;
    Heap.HeapSlotOf(v);
    hide Entry;
    EntryAfterWrite(m, BOOT_ROOT, 0, 0);
    ZeroEntry();
  }

  /** The three tables on the path of a mapped page are the kernel's. */
  lemma PathManaged(vm: Vm, t: Layout, v: nat)
    requires Inv(vm, t) && Covers(t, vm.cr3, v) && Leaf(vm.mem, vm.cr3, 4, v).Some? && TablesWritable(vm.mem, t)
    ensures var e3 := Entry(vm.mem, vm.cr3, Slot(v, 4));
            var e2 := Entry(vm.mem, FrameOf(e3), Slot(v, 3));
            var e1 := Entry(vm.mem, FrameOf(e2), Slot(v, 2));
            e3 / 2 % 2 == 1 && e2 / 2 % 2 == 1 && e1 / 2 % 2 == 1
  {
    hide Entry, Slot, FrameOf, Present, Large, Prefix;
    PathOfLeaf(vm.mem, vm.cr3, v);
    var r := vm.cr3;
    assert Managed(t, r, Slot(v, 4)) && Linked(vm.mem, t, r, Slot(v, 4));
    var f3 := FrameOf(Entry(vm.mem, r, Slot(v, 4)));
    assert Managed(t, f3, Slot(v, 3)) && Linked(vm.mem, t, f3, Slot(v, 3));
    var f2 := FrameOf(Entry(vm.mem, f3, Slot(v, 3)));
    assert Managed(t, f2, Slot(v, 2));
  }
}
