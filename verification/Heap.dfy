/** The kernel heap (kernel/src/mm/mm.c): whole pages per block, with the page count and the byte
    size stored in the first sixteen bytes. */
module Heap {
  import opened Memory
  import opened PageTable
  import opened Vmm
  import AddressSpaces
  import Pmm

  const KERNEL_HEAP: nat := AddressSpaces.KERNEL_HEAP
  const HEAP_TOP: nat := 0xFFFF_8180_0000_0000
  const HEAP_SLOT: nat := 258
  const FLAGS: nat := 3   // KERNEL_HEAP_FLAGS
  const HEADER: nat := 16

  /** A live block: the size asked for and the frames that back its pages. */
  datatype Block = Block(n: nat, frames: seq<nat>)

  /** The machine, the roles of its table frames, and the live blocks by first address. */
  datatype State = State(vm: Vm, t: Layout, blocks: map<nat, Block>)

  function PagesFor(n: nat): (pages: nat)
    ensures pages > 0 && (pages - 1) * 4096 < n + HEADER <= pages * 4096
  {
    (n + HEADER + 4095) / 4096
  }

  // ----- Bytes of a block -----

  /** Physical address of byte `k` of a block on the frames `ps`. */
  function Addr(ps: seq<nat>, k: nat): nat
    requires k < |ps| * 4096
  {
    ps[k / 4096] * 4096 + k % 4096
  }

  /** `memset(ptr, 0, n)` */
  function Fill(m: Mem, ps: seq<nat>, n: nat): Mem
    requires n <= |ps| * 4096
  {
    if n == 0 then m else Fill(m, ps, n - 1)[Addr(ps, n - 1) := 0]
  }

  /** Physical address of payload byte `k`: the pointer given out is 16 bytes into the block. */
  function Payload(ps: seq<nat>, k: nat): nat
    requires HEADER + k < |ps| * 4096
  {
    Addr(ps, HEADER + k)
  }

  /** `memcpy(new, old, n)` between the payloads of two blocks. */
  function Copy(m: Mem, from: seq<nat>, to: seq<nat>, n: nat): Mem
    requires HEADER + n <= |from| * 4096 && HEADER + n <= |to| * 4096
  {
    if n == 0 then m
    else
      var m' := Copy(m, from, to, n - 1);
      m'[Payload(to, n - 1) := Rd8(m', Payload(from, n - 1))]
  }

  lemma AddrInjective(ps: seq<nat>, j: nat, k: nat)
    requires j < |ps| * 4096 && k < |ps| * 4096 && Distinct(ps)
    ensures Addr(ps, j) == Addr(ps, k) <==> j == k
    ensures Addr(ps, j) / 4096 == ps[j / 4096]
  {
    assert j == j / 4096 * 4096 + j % 4096;
    assert k == k / 4096 * 4096 + k % 4096;
  }

  lemma AddrFrame(ps: seq<nat>, k: nat)
    requires k < |ps| * 4096
    ensures Addr(ps, k) / 4096 in ps
  {
    assert Addr(ps, k) / 4096 == ps[k / 4096];
  }

  lemma {:induction false} FillBytes(m: Mem, ps: seq<nat>, n: nat)
    requires n <= |ps| * 4096 && Distinct(ps)
    ensures forall k :: 0 <= k < n ==> Rd8(Fill(m, ps, n), Addr(ps, k)) == 0
    ensures forall x: nat :: x / 4096 !in ps ==> Rd8(Fill(m, ps, n), x) == Rd8(m, x)
  {
    hide Addr;
    if n > 0 {
      FillBytes(m, ps, n - 1);
      AddrFrame(ps, n - 1);
    }
  }

  lemma {:induction false} CopyBytes(m: Mem, from: seq<nat>, to: seq<nat>, n: nat)
    requires HEADER + n <= |from| * 4096 && HEADER + n <= |to| * 4096 && Distinct(to) && Elems(from) !! Elems(to)
    ensures forall k :: 0 <= k < n ==> Rd8(Copy(m, from, to, n), Payload(to, k)) == Rd8(m, Payload(from, k))
    ensures forall x: nat :: (forall k :: 0 <= k < n ==> x != Payload(to, k)) ==>
            Rd8(Copy(m, from, to, n), x) == Rd8(m, x)
  {
    hide Payload, Elems;
    if n > 0 {
      CopyBytes(m, from, to, n - 1);
      var m' := Copy(m, from, to, n - 1);
      var a, b := Payload(to, n - 1), Payload(from, n - 1);
      hide Distinct, Copy;
      forall k | 0 <= k < n - 1 ensures a != Payload(to, k) {
        PayloadInjective(to, n - 1, k);
      }
      forall k | 0 <= k < n - 1 ensures b != Payload(to, k) {
        PayloadApart(from, to, n - 1, k);
      }
      assert Rd8(m', b) == Rd8(m, b);
      assert Copy(m, from, to, n) == m'[a := Rd8(m', b)] by { CopyStep(m, from, to, n); }
    }
  }

  lemma CopyStep(m: Mem, from: seq<nat>, to: seq<nat>, n: nat)
    requires HEADER + n <= |from| * 4096 && HEADER + n <= |to| * 4096 && n > 0
    ensures var m' := Copy(m, from, to, n - 1);
            Copy(m, from, to, n) == m'[Payload(to, n - 1) := Rd8(m', Payload(from, n - 1))]
  {
  }

  lemma PayloadInjective(ps: seq<nat>, j: nat, k: nat)
    requires HEADER + j < |ps| * 4096 && HEADER + k < |ps| * 4096 && Distinct(ps) && j != k
    ensures Payload(ps, j) != Payload(ps, k)
  {
    AddrInjective(ps, HEADER + j, HEADER + k);
  }

  lemma PayloadApart(ps: seq<nat>, qs: seq<nat>, j: nat, k: nat)
    requires HEADER + j < |ps| * 4096 && HEADER + k < |qs| * 4096 && Elems(ps) !! Elems(qs)
    ensures Payload(ps, j) != Payload(qs, k)
  {
    AddrApart(ps, qs, HEADER + j, HEADER + k);
  }

  lemma AddrApart(ps: seq<nat>, qs: seq<nat>, j: nat, k: nat)
    requires j < |ps| * 4096 && k < |qs| * 4096 && Elems(ps) !! Elems(qs)
    ensures Addr(ps, j) != Addr(qs, k)
  {
    AddrFrame(ps, j);
    AddrFrame(qs, k);
    assert Addr(ps, j) / 4096 in Elems(ps) && Addr(qs, k) / 4096 in Elems(qs);
  }

  /** The header words. */
  function StoredPages(m: Mem, ps: seq<nat>): nat
    requires ps != []
  {
    Rd64(m, ps[0] * 4096)
  }

  function StoredSize(m: Mem, ps: seq<nat>): nat
    requires ps != []
  {
    Rd64(m, ps[0] * 4096 + 8)
  }

  function WithHeader(m: Mem, ps: seq<nat>, pages: nat, n: nat): Mem
    requires ps != []
  {
    Wr64(Wr64(m, ps[0] * 4096, pages), ps[0] * 4096 + 8, n)
  }

  lemma HeaderWritten(m: Mem, ps: seq<nat>, pages: nat, n: nat)
    requires ps != [] && pages < WORD_LIMIT && n < WORD_LIMIT
    ensures var m' := WithHeader(m, ps, pages, n);
            && StoredPages(m', ps) == pages && StoredSize(m', ps) == n
            && forall x: nat :: !(ps[0] * 4096 <= x < ps[0] * 4096 + HEADER) ==> Rd8(m', x) == Rd8(m, x)
  {
    hide Rd8, RdLe, WrLe;
    var a := ps[0] * 4096;
    var m1 := Wr64(m, a, pages);
    RdWr64(m, a, pages);
    RdWr64(m1, a + 8, n);
    WrLeBytes(m, a, WordBytes(m), pages);
    WrLeBytes(m1, a + 8, WordBytes(m1), n);
    RdLeSame(m1, Wr64(m1, a + 8, n), a, WordBytes(m1));
  }

  lemma HeaderKept(m: Mem, m': Mem, ps: seq<nat>)
    requires ps != [] && forall x: nat :: ps[0] * 4096 <= x < ps[0] * 4096 + HEADER ==> Rd8(m', x) == Rd8(m, x)
    ensures StoredPages(m', ps) == StoredPages(m, ps) && StoredSize(m', ps) == StoredSize(m, ps)
  {
    hide Rd8, RdLe;
    RdLeSame(m, m', ps[0] * 4096, WordBytes(m));
    RdLeSame(m, m', ps[0] * 4096 + 8, WordBytes(m));
  }

  // ----- The invariant -----

  ghost predicate HeapArea(vm: Vm, t: Layout) {
    && InSpace(t, vm.cr3, HEAP_SLOT)
    && forall x: nat :: Slot(x, 4) == HEAP_SLOT ==> LargeFree(vm.mem, vm.cr3, 4, x)
  }

  ghost predicate BlockOk(vm: Vm, t: Layout, ptr: nat, b: Block) {
    && ptr % 4096 == 0 && KERNEL_HEAP <= ptr
    && |b.frames| == PagesFor(b.n) && ptr + |b.frames| * 4096 <= HEAP_TOP && b.n < WORD_LIMIT
    && Holds(vm, t, ptr, b.frames, FLAGS)
    && StoredPages(vm.mem, b.frames) == |b.frames| && StoredSize(vm.mem, b.frames) == b.n
  }

  /** Two blocks share no page and no frame. */
  ghost predicate Apart(p: nat, b: Block, q: nat, c: Block) {
    && (p + |b.frames| * 4096 <= q || q + |c.frames| * 4096 <= p)
    && Elems(b.frames) !! Elems(c.frames)
  }

  ghost predicate HeapInv(h: State) {
    && Inv(h.vm, h.t) && HeapArea(h.vm, h.t)
    && (forall p :: p in h.blocks ==> BlockOk(h.vm, h.t, p, h.blocks[p]))
    && (forall p, q :: p in h.blocks && q in h.blocks && p != q ==> Apart(p, h.blocks[p], q, h.blocks[q]))
  }

  // ----- Addresses in the heap area -----

  lemma HeapSlotOf(x: nat)
    requires KERNEL_HEAP <= x < HEAP_TOP
    ensures Slot(x, 4) == HEAP_SLOT && Low48(x) == x - 0xFFFF_0000_0000_0000 && OutsideDirectMap(x)
  {
    var y := x - 0xFFFF_0000_0000_0000;
    assert x == 0xFFFF * 0x1_0000_0000_0000 + y;
    assert Low48(x) == y;
    assert 258 * 0x80_0000_0000 <= y < 259 * 0x80_0000_0000;
    assert y / 0x80_0000_0000 == 258;
  }

  /** Every page range in the heap area can be mapped. */
  lemma HeapReserved(vm: Vm, t: Layout, ptr: nat, n: nat)
    requires HeapArea(vm, t) && KERNEL_HEAP <= ptr && ptr + n * 4096 <= HEAP_TOP
    ensures Reserved(vm, t, ptr, n) && forall i :: 0 <= i < n ==> OutsideDirectMap(Page(ptr, i))
  {
    hide Slot, LargeFree, Low48;
    if n > 0 {
      HeapSlotOf(ptr);
      forall i | 0 <= i < n ensures Covers(t, vm.cr3, Page(ptr, i)) && LargeFree(vm.mem, vm.cr3, 4, Page(ptr, i))
          && OutsideDirectMap(Page(ptr, i)) {
        HeapSlotOf(Page(ptr, i));
      }
    } else {
      Low48Bound(ptr);
    }
  }

  lemma Low48Bound(v: nat)
    ensures Low48(v) < 0x1_0000_0000_0000
  {
  }

  /** The byte that the kernel reaches through virtual address `ptr + k`. */
  lemma HeldAddress(vm: Vm, t: Layout, ptr: nat, ps: seq<nat>, k: nat)
    requires Holds(vm, t, ptr, ps, FLAGS) && ptr % 4096 == 0 && KERNEL_HEAP <= ptr && ptr + |ps| * 4096 <= HEAP_TOP
    requires k < |ps| * 4096
    ensures GetPhysical(vm, ptr + k) == Some(Addr(ps, k))
  {
    hide Slot, Walk, LargeFree, Inv, Present, FrameOf, Low48, PageNumber;
    var i := k / 4096;
    var v := Page(ptr, i);
    assert GetPage(vm.mem, vm.cr3, v) == ps[i] * 4096 + FLAGS;
    hide Holds;
    HeapPage(ptr, k);
    SameWalk(vm.mem, vm.cr3, ptr + k, v);
    PresentFlags(ps[i]);
    HeapSlotOf(ptr + k);
    hide GetPage;
  }

  lemma PresentFlags(p: nat)
    ensures Present(p * 4096 + FLAGS) && FrameOf(p * 4096 + FLAGS) == p
  {
    PresentEntry(p, FLAGS);
  }

  lemma HeapAddress(vm: Vm, t: Layout, ptr: nat, b: Block, k: nat)
    requires BlockOk(vm, t, ptr, b) && k < |b.frames| * 4096
    ensures GetPhysical(vm, ptr + k) == Some(Addr(b.frames, k))
  {
    hide Holds, GetPhysical, StoredPages, StoredSize, Addr;
    HeldAddress(vm, t, ptr, b.frames, k);
  }

  lemma HeapPage(ptr: nat, k: nat)
    requires ptr % 4096 == 0
    ensures PageNumber(ptr + k) == PageNumber(Page(ptr, k / 4096)) && (ptr + k) % 4096 == k % 4096
  {
    hide Low48;
    var q, d := k / 4096, k % 4096;
    var v := ptr + q * 4096;
    assert ptr + k == v + d;
    AlignedOffset(ptr, q, d);
    SplitPage(v, d);
  }

  lemma AlignedOffset(ptr: nat, q: nat, d: nat)
    requires ptr % 4096 == 0 && d < 4096
    ensures (ptr + q * 4096) % 4096 == 0 && (ptr + q * 4096 + d) % 4096 == d
  {
    var p := ptr / 4096;
    assert ptr + q * 4096 == (p + q) * 4096;
    assert ((p + q) * 4096 + d) / 4096 == p + q;
  }

  lemma SplitPage(v: nat, d: nat)
    requires v % 4096 == 0 && d < 4096
    ensures Low48(v + d) / 4096 == Low48(v) / 4096
  {
    var q := v / 0x1_0000_0000_0000;
    var r := v % 0x1_0000_0000_0000;
    assert v == q * 0x1_0000_0000_0000 + r && r % 4096 == 0;
    assert r + d < 0x1_0000_0000_0000;
    assert v + d == q * 0x1_0000_0000_0000 + (r + d);
    assert Low48(v + d) == r + d;
  }

  // ----- What survives a step -----

  /** Writing bytes outside the tables changes no translation. */
  lemma DataWrite(vm: Vm, t: Layout, m': Mem)
    requires Inv(vm, t) && forall x: nat :: x / 4096 in t.roles ==> Rd8(m', x) == Rd8(vm.mem, x)
    ensures Inv(vm.(mem := m'), t) && SameView(vm.mem, m', t)
  {
    hide Rd8, Slot, Prefix;
    forall f: nat, i: nat | f in t.roles && i < 512 ensures Entry(m', f, i) == Entry(vm.mem, f, i) {
      EntryBytes(vm.mem, m', f, i);
    }
    hide Entry;
    forall f, i | Managed(t, f, i) ensures Linked(m', t, f, i) {
      assert Linked(vm.mem, t, f, i);
    }
    forall r, v: nat | Covers(t, r, v)
      ensures Walk(m', r, 4, v) == Walk(vm.mem, r, 4, v) && LargeFree(m', r, 4, v) == LargeFree(vm.mem, r, 4, v)
    {
      PrefixRoot(v);
      SameTables(vm.mem, m', t, r, 4, v);
    }
  }

  lemma EntryBytes(m: Mem, m': Mem, f: nat, i: nat)
    requires i < 512 && forall x: nat :: x / 4096 == f ==> Rd8(m', x) == Rd8(m, x)
    ensures Entry(m', f, i) == Entry(m, f, i)
  {
    hide Rd8, RdLe;
    forall x: nat | f * 4096 + i * 8 <= x < f * 4096 + i * 8 + 8 ensures Rd8(m', x) == Rd8(m, x) {
      assert x / 4096 == f;
    }
    RdLeSame(m, m', f * 4096 + i * 8, WordBytes(m));
  }

  lemma {:induction false} SameTables(m: Mem, m': Mem, t: Layout, g: nat, level: nat, v: nat)
    requires Tree(m, t) && 1 <= level <= 4
    requires g in t.roles && t.roles[g] == Role(level, Prefix(v, level)) && (level == 4 ==> Covers(t, g, v))
    requires forall f: nat, i: nat :: f in t.roles && i < 512 ==> Entry(m', f, i) == Entry(m, f, i)
    ensures Walk(m', g, level, v) == Walk(m, g, level, v) && LargeFree(m', g, level, v) == LargeFree(m, g, level, v)
    decreases level
  {
    hide Entry, Slot, Prefix;
    if level > 1 {
      var s := Slot(v, level);
      PrefixStep(v, level);
      assert Managed(t, g, s) && Linked(m, t, g, s);
      var e := Entry(m, g, s);
      if Present(e) && !Large(e) {
        SameTables(m, m', t, FrameOf(e), level - 1, v);
      }
    }
  }

  /** A block stays as it is when its translations, its frames and its header do. */
  lemma BlockKept(vm: Vm, t: Layout, vm': Vm, t': Layout, ptr: nat, b: Block)
    requires BlockOk(vm, t, ptr, b) && Inv(vm', t') && HeapArea(vm', t') && vm'.cr3 == vm.cr3
    requires vm'.frames.pages == vm.frames.pages && vm'.frames.highest == vm.frames.highest
    requires forall i :: 0 <= i < |b.frames| ==>
               GetPage(vm'.mem, vm.cr3, Page(ptr, i)) ==
               GetPage(vm.mem, vm.cr3, Page(ptr, i))
    requires forall i :: 0 <= i < |b.frames| ==> b.frames[i] !in vm'.frames.free && b.frames[i] !in t'.roles
    requires forall x: nat :: b.frames[0] * 4096 <= x < b.frames[0] * 4096 + HEADER ==>
             Rd8(vm'.mem, x) == Rd8(vm.mem, x)
    ensures BlockOk(vm', t', ptr, b)
  {
    hide Slot, Walk, LargeFree, Inv, Rd8, StoredPages, StoredSize;
    HeapReserved(vm', t', ptr, |b.frames|);
    HeaderKept(vm.mem, vm'.mem, b.frames);
  }

  // ----- kmalloc -----

  /** The pointer handed out is `ptr + HEADER`. */
  datatype Outcome = Given(h: State, ptr: nat) | Refused(h: State) | Stuck

  /** `kmalloc` */
  ghost function Kmalloc(h: State, n: nat): Outcome
    requires h.vm.frames.highest >= Pmm.PAGE
  {
    var pages := PagesFor(n);
    var (r, ptr) := Alloc(h.vm, KERNEL_HEAP, pages, FLAGS);
    match r
    case Stuck => Outcome.Stuck
    case Null(vm) => Refused(h.(vm := vm))
    case Backed(vm, ps) =>
      var m := WithHeader(Fill(vm.mem, ps, n + HEADER), ps, pages, n);
      Given(State(vm.(mem := m), BackedLayout(h.vm, h.t, ptr, pages, FLAGS), h.blocks[ptr := Block(n, ps)]), ptr)
  }

  /** The heap area still has room at the place found. */
  ghost predicate RoomFor(h: State, n: nat)
    requires h.vm.frames.highest >= Pmm.PAGE
  {
    Alloc(h.vm, KERNEL_HEAP, PagesFor(n), FLAGS).1 + PagesFor(n) * 4096 <= HEAP_TOP && n < WORD_LIMIT
  }

  /** A live block's pages are mapped, so a range of unmapped pages does not touch it. */
  lemma UnmappedApart(vm: Vm, t: Layout, ptr: nat, n: nat, q: nat, b: Block)
    requires BlockOk(vm, t, q, b) && ptr % 4096 == 0 && n > 0
    requires forall i :: 0 <= i < n ==> !Present(GetPage(vm.mem, vm.cr3, Page(ptr, i)))
    ensures q + |b.frames| * 4096 <= ptr || ptr + n * 4096 <= q
  {
    hide Slot, Walk, LargeFree, Inv, Low48, PageNumber;
    HeldPresent(vm, t, q, b);
    hide Present, Holds, GetPage, Page;
    if !(q + |b.frames| * 4096 <= ptr || ptr + n * 4096 <= q) {
      var i, j := CommonPage(q, |b.frames|, ptr, n);
    }
  }

  lemma CommonPage(q: nat, m: nat, ptr: nat, n: nat) returns (i: nat, j: nat)
    requires q % 4096 == 0 && ptr % 4096 == 0 && ptr < q + m * 4096 && q < ptr + n * 4096 && m > 0 && n > 0
    ensures i < m && j < n && Page(q, i) == Page(ptr, j)
  {
    if q <= ptr {
      i, j := (ptr - q) / 4096, 0;
    } else {
      i, j := 0, (q - ptr) / 4096;
    }
  }

  lemma UnmappedNotInRange(vm: Vm, t: Layout, ptr: nat, n: nat, q: nat, b: Block, i: nat)
    requires BlockOk(vm, t, q, b) && KERNEL_HEAP <= ptr && ptr + n * 4096 <= HEAP_TOP && i < |b.frames|
    requires forall i :: 0 <= i < n ==> !Present(GetPage(vm.mem, vm.cr3, Page(ptr, i)))
    ensures !InRange(Page(q, i), ptr, n)
  {
    hide Slot, Walk, LargeFree, Inv, Low48, PageNumber;
    HeldPresent(vm, t, q, b);
    hide Present, Holds, GetPage;
    if InRange(Page(q, i), ptr, n) {
      var j := PageNumber(Page(q, i)) - PageNumber(ptr);
      HeapReservedBound(ptr, n);
      PageNumbers(ptr, n, j);
      SameWalk(vm.mem, vm.cr3, Page(q, i), Page(ptr, j));
    }
  }

  lemma InvHighest(vm: Vm, t: Layout)
    requires Inv(vm, t)
    ensures vm.frames.highest >= Pmm.PAGE
  {
  }

  lemma HeapReservedBound(ptr: nat, n: nat)
    requires KERNEL_HEAP <= ptr && ptr + n * 4096 <= HEAP_TOP && n > 0
    ensures Low48(ptr) + n * 4096 <= 0x1_0000_0000_0000
  {
    HeapSlotOf(ptr);
  }

  lemma HeldPresent(vm: Vm, t: Layout, q: nat, b: Block)
    requires BlockOk(vm, t, q, b)
    ensures forall i :: 0 <= i < |b.frames| ==> Present(GetPage(vm.mem, vm.cr3, Page(q, i)))
  {
    hide Walk, LargeFree, Inv, StoredPages, StoredSize, Present;
    forall i | 0 <= i < |b.frames| ensures Present(GetPage(vm.mem, vm.cr3, Page(q, i))) {
      PresentFlags(b.frames[i]);
    }
  }

  lemma PayloadPastHeader(ps: seq<nat>, k: nat)
    requires HEADER + k < |ps| * 4096 && Distinct(ps)
    ensures !(ps[0] * 4096 <= Payload(ps, k) < ps[0] * 4096 + HEADER)
    ensures Payload(ps, k) / 4096 in ps
  {
    AddrInjective(ps, HEADER + k, 0);
    if (HEADER + k) / 4096 > 0 {
      assert ps[0] != ps[(HEADER + k) / 4096];
    }
  }

  /** The range that `vmm_alloc` finds for the heap: aligned, inside the area, unmapped. */
  lemma FoundRange(h: State, n: nat)
    requires HeapInv(h) && RoomFor(h, n) && Kmalloc(h, n).Given?
    ensures var pages := PagesFor(n);
            var (r, ptr) := Alloc(h.vm, KERNEL_HEAP, pages, FLAGS);
            && r.Backed? && KERNEL_HEAP <= ptr && ptr % 4096 == 0 && ptr + pages * 4096 <= HEAP_TOP
            && r == BackRange(h.vm, ptr, pages, FLAGS)
            && (forall i :: 0 <= i < pages ==> !Present(GetPage(h.vm.mem, h.vm.cr3, Page(ptr, i))))
            && ptr !in h.blocks
  {
    hide Walk, BackRange, BackedLayout, FirstFit, Fill, WithHeader, Inv, HeapArea;
    InvHighest(h.vm, h.t);
    var pages := PagesFor(n);
    var (r, ptr) := Alloc(h.vm, KERNEL_HEAP, pages, FLAGS);
    FirstFitSmallest(h.vm, KERNEL_HEAP, pages);
    forall i | 0 <= i < pages ensures !Present(GetPage(h.vm.mem, h.vm.cr3, Page(ptr, i))) {
      assert Unmapped(h.vm, Page(ptr, i));
    }
    assert !Present(GetPage(h.vm.mem, h.vm.cr3, Page(ptr, 0)));
    if ptr in h.blocks {
      HeldPresent(h.vm, h.t, ptr, h.blocks[ptr]);
    }
  }

  /** After the frames are mapped, before the bytes are written: the old blocks are untouched and the
      new range is held. */
  lemma MappedForBlock(h: State, ptr: nat, pages: nat)
    requires HeapInv(h) && KERNEL_HEAP <= ptr && ptr % 4096 == 0 && ptr + pages * 4096 <= HEAP_TOP && pages > 0
    requires h.vm.frames.highest >= Pmm.PAGE && BackRange(h.vm, ptr, pages, FLAGS).Backed?
    requires forall i :: 0 <= i < pages ==> !Present(GetPage(h.vm.mem, h.vm.cr3, Page(ptr, i)))
    ensures var r := BackRange(h.vm, ptr, pages, FLAGS);
            var t1 := BackedLayout(h.vm, h.t, ptr, pages, FLAGS);
            && RangeBacked(h.vm, h.t, r.vm, t1, ptr, pages, FLAGS, r.frames)
            && Inv(r.vm, t1) && HeapArea(r.vm, t1) && Holds(r.vm, t1, ptr, r.frames, FLAGS)
            && (forall q :: q in h.blocks ==>
                  BlockOk(r.vm, t1, q, h.blocks[q])
                  && Apart(ptr, Block(0, r.frames), q, h.blocks[q]))
  {
    hide Slot, Walk, LargeFree, BackRange, BackedLayout, Inv, RangeBacked, Holds;
    HeapReserved(h.vm, h.t, ptr, pages);
    BackedHolds(h.vm, h.t, ptr, pages, FLAGS);
    var r := BackRange(h.vm, ptr, pages, FLAGS);
    var t1 := BackedLayout(h.vm, h.t, ptr, pages, FLAGS);
    RangeFacts(h.vm, h.t, r.vm, t1, ptr, pages, FLAGS, r.frames);
    AreaKept(h.vm, h.t, r.vm, t1);
    forall q | q in h.blocks ensures BlockOk(r.vm, t1, q, h.blocks[q])
        && Apart(ptr, Block(0, r.frames), q, h.blocks[q]) {
      UnmappedApart(h.vm, h.t, ptr, pages, q, h.blocks[q]);
      forall i | 0 <= i < |h.blocks[q].frames| ensures !InRange(Page(q, i), ptr, pages) {
        UnmappedNotInRange(h.vm, h.t, ptr, pages, q, h.blocks[q], i);
      }
      OldBlockSurvives(h.vm, h.t, r.vm, t1, ptr, pages, r.frames, q, h.blocks[q]);
    }
  }

  lemma AreaKept(vm: Vm, t: Layout, vm': Vm, t': Layout)
    requires HeapArea(vm, t) && vm'.cr3 == vm.cr3 && t'.spaces == t.spaces
    requires forall r, x: nat :: Covers(t, r, x) ==> LargeFree(vm'.mem, r, 4, x) == LargeFree(vm.mem, r, 4, x)
    ensures HeapArea(vm', t')
  {
    hide LargeFree, Slot;
    forall x: nat | Slot(x, 4) == HEAP_SLOT ensures LargeFree(vm'.mem, vm'.cr3, 4, x) {
      assert Covers(t, vm.cr3, x);
    }
  }

  lemma OldBlockSurvives(vm: Vm, t: Layout, vm1: Vm, t1: Layout, ptr: nat, pages: nat, ps: seq<nat>, q: nat, b: Block)
    requires BlockOk(vm, t, q, b) && HeapArea(vm, t) && HeapArea(vm1, t1)
    requires RangeBacked(vm, t, vm1, t1, ptr, pages, FLAGS, ps)
    requires forall i :: 0 <= i < |b.frames| ==> !InRange(Page(q, i), ptr, pages)
    ensures BlockOk(vm1, t1, q, b) && Elems(ps) !! Elems(b.frames)
  {
    hide Slot, Walk, LargeFree, Inv, InRange, StoredPages, StoredSize, Low48, PageNumber, Rd8;
    forall i | 0 <= i < |b.frames|
      ensures GetPage(vm1.mem, vm.cr3, Page(q, i)) == GetPage(vm.mem, vm.cr3, Page(q, i))
      ensures b.frames[i] !in vm1.frames.free && b.frames[i] !in t1.roles
    {
      assert Covers(t, vm.cr3, Page(q, i)) && Returnable(vm, t, b.frames[i]);
    }
    forall x: nat | b.frames[0] * 4096 <= x < b.frames[0] * 4096 + HEADER ensures Rd8(vm1.mem, x) == Rd8(vm.mem, x) {
      assert x / 4096 == b.frames[0];
    }
    BlockKept(vm, t, vm1, t1, q, b);
    forall i | 0 <= i < |b.frames| ensures b.frames[i] !in ps {
      assert Returnable(vm, t, b.frames[i]);
    }
  }

  /** Writing into the frames of one held range: the range stays held, and so do blocks elsewhere. */
  lemma DataStep(vm: Vm, t: Layout, m': Mem, ps: seq<nat>)
    requires Inv(vm, t) && HeapArea(vm, t)
    requires forall i :: 0 <= i < |ps| ==> ps[i] !in t.roles
    requires forall x: nat :: x / 4096 !in ps ==> Rd8(m', x) == Rd8(vm.mem, x)
    ensures var vm' := vm.(mem := m');
            && Inv(vm', t) && HeapArea(vm', t)
            && (forall ptr, qs, flags :: Holds(vm, t, ptr, qs, flags) ==> Holds(vm', t, ptr, qs, flags))
            && (forall q, b :: BlockOk(vm, t, q, b) && Elems(b.frames) !! Elems(ps) ==> BlockOk(vm', t, q, b))
  {
    hide Slot, Walk, LargeFree, Rd8, StoredPages, StoredSize, Low48;
    var vm' := vm.(mem := m');
    DataWrite(vm, t, m');
    assert HeapArea(vm', t) by { AreaKept(vm, t, vm', t); }
    hide Inv;
    forall ptr, qs, flags | Holds(vm, t, ptr, qs, flags) ensures Holds(vm', t, ptr, qs, flags) {
      HoldsKept(vm, t, m', ptr, qs, flags);
    }
    hide Holds;
    forall q, b | BlockOk(vm, t, q, b) && Elems(b.frames) !! Elems(ps) ensures BlockOk(vm', t, q, b) {
      forall x: nat | b.frames[0] * 4096 <= x < b.frames[0] * 4096 + HEADER ensures Rd8(m', x) == Rd8(vm.mem, x) {
        assert x / 4096 == b.frames[0] && b.frames[0] in Elems(b.frames);
        assert b.frames[0] !in Elems(ps);
      }
      HeaderKept(vm.mem, m', b.frames);
    }
  }

  lemma HoldsKept(vm: Vm, t: Layout, m': Mem, ptr: nat, qs: seq<nat>, flags: nat)
    requires Holds(vm, t, ptr, qs, flags) && Inv(vm.(mem := m'), t) && SameView(vm.mem, m', t)
    ensures Holds(vm.(mem := m'), t, ptr, qs, flags)
  {
    hide Slot, Walk, LargeFree, Low48, Inv;
  }

  /** The bytes that `kmalloc` writes. */
  lemma BlockBytes(m: Mem, ps: seq<nat>, n: nat)
    requires |ps| == PagesFor(n) && Distinct(ps) && |ps| < WORD_LIMIT && n < WORD_LIMIT
    ensures var m' := WithHeader(Fill(m, ps, n + HEADER), ps, |ps|, n);
            && StoredPages(m', ps) == |ps| && StoredSize(m', ps) == n
            && (forall x: nat :: x / 4096 !in ps ==> Rd8(m', x) == Rd8(m, x))
            && (forall k :: 0 <= k < n ==> Rd8(m', Payload(ps, k)) == 0)
  {
    hide Fill, WithHeader, StoredPages, StoredSize, Rd8, Payload;
    var m1 := Fill(m, ps, n + HEADER);
    FillBytes(m, ps, n + HEADER);
    HeaderWritten(m1, ps, |ps|, n);
    forall x: nat | x / 4096 !in ps ensures Rd8(WithHeader(m1, ps, |ps|, n), x) == Rd8(m, x) {
      HeaderFrame(ps, x);
    }
    forall k | 0 <= k < n ensures Rd8(WithHeader(m1, ps, |ps|, n), Payload(ps, k)) == 0 {
      PayloadPastHeader(ps, k);
      PayloadIsAddr(ps, k);
    }
  }

  lemma HeaderFrame(ps: seq<nat>, x: nat)
    requires ps != [] && x / 4096 !in ps
    ensures !(ps[0] * 4096 <= x < ps[0] * 4096 + HEADER)
  {
    assert ps[0] in ps;
  }

  /** `kmalloc` keeps the heap invariant and adds one block, apart from all others. */
  lemma KmallocKeeps(h: State, n: nat)
    requires HeapInv(h) && RoomFor(h, n) && Kmalloc(h, n).Given?
    ensures var r := Kmalloc(h, n);
            var (a, ptr) := Alloc(h.vm, KERNEL_HEAP, PagesFor(n), FLAGS);
            && HeapInv(r.h) && ptr !in h.blocks && r.ptr == ptr && r.h.vm.cr3 == h.vm.cr3
            && a.Backed? && |a.frames| == PagesFor(n) < WORD_LIMIT && Distinct(a.frames)
            && r.h.blocks == h.blocks[ptr := Block(n, a.frames)]
            && r.h.vm.mem == WithHeader(Fill(a.vm.mem, a.frames, n + HEADER), a.frames, |a.frames|, n)
            && RangeBacked(h.vm, h.t, a.vm, r.h.t, ptr, PagesFor(n), FLAGS, a.frames)
            && r.h.vm.frames == a.vm.frames
  {
    hide Slot, Walk, LargeFree, BackRange, BackedLayout, Inv, Fill, WithHeader, StoredPages, StoredSize, Rd8, FirstFit;
    hide Low48, Payload, HeapArea;
    hide RangeBacked, Holds, BlockOk, Apart, HeapInv;
    var pages := PagesFor(n);
    FoundRange(h, n);
    HeapInvHighest(h);
    var (r, ptr) := Alloc(h.vm, KERNEL_HEAP, pages, FLAGS);
    MappedForBlock(h, ptr, pages);
    var t1 := BackedLayout(h.vm, h.t, ptr, pages, FLAGS);
    var ps := r.frames;
    BackedFrames(h.vm, h.t, r.vm, t1, ptr, pages, ps);
    PagesFit(n, ptr);
    BlockBytes(r.vm.mem, ps, n);
    var m := WithHeader(Fill(r.vm.mem, ps, n + HEADER), ps, pages, n);
    DataStep(r.vm, t1, m, ps);
    NewBlock(r.vm, t1, m, ptr, n, ps);
    AddedBlock(h, r.vm, t1, m, ptr, n, ps);
  }

  /** `kmalloc`: the invariant, the new block among the old ones, and a payload that reads as zero
      whatever the recycled frames held. */
  lemma KmallocCorrect(h: State, n: nat)
    requires HeapInv(h) && RoomFor(h, n) && Kmalloc(h, n).Given?
    ensures var r := Kmalloc(h, n);
            && HeapInv(r.h) && r.ptr !in h.blocks && r.ptr in r.h.blocks
               && r.h.blocks == h.blocks[r.ptr := r.h.blocks[r.ptr]]
            && var b := r.h.blocks[r.ptr];
               && b.n == n && |b.frames| == PagesFor(n)
               && forall k :: 0 <= k < n ==> Rd8(r.h.vm.mem, Payload(b.frames, k)) == 0
  {
    hide Slot, Walk, LargeFree, Inv, Fill, WithHeader, StoredPages, StoredSize, Rd8, Payload, RangeBacked, BlockOk;
    hide HeapInv, Kmalloc, Alloc;
    HeapInvHighest(h);
    KmallocKeeps(h, n);
    var (a, ptr) := Alloc(h.vm, KERNEL_HEAP, PagesFor(n), FLAGS);
    BlockBytes(a.vm.mem, a.frames, n);
  }

  /** No byte of another live block changes. */
  lemma KmallocOthers(h: State, n: nat, q: nat, x: nat)
    requires HeapInv(h) && RoomFor(h, n) && Kmalloc(h, n).Given?
    requires q in h.blocks && x / 4096 in h.blocks[q].frames
    ensures Rd8(Kmalloc(h, n).h.vm.mem, x) == Rd8(h.vm.mem, x)
  {
    hide Slot, Walk, LargeFree, Inv, Fill, WithHeader, StoredPages, StoredSize, Rd8, Payload, RangeBacked, BlockOk;
    hide HeapInv, Kmalloc, Alloc;
    HeapInvHighest(h);
    KmallocKeeps(h, n);
    var (a, ptr) := Alloc(h.vm, KERNEL_HEAP, PagesFor(n), FLAGS);
    BlockBytes(a.vm.mem, a.frames, n);
    LiveOk(h, q);
    OtherBytes(h.vm, h.t, a.vm, Kmalloc(h, n).h.t, ptr, PagesFor(n), a.frames, q, h.blocks[q], x);
  }

  lemma HeapInvHighest(h: State)
    requires HeapInv(h)
    ensures h.vm.frames.highest >= Pmm.PAGE
  {
    InvHighest(h.vm, h.t);
  }

  lemma LiveOk(h: State, q: nat)
    requires HeapInv(h) && q in h.blocks
    ensures BlockOk(h.vm, h.t, q, h.blocks[q])
  {
  }

  lemma BackedFrames(vm: Vm, t: Layout, vm1: Vm, t1: Layout, ptr: nat, pages: nat, ps: seq<nat>)
    requires RangeBacked(vm, t, vm1, t1, ptr, pages, FLAGS, ps)
    ensures |ps| == pages && Distinct(ps) && vm1.cr3 == vm.cr3
    ensures forall i :: 0 <= i < |ps| ==> ps[i] !in t1.roles
  {
  }

  lemma PagesFit(n: nat, ptr: nat)
    requires KERNEL_HEAP <= ptr && ptr + PagesFor(n) * 4096 <= HEAP_TOP
    ensures PagesFor(n) < WORD_LIMIT
  {
  }

  /** Adding a block that is apart from the others keeps the invariant. */
  lemma AddedBlock(h: State, vm: Vm, t: Layout, m: Mem, ptr: nat, n: nat, ps: seq<nat>)
    requires HeapInv(h) && ptr !in h.blocks && Inv(vm.(mem := m), t) && HeapArea(vm.(mem := m), t)
    requires BlockOk(vm.(mem := m), t, ptr, Block(n, ps))
    requires forall q :: q in h.blocks ==> BlockOk(vm, t, q, h.blocks[q]) && Apart(ptr, Block(0, ps), q, h.blocks[q])
    requires forall q, b :: BlockOk(vm, t, q, b) && Elems(b.frames) !! Elems(ps) ==> BlockOk(vm.(mem := m), t, q, b)
    ensures HeapInv(State(vm.(mem := m), t, h.blocks[ptr := Block(n, ps)]))
  {
    hide BlockOk, Inv, HeapArea, Elems;
    var blocks := h.blocks[ptr := Block(n, ps)];
    forall p, q | p in blocks && q in blocks && p != q ensures Apart(p, blocks[p], q, blocks[q]) {
      if p != ptr && q != ptr {
        assert Apart(p, h.blocks[p], q, h.blocks[q]);
      } else if p == ptr {
        assert Apart(ptr, Block(0, ps), q, h.blocks[q]);
      } else {
        assert Apart(ptr, Block(0, ps), p, h.blocks[p]);
      }
    }
  }

  lemma PayloadIsAddr(ps: seq<nat>, k: nat)
    requires HEADER + k < |ps| * 4096
    ensures Payload(ps, k) == Addr(ps, HEADER + k)
  {
  }

  lemma NewBlock(vm: Vm, t: Layout, m: Mem, ptr: nat, n: nat, ps: seq<nat>)
    requires Holds(vm.(mem := m), t, ptr, ps, FLAGS) && ptr % 4096 == 0 && KERNEL_HEAP <= ptr
    requires |ps| == PagesFor(n) && ptr + |ps| * 4096 <= HEAP_TOP && n < WORD_LIMIT
    requires StoredPages(m, ps) == |ps| && StoredSize(m, ps) == n
    ensures BlockOk(vm.(mem := m), t, ptr, Block(n, ps))
  {
  }

  lemma OtherBytes(vm: Vm, t: Layout, vm1: Vm, t1: Layout, ptr: nat, pages: nat, ps: seq<nat>, q: nat, b: Block, x: nat)
    requires RangeBacked(vm, t, vm1, t1, ptr, pages, FLAGS, ps) && BlockOk(vm, t, q, b) && x / 4096 in b.frames
    ensures x / 4096 !in ps && Rd8(vm1.mem, x) == Rd8(vm.mem, x)
  {
    hide Walk, LargeFree, Inv, Rd8, StoredPages, StoredSize, InRange, Covers;
    var i :| 0 <= i < |b.frames| && b.frames[i] == x / 4096;
    assert Returnable(vm, t, b.frames[i]);
  }

  // ----- kfree -----

  /** The header word at `offset` of the block at `ptr`, read through the page tables. */
  function ReadHeader(vm: Vm, ptr: nat, offset: nat): Option<nat> {
    match GetPhysical(vm, ptr)
    case None => None
    case Some(a) => Some(Rd64(vm.mem, a + offset))
  }

  lemma ReadHeaderCorrect(vm: Vm, t: Layout, ptr: nat, b: Block)
    requires BlockOk(vm, t, ptr, b)
    ensures ReadHeader(vm, ptr, 0) == Some(|b.frames|) && ReadHeader(vm, ptr, 8) == Some(b.n)
  {
    hide GetPhysical, Holds, Rd64;
    HeapAddress(vm, t, ptr, b, 0);
    assert Addr(b.frames, 0) == b.frames[0] * 4096;
  }

  /** `p & PAGE_MASK` */
  function MaskPage(p: nat): nat {
    p / 4096 * 4096
  }

  /** `kfree(ptr + 16)`: the page count comes from the header; `None` where the kernel would not
      return. */
  ghost function Kfree(h: State, ptr: nat): Option<State>
    requires h.vm.frames.highest >= Pmm.PAGE
  {
    match ReadHeader(h.vm, ptr, 0)
    case None => None
    case Some(pages) =>
      match FreeRange(h.vm, MaskPage(ptr + HEADER), pages)
      case None => None
      case Some(vm) => Some(h.(vm := vm, blocks := h.blocks - {ptr}))
  }

  lemma HeapInRange(x: nat, ptr: nat, n: nat)
    requires KERNEL_HEAP <= x < HEAP_TOP && KERNEL_HEAP <= ptr && ptr + n * 4096 <= HEAP_TOP
    requires x % 4096 == 0 && ptr % 4096 == 0 && InRange(x, ptr, n)
    ensures ptr <= x < ptr + n * 4096
  {
    hide Slot;
    HeapSlotOf(x);
    if n > 0 {
      HeapSlotOf(ptr);
    }
    hide Low48;
    assert Low48(x) % 4096 == 0;
  }

  lemma ApartNotInRange(vm: Vm, t: Layout, ptr: nat, b: Block, q: nat, c: Block, i: nat)
    requires BlockOk(vm, t, ptr, b) && BlockOk(vm, t, q, c) && Apart(ptr, b, q, c) && i < |c.frames|
    ensures !InRange(Page(q, i), ptr, |b.frames|)
  {
    hide Holds, Inv, StoredPages, StoredSize, InRange;
    if InRange(Page(q, i), ptr, |b.frames|) {
      HeapInRange(Page(q, i), ptr, |b.frames|);
    }
  }

  /** What `FreeRange` leaves of the other blocks. */
  lemma FreedOthers(h: State, ptr: nat, vm': Vm)
    requires HeapInv(h) && ptr in h.blocks
    requires var ps := h.blocks[ptr].frames; RangeFreed(h.vm, h.t, vm', ptr, |ps|, ps)
    ensures HeapInv(h.(vm := vm', blocks := h.blocks - {ptr}))
  {
    hide Slot, Walk, LargeFree, Rd8, InRange, Holds, StoredPages, StoredSize, Elems;
    var b := h.blocks[ptr];
    FreedFacts(h.vm, h.t, vm', ptr, b.frames);
    hide RangeFreed;
    AreaKept(h.vm, h.t, vm', h.t);
    hide Inv, HeapArea;
    forall q | q in h.blocks && q != ptr ensures BlockOk(vm', h.t, q, h.blocks[q]) {
      assert Apart(ptr, b, q, h.blocks[q]);
      assert BlockOk(h.vm, h.t, ptr, b) && BlockOk(h.vm, h.t, q, h.blocks[q]);
      hide BlockOk;
      forall i | 0 <= i < |h.blocks[q].frames| ensures !InRange(Page(q, i), ptr, |b.frames|) {
        ApartNotInRange(h.vm, h.t, ptr, b, q, h.blocks[q], i);
      }
      FreedKeeps(h.vm, h.t, vm', ptr, b.frames, q, h.blocks[q]);
    }
  }

  /** `kfree` of a live block always returns; it gives back exactly the frames taken for it and leaves
      the other blocks and their bytes alone. */
  lemma KfreeCorrect(h: State, ptr: nat)
    requires HeapInv(h) && ptr in h.blocks && h.vm.frames.highest >= Pmm.PAGE
    ensures Kfree(h, ptr).Some?
    ensures var h', b := Kfree(h, ptr).value, h.blocks[ptr];
            && HeapInv(h') && h'.blocks == h.blocks - {ptr} && h'.t == h.t
            && h'.vm.frames ==
               h.vm.frames.(free := h.vm.frames.free + Elems(b.frames), used := h.vm.frames.used - |b.frames|)
            && Elems(b.frames) !! h.vm.frames.free
            && (forall x: nat :: x / 4096 !in h.t.roles ==> Rd8(h'.vm.mem, x) == Rd8(h.vm.mem, x))
  {
    hide Slot, Walk, LargeFree, Inv, Rd8, FreeRange, GetPhysical, HeapArea, Holds, RangeFreed, ReadHeader, StoredPages;
    hide StoredSize, Elems, HeapInv;
    var b := h.blocks[ptr];
    LiveOk(h, ptr);
    ReadHeaderCorrect(h.vm, h.t, ptr, b);
    assert MaskPage(ptr + HEADER) == ptr;
    FreeRangeCorrect(h.vm, h.t, ptr, |b.frames|, b.frames, FLAGS);
    var vm' := FreeRange(h.vm, ptr, |b.frames|).value;
    FreedFacts(h.vm, h.t, vm', ptr, b.frames);
    FramesTaken(h.vm, h.t, ptr, b);
    FreedOthers(h, ptr, vm');
  }

  lemma FreedFacts(vm: Vm, t: Layout, vm': Vm, ptr: nat, ps: seq<nat>)
    requires RangeFreed(vm, t, vm', ptr, |ps|, ps)
    ensures Inv(vm', t) && vm'.cr3 == vm.cr3
    ensures forall r, x: nat :: Covers(t, r, x) ==> LargeFree(vm'.mem, r, 4, x) == LargeFree(vm.mem, r, 4, x)
    ensures vm'.frames == vm.frames.(free := vm.frames.free + Elems(ps), used := vm.frames.used - |ps|)
    ensures forall x: nat :: x / 4096 !in t.roles ==> Rd8(vm'.mem, x) == Rd8(vm.mem, x)
  {
    assert ps[..|ps|] == ps;
  }

  lemma FramesTaken(vm: Vm, t: Layout, ptr: nat, b: Block)
    requires BlockOk(vm, t, ptr, b)
    ensures Elems(b.frames) !! vm.frames.free && Elems(b.frames) !! t.roles.Keys
  {
    hide Walk, LargeFree, Inv, StoredPages, StoredSize;
    forall f | f in Elems(b.frames) ensures f !in vm.frames.free && f !in t.roles {
      var i :| 0 <= i < |b.frames| && b.frames[i] == f;
      assert Returnable(vm, t, b.frames[i]);
    }
  }

  lemma FreedKeeps(vm: Vm, t: Layout, vm': Vm, ptr: nat, ps: seq<nat>, q: nat, c: Block)
    requires BlockOk(vm, t, q, c) && RangeFreed(vm, t, vm', ptr, |ps|, ps) && HeapArea(vm', t)
    requires Elems(ps) !! Elems(c.frames)
    requires forall i :: 0 <= i < |c.frames| ==> !InRange(Page(q, i), ptr, |ps|)
    ensures BlockOk(vm', t, q, c)
  {
    hide Slot, Walk, LargeFree, Inv, Rd8, StoredPages, StoredSize, InRange;
    FreedFacts(vm, t, vm', ptr, ps);
    FramesTaken(vm, t, q, c);
    forall i | 0 <= i < |c.frames|
      ensures GetPage(vm'.mem, vm.cr3, Page(q, i)) == GetPage(vm.mem, vm.cr3, Page(q, i))
      ensures c.frames[i] !in vm'.frames.free && c.frames[i] !in t.roles
    {
      assert Covers(t, vm.cr3, Page(q, i)) && c.frames[i] in Elems(c.frames);
    }
    forall x: nat | c.frames[0] * 4096 <= x < c.frames[0] * 4096 + HEADER ensures Rd8(vm'.mem, x) == Rd8(vm.mem, x) {
      assert x / 4096 == c.frames[0];
    }
    BlockKept(vm, t, vm', t, q, c);
  }

  // ----- Writing to a payload -----

  /** The owner of a live block stores bytes into it: any memory that differs only in its payload. */
  ghost predicate PayloadOnly(h: State, p: nat, m': Mem)
    requires p in h.blocks && |h.blocks[p].frames| == PagesFor(h.blocks[p].n)
  {
    var ps := h.blocks[p].frames;
    forall x: nat :: x / 4096 !in ps || ps[0] * 4096 <= x < ps[0] * 4096 + HEADER ==> Rd8(m', x) == Rd8(h.vm.mem, x)
  }

  /** The header survives whatever the payload is used for, so does every other block. */
  lemma WriteKeeps(h: State, p: nat, m': Mem)
    requires HeapInv(h) && p in h.blocks && |h.blocks[p].frames| == PagesFor(h.blocks[p].n) && PayloadOnly(h, p, m')
    ensures HeapInv(h.(vm := h.vm.(mem := m')))
  {
    hide Slot, Walk, LargeFree, Inv, Rd8, StoredPages, StoredSize, Holds, HeapArea, Elems;
    var b := h.blocks[p];
    FramesTaken(h.vm, h.t, p, b);
    FramesNoTable(h.vm, h.t, p, b);
    DataStep(h.vm, h.t, m', b.frames);
    HeaderKept(h.vm.mem, m', b.frames);
    forall q | q in h.blocks ensures BlockOk(h.vm.(mem := m'), h.t, q, h.blocks[q]) {
      if q != p {
        assert Apart(q, h.blocks[q], p, b);
      }
    }
  }

  lemma FramesNoTable(vm: Vm, t: Layout, ptr: nat, b: Block)
    requires BlockOk(vm, t, ptr, b)
    ensures forall i :: 0 <= i < |b.frames| ==> b.frames[i] !in t.roles
  {
    hide Walk, LargeFree, Inv, StoredPages, StoredSize;
    forall i | 0 <= i < |b.frames| ensures b.frames[i] !in t.roles {
      assert Returnable(vm, t, b.frames[i]);
    }
  }

  // ----- krealloc -----

  /** `memcpy` of `n` payload bytes between two live blocks. */
  ghost function CopyBlock(h: State, src: nat, dst: nat, n: nat): State {
    if src in h.blocks && dst in h.blocks && HEADER + n <= |h.blocks[src].frames| * 4096
        && HEADER + n <= |h.blocks[dst].frames| * 4096
    then h.(vm := h.vm.(mem := Copy(h.vm.mem, h.blocks[src].frames, h.blocks[dst].frames, n)))
    else h
  }

  /** `krealloc` of the live block at `src`: the copy takes the old size from the old header. */
  ghost function Krealloc(h: State, src: nat, newSize: nat): Outcome
    requires h.vm.frames.highest >= Pmm.PAGE
  {
    var r := Kmalloc(h, newSize);
    if !r.Given? then r
    else
      match ReadHeader(r.h.vm, src, 8)
      case None => Outcome.Stuck
      case Some(n) =>
        var copied := CopyBlock(r.h, src, r.ptr, n);
        if copied.vm.frames.highest < Pmm.PAGE then Outcome.Stuck
        else match Kfree(copied, src)
          case None => Outcome.Stuck
          case Some(h') => Given(h', r.ptr)
  }

  /** The copy of the old bytes stays inside the new block; always so when the block grows. */
  predicate CopyFits(n: nat, newSize: nat) {
    HEADER + n <= PagesFor(newSize) * 4096
  }

  /** The page of a block that payload byte `k` is on. */
  function PageOfByte(k: nat): nat {
    (HEADER + k) / 4096
  }

  /** Exactly then `memcpy`, which always copies the old size, writes only into pages of the new block; shrinking from
      more than a page to one byte writes past them. */
  lemma CopyInsideIff(n: nat, newSize: nat)
    ensures CopyFits(n, newSize) <==> forall k: nat :: k < n ==> PageOfByte(k) < PagesFor(newSize)
    ensures !CopyFits(8192, 1)
  {
    if n > 0 {
      assert PageOfByte(n - 1) < PagesFor(newSize) <==> CopyFits(n, newSize);
    }
  }

  lemma GrowingFits(n: nat, newSize: nat)
    requires n <= newSize
    ensures CopyFits(n, newSize)
  {
  }

  lemma BlockDistinct(vm: Vm, t: Layout, ptr: nat, b: Block)
    requires BlockOk(vm, t, ptr, b)
    ensures Distinct(b.frames) && |b.frames| == PagesFor(b.n)
  {
  }

  lemma PayloadIn(ps: seq<nat>, k: nat)
    requires HEADER + k < |ps| * 4096
    ensures Payload(ps, k) / 4096 in ps
  {
    AddrFrame(ps, HEADER + k);
  }

  /** Copying between two live blocks keeps the invariant and moves the bytes. */
  lemma CopyBlockCorrect(h: State, src: nat, dst: nat, n: nat)
    requires HeapInv(h) && src in h.blocks && dst in h.blocks && src != dst
    requires HEADER + n <= |h.blocks[src].frames| * 4096 && HEADER + n <= |h.blocks[dst].frames| * 4096
    ensures var h' := CopyBlock(h, src, dst, n);
            var from, to := h.blocks[src].frames, h.blocks[dst].frames;
            && HeapInv(h') && h'.blocks == h.blocks && h'.t == h.t && h'.vm.frames == h.vm.frames
            && (forall k :: 0 <= k < n ==> Rd8(h'.vm.mem, Payload(to, k)) == Rd8(h.vm.mem, Payload(from, k)))
            && (forall k :: n <= k && HEADER + k < |to| * 4096 ==>
                Rd8(h'.vm.mem, Payload(to, k)) == Rd8(h.vm.mem, Payload(to, k)))
            && (forall x: nat :: x / 4096 !in to ==> Rd8(h'.vm.mem, x) == Rd8(h.vm.mem, x))
  {
    hide Slot, Walk, LargeFree, Inv, Rd8, Holds, HeapArea, Payload, Copy, BlockOk, Elems;
    var from, to := h.blocks[src].frames, h.blocks[dst].frames;
    BlockDistinct(h.vm, h.t, dst, h.blocks[dst]);
    assert Apart(src, h.blocks[src], dst, h.blocks[dst]);
    CopyBytes(h.vm.mem, from, to, n);
    var m := Copy(h.vm.mem, from, to, n);
    forall x: nat | x / 4096 !in to || to[0] * 4096 <= x < to[0] * 4096 + HEADER ensures Rd8(m, x) == Rd8(h.vm.mem, x) {
      forall k | 0 <= k < n ensures x != Payload(to, k) {
        PayloadPastHeader(to, k);
      }
    }
    WriteKeeps(h, dst, m);
    forall k | n <= k && HEADER + k < |to| * 4096 ensures Rd8(m, Payload(to, k)) == Rd8(h.vm.mem, Payload(to, k)) {
      forall j | 0 <= j < n ensures Payload(to, k) != Payload(to, j) {
        PayloadInjective(to, k, j);
      }
    }
  }

  /** `krealloc` keeps the invariant, replaces the old block by the new one, and the new block starts
      with all bytes of the old one, followed by zeros. */
  lemma KreallocCorrect(h: State, src: nat, newSize: nat)
    requires HeapInv(h) && src in h.blocks && h.vm.frames.highest >= Pmm.PAGE
    requires RoomFor(h, newSize) && Kmalloc(h, newSize).Given? && CopyFits(h.blocks[src].n, newSize)
    ensures var r := Krealloc(h, src, newSize);
            var b := h.blocks[src];
            && |b.frames| == PagesFor(b.n) && r.Given? && HeapInv(r.h)
            && r.ptr in r.h.blocks && r.h.blocks.Keys == h.blocks.Keys - {src} + {r.ptr}
            && (forall q :: q in h.blocks && q != src ==> q in r.h.blocks && r.h.blocks[q] == h.blocks[q])
            && (forall q, x: nat :: q in h.blocks && q != src && x / 4096 in h.blocks[q].frames ==>
                  Rd8(r.h.vm.mem, x) == Rd8(h.vm.mem, x))
            && var c := r.h.blocks[r.ptr];
               && c.n == newSize && |c.frames| == PagesFor(newSize)
               && (forall k :: 0 <= k < b.n ==>
                     Rd8(r.h.vm.mem, Payload(c.frames, k)) ==
                     Rd8(h.vm.mem, Payload(b.frames, k)))
               && (forall k :: b.n <= k < newSize ==> Rd8(r.h.vm.mem, Payload(c.frames, k)) == 0)
  {
    hide Slot, Walk, LargeFree, Inv, Rd8, Holds, HeapArea, Kmalloc, Alloc, Payload, GetPhysical, Copy, BlockOk, HeapInv;
    hide Kfree, CopyBlock, ReadHeader;
    KmallocCorrect(h, newSize);
    var r := Kmalloc(h, newSize);
    var b, c := h.blocks[src], r.h.blocks[r.ptr];
    LiveOk(r.h, src);
    BlockDistinct(r.h.vm, r.h.t, src, b);
    ReadHeaderCorrect(r.h.vm, r.h.t, src, b);
    CopyBlockCorrect(r.h, src, r.ptr, b.n);
    var copied := CopyBlock(r.h, src, r.ptr, b.n);
    HeapInvHighest(copied);
    KfreeCorrect(copied, src);
    var h' := Kfree(copied, src).value;
    LiveOk(copied, r.ptr);
    FramesNoTable(copied.vm, copied.t, r.ptr, c);
    forall k | 0 <= k && HEADER + k < |c.frames| * 4096
        ensures Rd8(h'.vm.mem, Payload(c.frames, k)) == Rd8(copied.vm.mem, Payload(c.frames, k)) {
      PayloadIn(c.frames, k);
    }
    forall k | 0 <= k < b.n ensures Rd8(r.h.vm.mem, Payload(b.frames, k)) == Rd8(h.vm.mem, Payload(b.frames, k)) {
      PayloadIn(b.frames, k);
      KmallocOthers(h, newSize, src, Payload(b.frames, k));
    }
    forall q, x: nat | q in h.blocks && q != src && x / 4096 in h.blocks[q].frames
      ensures Rd8(h'.vm.mem, x) == Rd8(h.vm.mem, x)
    {
      KmallocOthers(h, newSize, q, x);
      BystanderBytes(r.h, copied, r.ptr, q, x);
    }
  }

  /** A byte of block `q` is neither in the block at `dst` nor in a table. */
  lemma BystanderBytes(h: State, copied: State, dst: nat, q: nat, x: nat)
    requires HeapInv(h) && HeapInv(copied) && copied.blocks == h.blocks && dst in h.blocks && q in h.blocks && q != dst
    requires x / 4096 in h.blocks[q].frames
    ensures x / 4096 !in h.blocks[dst].frames && x / 4096 !in copied.t.roles
  {
    hide Inv, HeapArea, BlockOk;
    assert Apart(dst, h.blocks[dst], q, h.blocks[q]);
    assert x / 4096 in Elems(h.blocks[q].frames);
    assert BlockOk(copied.vm, copied.t, q, h.blocks[q]);
    FramesNoTable(copied.vm, copied.t, q, h.blocks[q]);
  }

  // ----- Theorem: every run -----

  datatype Op = Malloc(n: nat) | Write(ptr: nat, m: Mem) | Free(ptr: nat) | Realloc(ptr: nat, n: nat)

  /** One legal call. A `kmalloc` that is refused before it takes a frame changes nothing, and `krealloc` then leaves
      the old block alone. `None` if the call is not legal, if the frames run out in the middle of it, or if it does
      not return. */
  ghost function Step(h: State, op: Op): Option<State>
    requires h.vm.frames.highest >= Pmm.PAGE
  {
    match op
    case Malloc(n) => Requested(h, Kmalloc(h, n), n)
    case Write(ptr, m) =>
      if ptr in h.blocks && |h.blocks[ptr].frames| == PagesFor(h.blocks[ptr].n) && PayloadOnly(h, ptr, m)
      then Some(h.(vm := h.vm.(mem := m))) else None
    case Free(ptr) =>
      if ptr in h.blocks then Kfree(h, ptr) else None
    case Realloc(ptr, n) =>
      if ptr in h.blocks && (Kmalloc(h, n).Given? ==> CopyFits(h.blocks[ptr].n, n))
          then Requested(h, Krealloc(h, ptr, n), n)
      else None
  }

  ghost function Requested(h: State, r: Outcome, n: nat): Option<State>
    requires h.vm.frames.highest >= Pmm.PAGE
  {
    match r {
      case Given(h', _) => if RoomFor(h, n) then Some(h') else None
      case Refused(h') => if h'.vm.frames.locked then None else Some(h')
      case Stuck => None
    }
  }

  /** A refusal that leaves the frame mutex free leaves everything as it was. */
  lemma RefusedSame(h: State, n: nat)
    requires h.vm.frames.highest >= Pmm.PAGE && Kmalloc(h, n).Refused? && !Kmalloc(h, n).h.vm.frames.locked
    ensures Kmalloc(h, n).h == h
  {
    hide FirstFit, BackRange, BackedLayout;
    var (r, ptr) := Alloc(h.vm, KERNEL_HEAP, PagesFor(n), FLAGS);
    if r == BackRange(h.vm, ptr, PagesFor(n), FLAGS) {
      NullLocks(h.vm, ptr, PagesFor(n), FLAGS);
    }
  }

  /** The NULL return in the middle of a range comes after some whole rounds, with no frame left to take. */
  lemma {:induction false} NullLocks(vm: Vm, ptr: nat, n: nat, flags: nat)
    requires vm.frames.highest >= Pmm.PAGE && BackRange(vm, ptr, n, flags).Null?
    ensures BackRange(vm, ptr, n, flags).vm.frames.locked
    ensures exists k :: 0 <= k < n && NullAfter(vm, ptr, n, flags, k)
  {
    hide BackRange, MapPage, Pmm.Alloc;
    BackRangeRound(vm, ptr, n, flags);
    var r := BackRange(vm, ptr, n - 1, flags);
    if r.Null? {
      NullLocks(vm, ptr, n - 1, flags);
      var k :| 0 <= k < n - 1 && NullAfter(vm, ptr, n - 1, flags, k);
      assert NullAfter(vm, ptr, n, flags, k);
    } else {
      assert NullAfter(vm, ptr, n, flags, n - 1);
    }
  }

  /** The last round of the loop that fails. */
  lemma BackRangeRound(vm: Vm, ptr: nat, n: nat, flags: nat)
    requires vm.frames.highest >= Pmm.PAGE && BackRange(vm, ptr, n, flags).Null?
    ensures n > 0
    ensures var r := BackRange(vm, ptr, n - 1, flags);
            if r.Null? then BackRange(vm, ptr, n, flags) == r
            else r.Backed? && Pmm.Alloc(r.vm.frames).1.None? &&
                 BackRange(vm, ptr, n, flags).vm == r.vm.(frames := r.vm.frames.(locked := true))
  {
    hide MapPage, Pmm.FindFrom;
  }

  ghost predicate NullAfter(vm: Vm, ptr: nat, n: nat, flags: nat, k: nat)
    requires vm.frames.highest >= Pmm.PAGE && BackRange(vm, ptr, n, flags).Null?
  {
    var r := BackRange(vm, ptr, k, flags);
    && r.Backed? && BackRange(vm, ptr, n, flags).vm == r.vm.(frames := r.vm.frames.(locked := true))
    && Pmm.Alloc(r.vm.frames).1.None?
  }

  ghost function Run(h: State, ops: seq<Op>): Option<State>
    decreases |ops|
  {
    if ops == [] then Some(h)
    else if h.vm.frames.highest < Pmm.PAGE then None
    else match Step(h, ops[0])
      case None => None
      case Some(h') => Run(h', ops[1..])
  }

  lemma StepKeeps(h: State, op: Op)
    requires HeapInv(h) && h.vm.frames.highest >= Pmm.PAGE && Step(h, op).Some?
    ensures HeapInv(Step(h, op).value)
  {
    hide Kmalloc, Kfree, HeapInv, PayloadOnly, RoomFor, Krealloc;
    match op
    case Malloc(n) =>
      if Kmalloc(h, n).Given? {
        KmallocKeeps(h, n);
      } else {
        RefusedSame(h, n);
      }
    case Write(ptr, m) => WriteKeeps(h, ptr, m);
    case Free(ptr) => KfreeCorrect(h, ptr);
    case Realloc(ptr, n) =>
      KreallocRefused(h, ptr, n);
      if Kmalloc(h, n).Given? {
        if RoomFor(h, n) {
          KreallocCorrect(h, ptr, n);
        }
      } else {
        RefusedSame(h, n);
      }
  }

  /** `krealloc` is refused exactly if its `kmalloc` is. */
  lemma KreallocRefused(h: State, ptr: nat, n: nat)
    requires h.vm.frames.highest >= Pmm.PAGE
    ensures !Kmalloc(h, n).Given? ==> Krealloc(h, ptr, n) == Kmalloc(h, n)
    ensures Kmalloc(h, n).Given? ==> !Krealloc(h, ptr, n).Refused?
  {
    hide Kmalloc, Kfree, CopyBlock, ReadHeader;
  }

  /** After every run of the heap's operations, refused ones included, the live blocks are disjoint ranges of pages on
      distinct frames, with their headers intact. */
  lemma {:induction false} HeapRuns(h: State, ops: seq<Op>)
    requires HeapInv(h) && Run(h, ops).Some?
    ensures HeapInv(Run(h, ops).value)
    decreases |ops|
  {
    hide Step, HeapInv;
    if ops != [] {
      StepKeeps(h, ops[0]);
      HeapRuns(Step(h, ops[0]).value, ops[1..]);
    }
  }

  /** The heap of the kernel as it boots is empty: the PML4 slot of the heap area is. */
  lemma BootHeap(m: Mem, es: seq<Pmm.E820>, foreign: set<nat>)
    requires AddressSpaces.BootTables(m) && es != [] && Pmm.NearlyFits(es) && forall p :: p in foreign ==>
             p >= Pmm.Limit(es)
    requires Pmm.PAGE <= Pmm.Init(es, foreign).highest < WORD_LIMIT
    ensures HeapInv(State(AddressSpaces.BootVm(m, es, foreign), AddressSpaces.BootLayout(), map[]))
  {
    hide Pmm.Init, Pmm.NearlyFits, Pmm.Limit, Inv, Entry, WithEntry, Slot, Present;
    AddressSpaces.BootInvariant(m, es, foreign);
    EntryAfterWrite(m, AddressSpaces.BOOT_ROOT, 0, 0);
    ZeroEntry();
    var vm := AddressSpaces.BootVm(m, es, foreign);
    assert Entry(vm.mem, vm.cr3, HEAP_SLOT) == 0;
  }
}
