/** The heap as the kernel runs it: header words and bytes written through the page tables, one byte
    at a time, under `heap_mutex`. Each method is tied to its form in `Heap`. */
module HeapMachine {
  import opened Memory
  import opened PageTable
  import opened Vmm
  import opened Heap
  import Pmm
  import PmmBitmap
  import VmmMachine

  /** A range that is held at `ptr`, aligned and inside the heap area. */
  ghost predicate RangeReady(vm: Vm, t: Layout, ptr: nat, ps: seq<nat>) {
    && Inv(vm, t) && HeapArea(vm, t) && Holds(vm, t, ptr, ps, FLAGS) && ps != []
    && ptr % 4096 == 0 && KERNEL_HEAP <= ptr && ptr + |ps| * 4096 <= HEAP_TOP
  }

  /** Writing into the frames `qs`, which are no tables, leaves a range ready. */
  lemma RangeReadyKept(vm: Vm, t: Layout, ptr: nat, ps: seq<nat>, m': Mem, qs: seq<nat>)
    requires RangeReady(vm, t, ptr, ps) && forall x: nat :: x / 4096 !in qs ==> Rd8(m', x) == Rd8(vm.mem, x)
    requires forall i :: 0 <= i < |qs| ==> qs[i] !in t.roles
    ensures RangeReady(vm.(mem := m'), t, ptr, ps)
  {
    hide Slot, Walk, LargeFree, HeapArea, Rd8, Inv, Holds;
    DataStep(vm, t, m', qs);
  }

  lemma ReadyNoTable(vm: Vm, t: Layout, ptr: nat, ps: seq<nat>)
    requires RangeReady(vm, t, ptr, ps)
    ensures Distinct(ps) && ps != [] && forall i :: 0 <= i < |ps| ==> ps[i] !in t.roles
  {
    hide Slot, Walk, LargeFree, HeapArea, Inv;
    forall i | 0 <= i < |ps| ensures ps[i] !in t.roles {
      assert Returnable(vm, t, ps[i]);
    }
  }

  lemma RangeReadyAddress(vm: Vm, t: Layout, ptr: nat, ps: seq<nat>, k: nat)
    requires RangeReady(vm, t, ptr, ps) && k < |ps| * 4096
    ensures GetPhysical(vm, ptr + k) == Some(Addr(ps, k))
  {
    hide Slot, Walk, LargeFree, HeapArea, Inv, Holds, GetPhysical, Addr;
    HeldAddress(vm, t, ptr, ps, k);
  }

  class KernelHeap {
    const machine: VmmMachine.Machine
    var locked: bool   // heap_mutex

    constructor (machine: VmmMachine.Machine)
      ensures this.machine == machine && !locked
    {
      this.machine, locked := machine, false;
    }

    /** `memset(ptr, 0, n)` through the page tables. */
    method Memset(ptr: nat, n: nat, ghost t: Layout, ghost ps: seq<nat>)
      requires RangeReady(machine.View(), t, ptr, ps) && n <= |ps| * 4096
      modifies machine`mem
      ensures machine.mem == Fill(old(machine.mem), ps, n) && RangeReady(machine.View(), t, ptr, ps)
    {
      hide RangeReady, Rd8, GetPhysical, Addr, PmmBitmap.FreeBits;
      ghost var m0 := machine.mem;
      ghost var vm0 := machine.View();
      ReadyNoTable(vm0, t, ptr, ps);
      var i := 0;
      while i < n
        invariant 0 <= i <= n && machine.mem == Fill(m0, ps, i) && machine.View() == vm0.(mem := machine.mem)
        invariant RangeReady(machine.View(), t, ptr, ps)
      {
        RangeReadyAddress(machine.View(), t, ptr, ps, i);
        var found, a := machine.PhysicalOf(ptr + i);
        machine.mem := machine.mem[a := 0];
        FillBytes(m0, ps, i + 1);
        RangeReadyKept(vm0, t, ptr, ps, machine.mem, ps);
        i := i + 1;
      }
    }

    /** `memcpy(to + 16, from + 16, n)` through the page tables. */
    method Memcpy(to: nat, from: nat, n: nat, ghost t: Layout, ghost qs: seq<nat>, ghost ps: seq<nat>)
      requires RangeReady(machine.View(), t, to, qs) && RangeReady(machine.View(), t, from, ps)
               && Elems(ps) !! Elems(qs)
      requires HEADER + n <= |ps| * 4096 && HEADER + n <= |qs| * 4096
      modifies machine`mem
      ensures machine.mem == Copy(old(machine.mem), ps, qs, n)
    {
      hide RangeReady, Rd8, GetPhysical, Addr, Payload, PmmBitmap.FreeBits, Elems;
      ghost var m0 := machine.mem;
      ghost var vm0 := machine.View();
      ReadyNoTable(vm0, t, to, qs);
      var i := 0;
      while i < n
        invariant 0 <= i <= n && machine.mem == Copy(m0, ps, qs, i) && machine.View() == vm0.(mem := machine.mem)
        invariant RangeReady(machine.View(), t, to, qs) && RangeReady(machine.View(), t, from, ps)
      {
        RangeReadyAddress(machine.View(), t, to, qs, HEADER + i);
        RangeReadyAddress(machine.View(), t, from, ps, HEADER + i);
        PayloadIsAddr(qs, i);
        PayloadIsAddr(ps, i);
        var found, a := machine.PhysicalOf(from + HEADER + i);
        var found', b := machine.PhysicalOf(to + HEADER + i);
        machine.mem := machine.mem[b := Rd8(machine.mem, a)];
        CopyStaysInside(m0, ps, qs, i + 1);
        RangeReadyKept(vm0, t, to, qs, machine.mem, qs);
        RangeReadyKept(vm0, t, from, ps, machine.mem, qs);
        i := i + 1;
      }
    }

    /** `kmalloc`; `ok` is false where the kernel stops, and `p == 0` is NULL. */
    method Kmalloc(n: nat, ghost h: State) returns (ok: bool, p: nat)
      requires machine.Ready() && !machine.locked && !locked && h.vm == machine.View() && HeapInv(h)
      requires h.vm.frames.highest >= Pmm.PAGE && RoomFor(h, n) && FirstFit(h.vm, KERNEL_HEAP, PagesFor(n)).Some?
      modifies this`locked, machine`mem, machine`locked, machine.pmm`used, machine.pmm`locked, machine.pmm.bitmap
      ensures ok <==> !Heap.Kmalloc(h, n).Stuck?
      ensures ok ==> machine.View() == Heap.Kmalloc(h, n).h.vm && !locked && !machine.locked
      ensures ok && p != 0 ==> Heap.Kmalloc(h, n).Given? && p == Heap.Kmalloc(h, n).ptr + HEADER && machine.Ready()
      ensures ok && p == 0 ==> Heap.Kmalloc(h, n).Refused?
    {
      hide HeapInv, BackRange, BackedLayout, Fill, WithHeader, FirstFit, GetPhysical, PmmBitmap.FreeBits, RangeReady;
      hide Rd64, Wr64;
      locked := true;
      var size := n + HEADER;
      var pages := (size + 4096 - 1) / 4096;
      assert pages == PagesFor(n);
      var ptr;
      ok, ptr := machine.AllocRange(KERNEL_HEAP, pages, FLAGS);
      if !ok {
        return false, 0;
      }
      if ptr == 0 {
        locked := false;
        return true, 0;
      }
      ghost var (r, _) := Vmm.Alloc(h.vm, KERNEL_HEAP, pages, FLAGS);
      ghost var ps := r.frames;
      ghost var t1 := BackedLayout(h.vm, h.t, ptr, pages, FLAGS);
      FoundReady(h, n);
      Memset(ptr, size, t1, ps);
      StoreHeader(ptr, pages, n, t1, ps);
      locked := false;
      return true, ptr + HEADER;
    }

    /** `ptr[0] = pages; ptr[1] = n` */
    method StoreHeader(ptr: nat, pages: nat, n: nat, ghost t: Layout, ghost ps: seq<nat>)
      requires RangeReady(machine.View(), t, ptr, ps) && pages < WORD_LIMIT && n < WORD_LIMIT
      modifies machine`mem
      ensures machine.mem == WithHeader(old(machine.mem), ps, pages, n)
    {
      hide RangeReady, Rd8, GetPhysical, PmmBitmap.FreeBits, Wr64;
      ghost var vm0 := machine.View();
      ReadyNoTable(vm0, t, ptr, ps);
      RangeReadyAddress(vm0, t, ptr, ps, 0);
      var found, a := machine.PhysicalOf(ptr + 0);
      machine.mem := Wr64(machine.mem, a, pages);
      FirstWordInside(vm0.mem, ps, pages);
      RangeReadyKept(vm0, t, ptr, ps, machine.mem, ps);
      RangeReadyAddress(machine.View(), t, ptr, ps, 8);
      found, a := machine.PhysicalOf(ptr + 8);
      machine.mem := Wr64(machine.mem, a, n);
    }

    /** `kfree` of a live block. */
    method Kfree(p: nat, ghost h: State) returns (ok: bool)
      requires machine.Ready() && !machine.locked && h.vm == machine.View() && HeapInv(h)
      requires p >= HEADER && p - HEADER in h.blocks && h.vm.frames.highest >= Pmm.PAGE
      modifies machine`mem, machine`locked, machine.pmm`used, machine.pmm`locked, machine.pmm.bitmap
      ensures ok && Heap.Kfree(h, p - HEADER).Some? && machine.View() == Heap.Kfree(h, p - HEADER).value.vm
      ensures machine.Ready() && !machine.locked
    {
      hide HeapInv, FreeRange, GetPhysical, PmmBitmap.FreeBits, Rd64;
      ghost var ptr := p - HEADER;
      ghost var b := h.blocks[ptr];
      LiveOk(h, ptr);
      ReadHeaderCorrect(h.vm, h.t, ptr, b);
      KfreeCorrect(h, ptr);
      var found, a := machine.PhysicalOf(p - HEADER);
      var pages := Rd64(machine.mem, a);
      forall i | 0 <= i < pages ensures VmmMachine.InBitmap(h.vm, MaskPage(p), i) {
        LiveInBitmap(h, ptr, i);
      }
      ok := machine.FreePages(MaskPage(p), pages);
    }

    /** `krealloc` of a live block whose bytes fit the new one. */
    method Krealloc(p: nat, newSize: nat, ghost h: State) returns (ok: bool, q: nat)
      requires machine.Ready() && !machine.locked && !locked && h.vm == machine.View() && HeapInv(h)
      requires p >= HEADER && p - HEADER in h.blocks && CopyFits(h.blocks[p - HEADER].n, newSize)
      requires h.vm.frames.highest >= Pmm.PAGE && RoomFor(h, newSize)
               && FirstFit(h.vm, KERNEL_HEAP, PagesFor(newSize)).Some?
      modifies this`locked, machine`mem, machine`locked, machine.pmm`used, machine.pmm`locked, machine.pmm.bitmap
      ensures ok <==> !Heap.Kmalloc(h, newSize).Stuck?
      ensures ok ==> var r := Heap.Krealloc(h, p - HEADER, newSize);
                     && !r.Stuck? && machine.View() == r.h.vm
                     && (if q == 0 then r.Refused? else r.Given? && q == r.ptr + HEADER)
    {
      hide HeapInv, Heap.Kmalloc, Heap.Kfree, Heap.Krealloc, CopyBlock, GetPhysical, PmmBitmap.FreeBits, RangeReady;
      hide Copy, Rd64, FirstFit, Elems, RoomFor;
      ghost var src := p - HEADER;
      ok, q := Kmalloc(newSize, h);
      if !ok || q == 0 {
        NothingReallocated(h, src, newSize);
        return;
      }
      ghost var r := Heap.Kmalloc(h, newSize);
      ghost var b := h.blocks[src];
      ReallocPlan(h, src, newSize);
      ghost var copied := CopyBlock(r.h, src, r.ptr, b.n);
      var found, a := machine.PhysicalOf(p - HEADER);
      var n := Rd64(machine.mem, a + 8);
      Memcpy(q - HEADER, p - HEADER, n, r.h.t, r.h.blocks[r.ptr].frames, b.frames);
      ok := Kfree(p, copied);
    }
  }

  lemma FirstWordInside(m: Mem, ps: seq<nat>, w: nat)
    requires ps != []
    ensures forall x: nat :: x / 4096 !in ps ==> Rd8(Wr64(m, ps[0] * 4096, w), x) == Rd8(m, x)
    ensures Addr(ps, 0) == ps[0] * 4096 && Addr(ps, 8) == ps[0] * 4096 + 8
  {
    hide WrLe, Rd8;
    WrLeBytes(m, ps[0] * 4096, WordBytes(m), w);
    forall x: nat | x / 4096 !in ps ensures !(ps[0] * 4096 <= x < ps[0] * 4096 + 8) {
      HeaderFrame(ps, x);
    }
  }

  lemma CopyStaysInside(m: Mem, from: seq<nat>, to: seq<nat>, n: nat)
    requires HEADER + n <= |from| * 4096 && HEADER + n <= |to| * 4096 && Distinct(to) && Elems(from) !! Elems(to)
    ensures forall x: nat :: x / 4096 !in to ==> Rd8(Copy(m, from, to, n), x) == Rd8(m, x)
  {
    hide Copy, Rd8, Payload, Elems;
    CopyBytes(m, from, to, n);
    forall x: nat | x / 4096 !in to ensures Rd8(Copy(m, from, to, n), x) == Rd8(m, x) {
      forall k | 0 <= k < n ensures x != Payload(to, k) {
        PayloadIn(to, k);
      }
    }
  }

  /** The range that `kmalloc` has just mapped is ready to be written. */
  lemma FoundReady(h: State, n: nat)
    requires HeapInv(h) && h.vm.frames.highest >= Pmm.PAGE && RoomFor(h, n) && Heap.Kmalloc(h, n).Given?
    ensures var pages := PagesFor(n);
            var (r, ptr) := Vmm.Alloc(h.vm, KERNEL_HEAP, pages, FLAGS);
            && r.Backed? && |r.frames| == pages < WORD_LIMIT
            && RangeReady(r.vm, BackedLayout(h.vm, h.t, ptr, pages, FLAGS), ptr, r.frames)
  {
    hide Slot, Walk, LargeFree, BackRange, BackedLayout, Inv, Fill, WithHeader, FirstFit, Low48, HeapArea, RangeBacked;
    hide Holds, BlockOk, Apart;
    FoundRange(h, n);
    var (r, ptr) := Vmm.Alloc(h.vm, KERNEL_HEAP, PagesFor(n), FLAGS);
    MappedForBlock(h, ptr, PagesFor(n));
    PagesFit(n, ptr);
  }

  /** What `krealloc` relies on between its calls. */
  lemma ReallocPlan(h: State, src: nat, newSize: nat)
    requires HeapInv(h) && src in h.blocks && h.vm.frames.highest >= Pmm.PAGE
    requires RoomFor(h, newSize) && Heap.Kmalloc(h, newSize).Given? && CopyFits(h.blocks[src].n, newSize)
    ensures var r := Heap.Kmalloc(h, newSize);
            var b := h.blocks[src];
            && src in r.h.blocks && r.h.blocks[src] == b && r.ptr in r.h.blocks
            && ReadHeader(r.h.vm, src, 8) == Some(b.n)
            && RangeReady(r.h.vm, r.h.t, src, b.frames) && RangeReady(r.h.vm, r.h.t, r.ptr, r.h.blocks[r.ptr].frames)
            && Elems(b.frames) !! Elems(r.h.blocks[r.ptr].frames)
            && HEADER + b.n <= |b.frames| * 4096 && HEADER + b.n <= |r.h.blocks[r.ptr].frames| * 4096
            && var copied := CopyBlock(r.h, src, r.ptr, b.n);
               HeapInv(copied) && copied.vm.frames.highest >= Pmm.PAGE && src in copied.blocks
                   && Heap.Kfree(copied, src).Some?
               && Heap.Krealloc(h, src, newSize) == Given(Heap.Kfree(copied, src).value, r.ptr)
               && copied.vm == r.h.vm.(mem := Copy(r.h.vm.mem, b.frames, r.h.blocks[r.ptr].frames, b.n))
  {
    hide HeapInv, Heap.Kmalloc, Heap.Kfree, GetPhysical, RangeReady, Copy, BlockOk, Rd64, FirstFit, ReadHeader;
    hide CopyBlock, Payload, Rd8, RoomFor, Elems;
    KmallocCorrect(h, newSize);
    var r := Heap.Kmalloc(h, newSize);
    var b := h.blocks[src];
    LiveOk(r.h, src);
    BlockDistinct(r.h.vm, r.h.t, src, b);
    ReadHeaderCorrect(r.h.vm, r.h.t, src, b);
    LiveReady(r.h, src);
    LiveReady(r.h, r.ptr);
    LiveApart(r.h, src, r.ptr);
    CopyBlockCorrect(r.h, src, r.ptr, b.n);
    var copied := CopyBlock(r.h, src, r.ptr, b.n);
    HeapInvHighest(copied);
    KfreeCorrect(copied, src);
    CopiedMemory(r.h, src, r.ptr, b.n);
  }

  lemma CopiedMemory(h: State, src: nat, dst: nat, n: nat)
    requires src in h.blocks && dst in h.blocks
    requires HEADER + n <= |h.blocks[src].frames| * 4096 && HEADER + n <= |h.blocks[dst].frames| * 4096
    ensures CopyBlock(h, src, dst, n).vm == h.vm.(mem := Copy(h.vm.mem, h.blocks[src].frames, h.blocks[dst].frames, n))
  {
  }

  lemma NothingReallocated(h: State, src: nat, newSize: nat)
    requires h.vm.frames.highest >= Pmm.PAGE && !Heap.Kmalloc(h, newSize).Given?
    ensures Heap.Krealloc(h, src, newSize) == Heap.Kmalloc(h, newSize)
  {
  }

  lemma LiveReady(h: State, ptr: nat)
    requires HeapInv(h) && ptr in h.blocks
    ensures RangeReady(h.vm, h.t, ptr, h.blocks[ptr].frames)
  {
    hide Slot, Walk, LargeFree, Inv, HeapArea, Holds, StoredPages, StoredSize;
  }

  lemma LiveApart(h: State, p: nat, q: nat)
    requires HeapInv(h) && p in h.blocks && q in h.blocks && p != q
    ensures Elems(h.blocks[p].frames) !! Elems(h.blocks[q].frames)
  {
    hide BlockOk, Inv, HeapArea;
    assert Apart(p, h.blocks[p], q, h.blocks[q]);
  }

  lemma LiveInBitmap(h: State, ptr: nat, i: nat)
    requires HeapInv(h) && ptr in h.blocks && h.vm.frames.highest >= Pmm.PAGE && i < |h.blocks[ptr].frames|
    ensures MaskPage(ptr + HEADER) == ptr && VmmMachine.InBitmap(h.vm, ptr, i)
  {
    hide Slot, Walk, LargeFree, Inv, HeapArea, StoredPages, StoredSize, RangeFreed, FreeRange, GetPhysical, Holds;
    var b := h.blocks[ptr];
    LiveReady(h, ptr);
    MaskedHeader(ptr) by { assert ptr % 4096 == 0; }
    hide HeapInv, RangeReady, BlockOk;
    FreeRangeCorrect(h.vm, h.t, ptr, i, b.frames, FLAGS);
    var vm1 := FreeRange(h.vm, ptr, i).value;
    StillHeld(h.vm, h.t, vm1, ptr, i, b.frames, FLAGS);
    HoldsFacts(h.vm, h.t, ptr, b.frames, FLAGS);
    FreeOne(vm1, h.t, Page(ptr, i), b.frames[i], FLAGS);
    FreedPages(h.vm, h.t, vm1, ptr, i, b.frames);
  }

  lemma MaskedHeader(ptr: nat)
    requires ptr % 4096 == 0
    ensures MaskPage(ptr + HEADER) == ptr
  {
  }

  lemma FreedPages(vm: Vm, t: Layout, vm': Vm, ptr: nat, n: nat, ps: seq<nat>)
    requires n <= |ps| && RangeFreed(vm, t, vm', ptr, n, ps)
    ensures vm'.frames.pages == vm.frames.pages
  {
  }
}
