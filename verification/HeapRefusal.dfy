/** A request for heap memory that runs out of frames in the middle (kernel/src/mm/vmm.c, vmm_alloc): what is left. */
module HeapRefusal {
  import opened Memory
  import opened PageTable
  import opened Vmm
  import opened Heap
  import AddressSpaces
  import Pmm

  /** What is left after the frames ran out in the middle of a request. */
  ghost predicate Leaked(h: State, h1: State, ptr: nat, k: nat) {
    && h.vm.frames.highest >= Pmm.PAGE && BackRange(h.vm, ptr, k, FLAGS).Backed?
    && var ps, t1 := BackRange(h.vm, ptr, k, FLAGS).frames, BackedLayout(h.vm, h.t, ptr, k, FLAGS);
    && h1.vm.frames.locked && h1.blocks == h.blocks
    && HeapInv(State(h1.vm.(frames := h1.vm.frames.(locked := false)), t1, h.blocks))
    && (forall q, x: nat :: q in h.blocks && x / 4096 in h.blocks[q].frames ==> Rd8(h1.vm.mem, x) == Rd8(h.vm.mem, x))
    && |ps| == k && (forall i :: 0 <= i < k ==> GetPage(h1.vm.mem, h1.vm.cr3, Page(ptr, i)) == ps[i] * 4096 + FLAGS)
    && (forall i, q :: 0 <= i < k && q in h.blocks ==> ps[i] !in h.blocks[q].frames)
    && (forall i :: 0 <= i < k ==> ps[i] !in h1.vm.frames.free)
    && Pmm.Reachable(h1.vm.frames) == {}
  }

  /** Then every live block keeps its place, its header and its bytes; the pages mapped so far stay mapped to frames
      that belong to nobody; and the frame mutex is held with no frame left to take. */
  lemma MidRangeLeak(h: State, n: nat)
    requires HeapInv(h) && RoomFor(h, n) && Kmalloc(h, n).Refused? && Kmalloc(h, n).h.vm.frames.locked
    ensures exists k ::
              0 <= k < PagesFor(n)
              && Leaked(h, Kmalloc(h, n).h, Alloc(h.vm, KERNEL_HEAP, PagesFor(n), FLAGS).1, k)
  {
    hide FirstFit, BackRange, BackedLayout, HeapInv, Leaked, NullAfter, Walk, Inv;
    HeapInvHighest(h);
    NotLocked(h);
    var pages := PagesFor(n);
    var (r, ptr) := Alloc(h.vm, KERNEL_HEAP, pages, FLAGS);
    assert r == BackRange(h.vm, ptr, pages, FLAGS);
    NullLocks(h.vm, ptr, pages, FLAGS);
    var k :| 0 <= k < pages && NullAfter(h.vm, ptr, pages, FLAGS, k);
    NullRange(h, n);
    LeakedAfter(h, ptr, pages, k, Kmalloc(h, n).h);
  }

  lemma NotLocked(h: State)
    requires HeapInv(h)
    ensures !h.vm.frames.locked
  {
    hide Tree, HeapArea, BlockOk;
  }

  /** The range found, also when it could not be backed. */
  lemma NullRange(h: State, n: nat)
    requires HeapInv(h) && RoomFor(h, n) && h.vm.frames.highest >= Pmm.PAGE
    requires var (r, ptr) := Alloc(h.vm, KERNEL_HEAP, PagesFor(n), FLAGS);
             r == BackRange(h.vm, ptr, PagesFor(n), FLAGS)
             && ptr != 0
    ensures var ptr := Alloc(h.vm, KERNEL_HEAP, PagesFor(n), FLAGS).1;
            && KERNEL_HEAP <= ptr && ptr % 4096 == 0 && ptr + PagesFor(n) * 4096 <= HEAP_TOP
            && (forall i :: 0 <= i < PagesFor(n) ==> !Present(GetPage(h.vm.mem, h.vm.cr3, Page(ptr, i))))
  {
    hide GetPage, BackRange, BackedLayout, Inv, HeapArea, BlockOk, HeapInv, Present;
    var pages := PagesFor(n);
    var ptr := Alloc(h.vm, KERNEL_HEAP, pages, FLAGS).1;
    FirstFitSmallest(h.vm, KERNEL_HEAP, pages);
    hide FirstFit;
    FitUnmapped(h.vm, ptr, pages);
  }

  lemma FitUnmapped(vm: Vm, ptr: nat, n: nat)
    requires FitsAt(vm, ptr, n)
    ensures forall i :: 0 <= i < n ==> !Present(GetPage(vm.mem, vm.cr3, Page(ptr, i)))
  {
    hide Present, GetPage;
    forall i | 0 <= i < n ensures !Present(GetPage(vm.mem, vm.cr3, Page(ptr, i))) {
      assert Unmapped(vm, Page(ptr, i));
    }
  }

  lemma LeakedAfter(h: State, ptr: nat, pages: nat, k: nat, h1: State)
    requires HeapInv(h) && h.vm.frames.highest >= Pmm.PAGE && BackRange(h.vm, ptr, pages, FLAGS).Null?
    requires KERNEL_HEAP <= ptr && ptr % 4096 == 0 && ptr + pages * 4096 <= HEAP_TOP && k < pages
    requires forall i :: 0 <= i < pages ==> !Present(GetPage(h.vm.mem, h.vm.cr3, Page(ptr, i)))
    requires NullAfter(h.vm, ptr, pages, FLAGS, k) && h1 == h.(vm := BackRange(h.vm, ptr, pages, FLAGS).vm)
    ensures Leaked(h, h1, ptr, k)
  {
    hide Walk, BackRange, BackedLayout, Inv, HeapInv, HeapArea, BlockOk, Apart, RangeBacked, Holds, Slot, LargeFree;
    hide NullAfter, Pmm.Alloc, Leaked;
    NullFacts(h.vm, ptr, pages, FLAGS, k);
    if k == 0 {
      NothingLeaked(h, ptr, h1);
    } else {
      MappedForBlock(h, ptr, k);
      PartLeaked(h, ptr, k, h1);
    }
  }

  lemma NullFacts(vm: Vm, ptr: nat, n: nat, flags: nat, k: nat)
    requires vm.frames.highest >= Pmm.PAGE && BackRange(vm, ptr, n, flags).Null? && NullAfter(vm, ptr, n, flags, k)
    ensures var r := BackRange(vm, ptr, k, flags);
            && r.Backed? && BackRange(vm, ptr, n, flags).vm == r.vm.(frames := r.vm.frames.(locked := true))
            && r.vm.frames.highest >= Pmm.PAGE && Pmm.Alloc(r.vm.frames).1.None?
  {
    hide BackRange, Pmm.Alloc;
  }

  /** No frame is reachable when the allocation fails; the mutex does not matter for that. */
  lemma NoneReachable(vm: Vm, t: Layout)
    requires Inv(vm, t) && vm.frames.highest >= Pmm.PAGE && Pmm.Alloc(vm.frames).1.None?
    ensures Pmm.Reachable(vm.frames.(locked := true)) == {} && !vm.frames.locked
  {
    hide Tree;
    Pmm.AllocTakesLowest(vm.frames);
    hide Pmm.Alloc;
    assert Pmm.Reachable(vm.frames.(locked := true)) == Pmm.Reachable(vm.frames);
  }

  /** The state of the machine while the mutex is held, but for the mutex. */
  lemma Unlocked(vm: Vm)
    requires !vm.frames.locked
    ensures var locked := vm.(frames := vm.frames.(locked := true));
            locked.(frames := locked.frames.(locked := false)) == vm
  {
  }

  lemma NothingLeaked(h: State, ptr: nat, h1: State)
    requires HeapInv(h) && h.vm.frames.highest >= Pmm.PAGE
    requires var r := BackRange(h.vm, ptr, 0, FLAGS);
             r.Backed? && r.vm.frames.highest >= Pmm.PAGE && Pmm.Alloc(r.vm.frames).1.None?
             && h1 == h.(vm := r.vm.(frames := r.vm.frames.(locked := true)))
    ensures Leaked(h, h1, ptr, 0)
  {
    hide Pmm.Alloc, Inv, HeapArea, BlockOk, Apart, Pmm.Reachable;
    assert BackRange(h.vm, ptr, 0, FLAGS) == Backed(h.vm, []);
    assert BackedLayout(h.vm, h.t, ptr, 0, FLAGS) == h.t;
    NoneReachable(h.vm, h.t);
    Unlocked(h.vm);
    hide HeapInv;
    assert State(h.vm, h.t, h.blocks) == h;
  }

  lemma PartLeaked(h: State, ptr: nat, k: nat, h1: State)
    requires HeapInv(h) && h.vm.frames.highest >= Pmm.PAGE && k > 0
    requires var r, t1 := BackRange(h.vm, ptr, k, FLAGS), BackedLayout(h.vm, h.t, ptr, k, FLAGS);
             && r.Backed? && r.vm.frames.highest >= Pmm.PAGE && Pmm.Alloc(r.vm.frames).1.None?
             && h1 == h.(vm := r.vm.(frames := r.vm.frames.(locked := true)))
             && RangeBacked(h.vm, h.t, r.vm, t1, ptr, k, FLAGS, r.frames) && Inv(r.vm, t1) && HeapArea(r.vm, t1)
             && (forall q :: q in h.blocks ==>
                   BlockOk(r.vm, t1, q, h.blocks[q])
                   && Apart(ptr, Block(0, r.frames), q, h.blocks[q]))
    ensures Leaked(h, h1, ptr, k)
  {
    hide Pmm.Alloc, Inv, HeapArea, BlockOk, Apart, Pmm.Reachable, BackRange, BackedLayout, RangeBacked, Walk, HeapInv;
    var r, t1 := BackRange(h.vm, ptr, k, FLAGS), BackedLayout(h.vm, h.t, ptr, k, FLAGS);
    NoneReachable(r.vm, t1);
    Unlocked(r.vm);
    KeptBlocks(h, r.vm, t1);
    KeptBytes(h, r.vm, t1, ptr, k, r.frames);
    PageFacts(h.vm, h.t, r.vm, t1, ptr, k, r.frames);
    ForeignFrames(h, ptr, r.frames);
    assert State(h1.vm.(frames := h1.vm.frames.(locked := false)), t1, h.blocks) == State(r.vm, t1, h.blocks);
  }

  lemma KeptBlocks(h: State, vm: Vm, t1: Layout)
    requires HeapInv(h) && Inv(vm, t1) && HeapArea(vm, t1) && forall q :: q in h.blocks ==>
             BlockOk(vm, t1, q, h.blocks[q])
    ensures HeapInv(State(vm, t1, h.blocks))
  {
    hide Inv, HeapArea, BlockOk, Apart;
  }

  lemma KeptBytes(h: State, vm: Vm, t1: Layout, ptr: nat, k: nat, ps: seq<nat>)
    requires HeapInv(h) && RangeBacked(h.vm, h.t, vm, t1, ptr, k, FLAGS, ps)
    ensures forall q, x: nat :: q in h.blocks && x / 4096 in h.blocks[q].frames ==> Rd8(vm.mem, x) == Rd8(h.vm.mem, x)
  {
    hide RangeBacked, HeapInv, BlockOk, Rd8;
    forall q, x: nat | q in h.blocks && x / 4096 in h.blocks[q].frames ensures Rd8(vm.mem, x) == Rd8(h.vm.mem, x) {
      LiveOk(h, q);
      OtherBytes(h.vm, h.t, vm, t1, ptr, k, ps, q, h.blocks[q], x);
    }
  }

  lemma PageFacts(vm: Vm, t: Layout, vm1: Vm, t1: Layout, ptr: nat, k: nat, ps: seq<nat>)
    requires RangeBacked(vm, t, vm1, t1, ptr, k, FLAGS, ps)
    ensures |ps| == k && vm1.cr3 == vm.cr3 && forall i :: 0 <= i < k ==>
              GetPage(vm1.mem, vm1.cr3, Page(ptr, i)) ==
              ps[i] * 4096 + FLAGS
    ensures forall i :: 0 <= i < k ==> ps[i] !in vm1.frames.free
  {
    hide Inv, Walk, LargeFree, InRange, Covers, Extends;
  }

  /** The leaked frames are in no block. */
  lemma ForeignFrames(h: State, ptr: nat, ps: seq<nat>)
    requires forall q :: q in h.blocks ==> Apart(ptr, Block(0, ps), q, h.blocks[q])
    ensures forall i, q :: 0 <= i < |ps| && q in h.blocks ==> ps[i] !in h.blocks[q].frames
  {
    forall i, q | 0 <= i < |ps| && q in h.blocks ensures ps[i] !in h.blocks[q].frames {
      assert ps[i] in Elems(ps);
      assert forall f :: f in h.blocks[q].frames ==> f in Elems(h.blocks[q].frames);
    }
  }
}
