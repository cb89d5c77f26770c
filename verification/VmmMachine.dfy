/** The virtual memory manager as the kernel runs it: entries written in place, loops over page
    counts, the restarting search. Each method is tied to its form in `PageTable` or `Vmm`. */
module VmmMachine {
  import opened Memory
  import opened PageTable
  import opened Vmm
  import Pmm
  import PmmBitmap

  class Machine {
    const pmm: PmmBitmap.Bitmap
    var mem: Mem
    var cr3: nat
    var locked: bool   // vmm_mutex

    constructor (pmm: PmmBitmap.Bitmap, mem: Mem, cr3: nat)
      ensures this.pmm == pmm && View() == Vm(mem, pmm.View(), cr3) && !locked
    {
      this.pmm, this.mem, this.cr3, locked := pmm, mem, cr3, false;
    }

    ghost function View(): Vm
      reads this, pmm, pmm.bitmap
    {
      Vm(mem, pmm.View(), cr3)
    }

    /** The frame allocator can be called: its mutex is free and its bitmap reaches the top. */
    ghost predicate Ready()
      reads this, pmm, pmm.bitmap
    {
      !pmm.locked && pmm.size <= pmm.bitmap.Length && Pmm.PAGE <= pmm.highest <= Pmm.PAGE * 8 * pmm.size
    }

    /** `vmm_get_page` */
    method GetPageEntry(v: nat) returns (e: nat)
      ensures e == GetPage(mem, cr3, v)
    {
      hide Slot, Entry;
      var pdptPtr := Entry(mem, cr3, Slot(v, 4));
      if !Present(pdptPtr) {
        return 0;
      }
      if Large(pdptPtr) {
        return pdptPtr;
      }
      var pdPtr := Entry(mem, FrameOf(pdptPtr), Slot(v, 3));
      if !Present(pdPtr) {
        return 0;
      }
      if Large(pdPtr) {
        return pdPtr;
      }
      var ptPtr := Entry(mem, FrameOf(pdPtr), Slot(v, 2));
      if !Present(ptPtr) {
        return 0;
      }
      if Large(ptPtr) {
        return ptPtr;
      }
      e := Entry(mem, FrameOf(ptPtr), Slot(v, 1));
      assert e == Walk(mem, FrameOf(ptPtr), 1, v);
      assert e == Walk(mem, FrameOf(pdPtr), 2, v);
      assert e == Walk(mem, FrameOf(pdptPtr), 3, v);
    }

    /** `vmm_get_physical` */
    method PhysicalOf(v: nat) returns (found: bool, destination: nat)
      ensures found <==> GetPhysical(View(), v).Some?
      ensures found ==> destination == GetPhysical(View(), v).value
    {
      if PHYSICAL_MEMORY <= v < MMIO_REGION {
        return true, v - PHYSICAL_MEMORY;
      }
      var phys := GetPageEntry(v);
      if Present(phys) {
        return true, FrameOf(phys) * 4096 + v % 4096;
      }
      return false, 0;
    }

    /** One of the three table steps of `vmm_map_page`; `ok` is false where the kernel stops. */
    method EnsureTableAt(f: nat, i: nat) returns (ok: bool, table: nat)
      requires Ready()
      modifies this`mem, pmm`used, pmm`locked, pmm.bitmap
      ensures ok <==> EnsureTable(old(View()), f, i).Some?
      ensures ok ==> EnsureTable(old(View()), f, i).value == (View(), table) && Ready()
    {
      hide Entry, WithEntry, Cleared, BitOr, Pmm.FindFrom, PmmBitmap.FreeBits;
      if f >= WINDOW {
        return false, 0;
      }
      var e := Entry(mem, f, i);
      if Present(e) {
        return true, FrameOf(e);
      }
      var page := pmm.AllocPage();
      if page == 0 {
        assert Pmm.Alloc(old(pmm.View())).1.None? by { PageZeroIsNull(old(pmm.View())); }
        return false, 0;
      }
      mem := WithEntry(mem, f, i, BitOr(page, TABLE_FLAGS));
      if page / 4096 >= WINDOW {
        return false, 0;
      }
      mem := Cleared(mem, page / 4096);
      return true, page / 4096;
    }

    /** `vmm_map_page` */
    method MapPageAt(v: nat, physical: nat, flags: nat) returns (ok: bool)
      requires Ready()
      modifies this`mem, pmm`used, pmm`locked, pmm.bitmap
      ensures ok <==> MapPage(old(View()), v, physical, flags).Some?
      ensures ok ==> MapPage(old(View()), v, physical, flags).value == View() && Ready()
    {
      hide Entry, WithEntry, BitOr, Slot, EnsureTable, PmmBitmap.FreeBits;
      ghost var vm0 := View();
      var pdpt, pd, pt;
      ok, pdpt := EnsureTableAt(cr3, Slot(v, 4));
      if !ok {
        return;
      }
      ghost var vm1 := View();
      ok, pd := EnsureTableAt(pdpt, Slot(v, 3));
      if !ok {
        assert Descend(vm1, pdpt, 3, v).None?;
        return;
      }
      ghost var vm2 := View();
      ok, pt := EnsureTableAt(pd, Slot(v, 2));
      if !ok {
        assert Descend(vm2, pd, 2, v).None?;
        assert Descend(vm1, pdpt, 3, v).None?;
        return;
      }
      ghost var vm3 := View();
      assert Descend(vm3, pt, 1, v) == Some((vm3, pt));
      assert Descend(vm2, pd, 2, v) == Some((vm3, pt));
      assert Descend(vm1, pdpt, 3, v) == Some((vm3, pt));
      assert Descend(vm0, vm0.cr3, 4, v) == Some((vm3, pt));
      if pt >= WINDOW {
        return false;
      }
      mem := WithEntry(mem, pt, Slot(v, 1), BitOr(physical, flags));
    }

    /** `vmm_find`, with its restart; 0 is NULL. Beyond MMIO_REGION the source searches without end,
        so a place that fits must exist. */
    method Find(start: nat, count: nat) returns (r: nat)
      requires start < WORD_LIMIT && (start >= MMIO_REGION ==> FirstFit(View(), start, count).Some?)
      ensures r == match FirstFit(View(), start, count) case Some(p) => p case None => 0
    {
      hide GetPhysical;
      var ptr, i := start, 0;
      while ptr + count * 4096 < PHYSICAL_MEMORY || ptr >= MMIO_REGION
        invariant start <= ptr && (ptr >= MMIO_REGION ==> FirstFit(View(), ptr, count).Some?)
        invariant ptr < WORD_LIMIT && FirstFit(View(), start, count) == FirstFit(View(), ptr, count)
        invariant i == 0 || i < count
        invariant forall j :: 0 <= j < i ==> Unmapped(View(), Page(ptr, j))
        decreases WORD_LIMIT - ptr, count - i
      {
        var found, dummy := PhysicalOf(ptr + i * 4096);
        if !found {
          assert Unmapped(View(), Page(ptr, i));
          i := i + 1;
          if i >= count {
            assert FitsAt(View(), ptr, count);
            return ptr;
          }
        } else {
          assert !Unmapped(View(), Page(ptr, i));
          assert !FitsAt(View(), ptr, count);
          FitBelowTop(View(), ptr, count);
          ptr := ptr + 4096;
          i := 0;
        }
      }
      return 0;
    }

    /** `vmm_alloc`; `ok` is false where the kernel stops, and 0 is NULL. */
    method AllocRange(start: nat, count: nat, flags: nat) returns (ok: bool, ptr: nat)
      requires Ready() && !locked && start < WORD_LIMIT
      requires start >= MMIO_REGION ==> FirstFit(View(), start, count).Some?
      modifies this`mem, this`locked, pmm`used, pmm`locked, pmm.bitmap
      ensures ok <==> !Alloc(old(View()), start, count, flags).0.Stuck?
      ensures ok ==> Alloc(old(View()), start, count, flags).0.vm == View() && !locked
      ensures ok && ptr != 0 ==>
                Alloc(old(View()), start, count, flags).0.Backed?
                && Alloc(old(View()), start, count, flags).1 == ptr && Ready()
      ensures ok && ptr == 0 ==> Alloc(old(View()), start, count, flags).0.Null?
    {
      hide MapPage, Pmm.FindFrom, FirstFit, PmmBitmap.FreeBits;
      if pmm.total - pmm.used <= count {
        return true, 0;
      }
      ptr := Find(start, count);
      if ptr == 0 {
        return true, 0;
      }
      locked := true;
      ghost var vm0 := View();
      ghost var frames: seq<nat> := [];
      var i := 0;
      while i < count
        invariant 0 <= i <= count && Ready() && locked && pmm.bitmap == old(pmm.bitmap)
        invariant BackRange(vm0, ptr, i, flags) == Backed(View(), frames)
      {
        ghost var before := View();
        var phys := pmm.AllocPage();
        assert phys == 0 ==> Pmm.Alloc(before.frames).1.None? by { PageZeroIsNull(before.frames); }
        if phys == 0 {
          assert BackRange(vm0, ptr, i + 1, flags) == Null(View());
          NullStays(vm0, ptr, i + 1, count, flags);
          locked := false;
          return true, 0;
        }
        ok := MapPageAt(ptr + i * 4096, phys, flags);
        if !ok {
          assert BackRange(vm0, ptr, i + 1, flags) == Stuck;
          NullStays(vm0, ptr, i + 1, count, flags);
          return false, 0;
        }
        frames := frames + [phys / 4096];
        i := i + 1;
      }
      locked := false;
      ok := true;
    }

    /** `vmm_free`; the frames that the range maps must have bits in the bitmap. */
    method FreePages(v: nat, count: nat) returns (ok: bool)
      requires Ready() && !locked
      requires forall i :: 0 <= i < count ==> InBitmap(View(), v, i)
      modifies this`mem, this`locked, pmm`used, pmm`locked, pmm.bitmap
      ensures ok <==> FreeRange(old(View()), v, count).Some?
      ensures ok ==> FreeRange(old(View()), v, count).value == View() && !locked && Ready()
    {
      hide MapPage, GetPhysical, Pmm.MarkFree, PmmBitmap.FreeBits;
      locked := true;
      ghost var vm0 := View();
      assert old(View()) == vm0;
      var i := 0;
      while i < count
        invariant 0 <= i <= count && Ready() && locked && pmm.bitmap == old(pmm.bitmap)
        invariant FreeRange(vm0, v, i) == Some(View())
      {
        assert InBitmap(vm0, v, i);
        var found, phys := PhysicalOf(v + i * 4096);
        if found {
          pmm.FreePage(phys);
          ok := MapPageAt(v + i * 4096, 0, 0);
          if !ok {
            assert FreeRange(vm0, v, i + 1).None?;
            FreeFailStays(vm0, v, i + 1, count);
            return;
          }
        }
        i := i + 1;
      }
      locked := false;
      ok := true;
    }
  }

  /** If page `i` of the range is still mapped when `vmm_free` gets there, its frame has a bit. */
  ghost predicate InBitmap(vm: Vm, v: nat, i: nat) {
    vm.frames.highest >= Pmm.PAGE &&
    var r := FreeRange(vm, v, i);
    r.Some? && GetPhysical(r.value, Page(v, i)).Some? ==>
        FrameOf(GetPhysical(r.value, Page(v, i)).value) < vm.frames.pages
  }

  lemma PageZeroIsNull(fr: Pmm.Frames)
    requires fr.highest >= Pmm.PAGE
    ensures Pmm.Alloc(fr).1.Some? ==> Pmm.Alloc(fr).1.value * Pmm.PAGE != 0
  {
  }

  lemma FitBelowTop(vm: Vm, ptr: nat, count: nat)
    requires ptr < WORD_LIMIT && Guard(ptr, count) && !FitsAt(vm, ptr, count)
    ensures FirstFit(vm, ptr, count) == FirstFit(vm, ptr + 4096, count)
    ensures FirstFit(vm, ptr + 4096, count).Some? ==> ptr + 4096 < WORD_LIMIT
    ensures ptr < MMIO_REGION ==> ptr + 4096 < MMIO_REGION
  {
  }

  lemma NullStays(vm: Vm, ptr: nat, i: nat, n: nat, flags: nat)
    requires vm.frames.highest >= Pmm.PAGE && i <= n && !BackRange(vm, ptr, i, flags).Backed?
    ensures BackRange(vm, ptr, n, flags) == BackRange(vm, ptr, i, flags)
    decreases n
  {
    if i < n {
      NullStays(vm, ptr, i, n - 1, flags);
    }
  }

  lemma FreeFailStays(vm: Vm, ptr: nat, i: nat, n: nat)
    requires vm.frames.highest >= Pmm.PAGE && i <= n && FreeRange(vm, ptr, i).None?
    ensures FreeRange(vm, ptr, n).None?
    decreases n
  {
    if i < n {
      FreeFailStays(vm, ptr, i, n - 1);
    }
  }
}
