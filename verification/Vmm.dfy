/** Ranges of pages (kernel/src/mm/vmm.c): the search for unmapped pages, the allocation that backs
    them with frames, and the release. */
module Vmm {
  import opened Memory
  import opened PageTable
  import AddressSpaces
  import Pmm

  const PHYSICAL_MEMORY: nat := AddressSpaces.PHYSICAL_MEMORY
  const MMIO_REGION: nat := AddressSpaces.MMIO_REGION

  // ----- Translation -----

  /** `vmm_get_physical` */
  function GetPhysical(vm: Vm, v: nat): Option<nat> {
    if PHYSICAL_MEMORY <= v < MMIO_REGION then Some(v - PHYSICAL_MEMORY)
    else
      var e := GetPage(vm.mem, vm.cr3, v);
      if Present(e) then Some(FrameOf(e) * 4096 + v % 4096) else None
  }

  predicate Unmapped(vm: Vm, v: nat) {
    GetPhysical(vm, v).None?
  }

  function Page(ptr: nat, i: nat): nat {
    ptr + i * 4096
  }

  // ----- Searching -----

  /** The loop guard of `vmm_find`. */
  predicate Guard(ptr: nat, count: nat) {
    ptr + count * 4096 < PHYSICAL_MEMORY || ptr >= MMIO_REGION
  }

  /** What the inner loop checks before it returns `ptr`; it looks at one page even for `count == 0`. */
  predicate FitsAt(vm: Vm, ptr: nat, count: nat) {
    forall i :: 0 <= i < (if count == 0 then 1 else count) ==> Unmapped(vm, Page(ptr, i))
  }

  /** `vmm_find`. `None` is NULL; past the top of the address space the search is not modelled. */
  function FirstFit(vm: Vm, ptr: nat, count: nat): Option<nat>
    decreases WORD_LIMIT - ptr
  {
    if ptr >= WORD_LIMIT || !Guard(ptr, count) then None
    else if FitsAt(vm, ptr, count) then Some(ptr)
    else FirstFit(vm, ptr + 4096, count)
  }

  /** First fit: the result is a page step above the start, it fits, and nothing below it does. */
  lemma {:induction false} FirstFitSmallest(vm: Vm, start: nat, count: nat)
    requires FirstFit(vm, start, count).Some?
    ensures var p := FirstFit(vm, start, count).value;
            && p >= start && (p - start) % 4096 == 0 && p < WORD_LIMIT
            && Guard(p, count) && FitsAt(vm, p, count)
            && forall q: nat :: start <= q < p && (q - start) % 4096 == 0 ==> !FitsAt(vm, q, count)
    decreases WORD_LIMIT - start
  {
    hide FitsAt, Guard;
    if !FitsAt(vm, start, count) {
      FirstFitSmallest(vm, start + 4096, count);
    }
  }

  /** The search fails only if its guard stops it before any place that fits; from the MMIO region up
      the guard never does. */
  lemma {:induction false} FirstFitComplete(vm: Vm, start: nat, count: nat, q: nat)
    requires start <= q < WORD_LIMIT && (q - start) % 4096 == 0 && FitsAt(vm, q, count)
    requires start >= MMIO_REGION || q + count * 4096 < PHYSICAL_MEMORY
    ensures FirstFit(vm, start, count).Some? && FirstFit(vm, start, count).value <= q
    decreases WORD_LIMIT - start
  {
    hide FitsAt;
    if !FitsAt(vm, start, count) {
      FirstFitComplete(vm, start + 4096, count, q);
    }
  }

  /** No page of the range is translated; for an empty range the first one is looked at all the same. */
  predicate Free(vm: Vm, q: nat, count: nat) {
    forall i :: 0 <= i < (if count > 0 then count else 1) ==> GetPhysical(vm, q + i * 4096).None?
  }

  /** When there is a place at all: below the physical window only if the range ends before it, and from the device
      region up whenever there is one. */
  lemma FirstFitIff(vm: Vm, start: nat, count: nat)
    ensures FirstFit(vm, start, count).Some? <==>
            exists q: nat :: start <= q < WORD_LIMIT && (q - start) % 4096 == 0 && Free(vm, q, count)
                        && (q + count * 4096 < 0xFFFF_8000_0000_0000 || start >= 0xFFFF_8080_0000_0000)
  {
    hide GetPhysical;
    if FirstFit(vm, start, count).Some? {
      FirstFitSmallest(vm, start, count);
      var p := FirstFit(vm, start, count).value;
      FreeFits(vm, p, count);
      if start < MMIO_REGION {
        FirstFitSide(vm, start, count);
      }
      assert Free(vm, p, count);
    }
    if q: nat :| start <= q < WORD_LIMIT && (q - start) % 4096 == 0 && Free(vm, q, count)
                 && (q + count * 4096 < 0xFFFF_8000_0000_0000 || start >= 0xFFFF_8080_0000_0000)
    {
      FreeFits(vm, q, count);
      FirstFitComplete(vm, start, count, q);
    }
  }

  lemma FreeFits(vm: Vm, q: nat, count: nat)
    ensures Free(vm, q, count) <==> FitsAt(vm, q, count)
  {
    hide GetPhysical;
    forall i: nat ensures Unmapped(vm, Page(q, i)) <==> GetPhysical(vm, q + i * 4096).None? {
    }
    if FitsAt(vm, q, count) {
      forall i | 0 <= i < (if count > 0 then count else 1) ensures GetPhysical(vm, q + i * 4096).None? {
        assert Unmapped(vm, Page(q, i));
      }
    }
  }

  /** A search that starts below the device region stays below the window. */
  lemma {:induction false} FirstFitSide(vm: Vm, start: nat, count: nat)
    requires FirstFit(vm, start, count).Some? && start < MMIO_REGION
    ensures FirstFit(vm, start, count).value + count * 4096 < PHYSICAL_MEMORY
    decreases WORD_LIMIT - start
  {
    hide FitsAt;
    if !FitsAt(vm, start, count) {
      FirstFitSide(vm, start + 4096, count);
    }
  }

  // ----- Backing a range with frames -----

  /** `Stuck` is the endless loop or the fault in `vmm_map_page`; `Null` is the early return, which leaves the
      pages mapped so far in place and the frame mutex held. */
  datatype RangeResult = Backed(vm: Vm, frames: seq<nat>) | Null(vm: Vm) | Stuck

  lemma {:induction false} DescendHighest(vm: Vm, f: nat, level: nat, v: nat)
    requires vm.frames.highest >= Pmm.PAGE && 1 <= level <= 4
    ensures var r := Descend(vm, f, level, v); r.Some? ==> r.value.0.frames.highest == vm.frames.highest
    decreases level
  {
    if level > 1 {
      EnsureTableHighest(vm, f, Slot(v, level));
      var r := EnsureTable(vm, f, Slot(v, level));
      if r.Some? {
        DescendHighest(r.value.0, r.value.1, level - 1, v);
      }
    }
  }

  /** The loop of `vmm_alloc`, after `n` rounds. */
  function BackRange(vm: Vm, ptr: nat, n: nat, flags: nat): (r: RangeResult)
    requires vm.frames.highest >= Pmm.PAGE
    ensures r.Backed? ==> r.vm.frames.highest == vm.frames.highest && |r.frames| == n
  {
    if n == 0 then Backed(vm, [])
    else
      var r := BackRange(vm, ptr, n - 1, flags);
      if !r.Backed? then r
      else
        var (fr, a) := Pmm.Alloc(r.vm.frames);
        match a
        case None => Null(r.vm.(frames := fr))
        case Some(p) =>
          var vm1 := r.vm.(frames := fr);
          DescendHighest(vm1, vm1.cr3, 4, Page(ptr, n - 1));
          match MapPage(vm1, Page(ptr, n - 1), p * 4096, flags)
          case None => Stuck
          case Some(vm2) => Backed(vm2, r.frames + [p])
  }

  /** `vmm_alloc` */
  function Alloc(vm: Vm, start: nat, count: nat, flags: nat): (RangeResult, nat)
    requires vm.frames.highest >= Pmm.PAGE
  {
    if vm.frames.total - vm.frames.used <= count then (Null(vm), 0)
    else
      match FirstFit(vm, start, count)
      case None => (Null(vm), 0)
      case Some(p) => if p == 0 then (Null(vm), 0) else (BackRange(vm, p, count, flags), p)
  }

  // ----- Releasing a range -----

  /** The loop of `vmm_free`, after `n` rounds. */
  function FreeRange(vm: Vm, ptr: nat, n: nat): (r: Option<Vm>)
    requires vm.frames.highest >= Pmm.PAGE
    ensures r.Some? ==> r.value.frames.highest == vm.frames.highest
  {
    if n == 0 then Some(vm)
    else
      var r := FreeRange(vm, ptr, n - 1);
      if r.None? then r
      else
        match GetPhysical(r.value, Page(ptr, n - 1))
        case None => r
        case Some(phys) =>
          var vm1 := r.value.(frames := Pmm.MarkFree(r.value.frames, FrameOf(phys)));
          DescendHighest(vm1, vm1.cr3, 4, Page(ptr, n - 1));
          MapPage(vm1, Page(ptr, n - 1), 0, 0)
  }

  // ----- Proof: allocation -----

  /** `ptr .. ptr + n` pages lie in the current address space, do not wrap round the 48-bit space and
      meet no large page. */
  ghost predicate Reserved(vm: Vm, t: Layout, ptr: nat, n: nat) {
    && Low48(ptr) + n * 4096 <= 0x1_0000_0000_0000
    && forall i :: 0 <= i < n ==> Covers(t, vm.cr3, Page(ptr, i)) && LargeFree(vm.mem, vm.cr3, 4, Page(ptr, i))
  }

  predicate InRange(x: nat, ptr: nat, n: nat) {
    PageNumber(ptr) <= PageNumber(x) < PageNumber(ptr) + n
  }

  lemma PageNumbers(ptr: nat, n: nat, i: nat)
    requires Low48(ptr) + n * 4096 <= 0x1_0000_0000_0000 && i < n
    ensures PageNumber(Page(ptr, i)) == PageNumber(ptr) + i
    ensures InRange(Page(ptr, i), ptr, n) && !InRange(Page(ptr, i), ptr, i)
  {
    assert Low48(Page(ptr, i)) == Low48(ptr) + i * 4096;
  }

  /** The layout after `n` rounds of `BackRange`. */
  ghost function BackedLayout(vm: Vm, t: Layout, ptr: nat, n: nat, flags: nat): Layout
    requires vm.frames.highest >= Pmm.PAGE
  {
    if n == 0 then t
    else
      var r := BackRange(vm, ptr, n - 1, flags);
      var t1 := BackedLayout(vm, t, ptr, n - 1, flags);
      if !r.Backed? then t1
      else
        var (fr, a) := Pmm.Alloc(r.vm.frames);
        if a.None? then t1 else Descended(r.vm.(frames := fr), t1, r.vm.cr3, 4, Page(ptr, n - 1))
  }

  /** `ps` are `n` distinct frames that were free and now back the pages from `ptr` up, in order;
      every other page of every address space is as before; besides them only table frames were
      taken, at most three a page; bytes outside the tables were not touched. */
  ghost predicate RangeBacked(vm: Vm, t: Layout, vm': Vm, t': Layout, ptr: nat, n: nat, flags: nat, ps: seq<nat>) {
    && Inv(vm', t') && vm'.cr3 == vm.cr3 && t'.spaces == t.spaces
    && |ps| == n
    && (forall i :: 0 <= i < n ==> ps[i] in vm.frames.free && ps[i] !in vm'.frames.free && ps[i] !in t'.roles)
    && (forall i, j :: 0 <= i < j < n ==> ps[i] != ps[j])
    && (forall i :: 0 <= i < n ==> GetPage(vm'.mem, vm.cr3, Page(ptr, i)) == ps[i] * 4096 + flags)
    && (forall r, x: nat :: Covers(t, r, x) && !InRange(x, ptr, n) ==> GetPage(vm'.mem, r, x) == GetPage(vm.mem, r, x))
    && (forall r, x: nat :: Covers(t, r, x) ==> LargeFree(vm'.mem, r, 4, x) == LargeFree(vm.mem, r, 4, x))
    && vm'.frames.free <= vm.frames.free
    && vm'.frames == vm.frames.(free := vm'.frames.free, used := vm.frames.used + |vm.frames.free| - |vm'.frames.free|)
    && n <= |vm.frames.free| - |vm'.frames.free| <= 4 * n
    && Extends(t, t')
    && (forall f :: f in t'.roles && f !in t.roles ==> f in vm.frames.free && f !in vm'.frames.free)
    && (forall f :: f in vm.frames.free && f !in vm'.frames.free ==> f in t'.roles || f in ps)
    && (forall x: nat :: x / 4096 !in t'.roles ==> Rd8(vm'.mem, x) == Rd8(vm.mem, x))
  }

  lemma TakeFrame(vm: Vm, t: Layout)
    requires Inv(vm, t) && Pmm.Alloc(vm.frames).1.Some?
    ensures var (fr, a) := Pmm.Alloc(vm.frames);
            && Inv(vm.(frames := fr), t) && a.value in vm.frames.free && a.value !in t.roles
            && fr == vm.frames.(free := vm.frames.free - {a.value}, used := vm.frames.used + 1)
            && a.value * 4096 < WORD_LIMIT
  {
    Pmm.AllocTakesLowest(vm.frames);
  }

  /** One round: a frame, then its mapping. */
  lemma BackOne(vm: Vm, t: Layout, v: nat, flags: nat)
    requires Inv(vm, t) && Covers(t, vm.cr3, v) && LargeFree(vm.mem, vm.cr3, 4, v) && flags < 4096
    requires var (fr, a) := Pmm.Alloc(vm.frames);
             a.Some? && fr.highest >= Pmm.PAGE
             && MapPage(vm.(frames := fr), v, a.value * 4096, flags).Some?
    ensures var (fr, a) := Pmm.Alloc(vm.frames);
            var vm1 := vm.(frames := fr);
            && Mapped(vm1, t, MapPage(vm1, v, a.value * 4096, flags).value, Descended(vm1, t, vm.cr3, 4, v), v,
                      a.value * 4096 + flags)
            && a.value !in Descended(vm1, t, vm.cr3, 4, v).roles
            && a.value !in MapPage(vm1, v, a.value * 4096, flags).value.frames.free
  {
    hide Slot, Walk, LargeFree, BitOr, MapPage, Descended;
    TakeFrame(vm, t);
    var (fr, a) := Pmm.Alloc(vm.frames);
    OrFlags(a.value, flags);
    MapPageRefines(vm.(frames := fr), t, v, a.value * 4096, flags);
    var t' := Descended(vm.(frames := fr), t, vm.cr3, 4, v);
    assert a.value !in t'.roles.Keys - t.roles.Keys;
  }

  lemma {:induction false} BackRangeCorrect(vm: Vm, t: Layout, ptr: nat, n: nat, flags: nat)
    requires Inv(vm, t) && Reserved(vm, t, ptr, n) && flags < 4096
    requires BackRange(vm, ptr, n, flags).Backed?
    ensures var r := BackRange(vm, ptr, n, flags);
            RangeBacked(vm, t, r.vm, BackedLayout(vm, t, ptr, n, flags), ptr, n, flags, r.frames)
  {
    hide Walk, LargeFree, MapPage, Descended, PageNumber, Low48, Slot, RangeBacked, Mapped;
    if n == 0 {
      NothingBacked(vm, t, ptr, flags);
    } else {
      var r := BackRange(vm, ptr, n - 1, flags);
      BackRangeCorrect(vm, t, ptr, n - 1, flags);
      var t1 := BackedLayout(vm, t, ptr, n - 1, flags);
      var v := Page(ptr, n - 1);
      RangeFacts(vm, t, r.vm, t1, ptr, n - 1, flags, r.frames);
      TakeFrame(r.vm, t1);
      BackOne(r.vm, t1, v, flags);
      var (fr, a) := Pmm.Alloc(r.vm.frames);
      var vm2 := r.vm.(frames := fr);
      BackRangeStep(vm, t, r.vm, t1, ptr, n - 1, flags, r.frames, a.value,
                    MapPage(vm2, v, a.value * 4096, flags).value, Descended(vm2, t1, vm2.cr3, 4, v));
    }
  }

  lemma NothingBacked(vm: Vm, t: Layout, ptr: nat, flags: nat)
    requires Inv(vm, t)
    ensures RangeBacked(vm, t, vm, t, ptr, 0, flags, [])
  {
  }

  lemma RangeFacts(vm: Vm, t: Layout, vm': Vm, t': Layout, ptr: nat, n: nat, flags: nat, ps: seq<nat>)
    requires RangeBacked(vm, t, vm', t', ptr, n, flags, ps)
    ensures Inv(vm', t') && vm'.cr3 == vm.cr3 && t'.spaces == t.spaces && vm'.frames.highest == vm.frames.highest
    ensures forall r, x: nat :: Covers(t, r, x) ==> LargeFree(vm'.mem, r, 4, x) == LargeFree(vm.mem, r, 4, x)
  {
  }

  lemma BackRangeStep(vm: Vm, t: Layout, vm1: Vm, t1: Layout, ptr: nat, n: nat, flags: nat, ps: seq<nat>,
                      p: nat, vm3: Vm, t3: Layout)
    requires RangeBacked(vm, t, vm1, t1, ptr, n, flags, ps)
    requires Low48(ptr) + (n + 1) * 4096 <= 0x1_0000_0000_0000
    requires forall i :: 0 <= i <= n ==> Covers(t, vm.cr3, Page(ptr, i))
    requires p in vm1.frames.free && p !in vm3.frames.free && p !in t3.roles
    requires var vm2 := vm1.(frames := vm1.frames.(free := vm1.frames.free - {p}, used := vm1.frames.used + 1));
             Mapped(vm2, t1, vm3, t3, Page(ptr, n), p * 4096 + flags)
    ensures RangeBacked(vm, t, vm3, t3, ptr, n + 1, flags, ps + [p])
  {
    hide Walk, LargeFree, PageNumber, Low48, Slot, Inv;
    PageNumbers(ptr, n + 1, n);
    forall i | 0 <= i < n ensures GetPage(vm3.mem, vm.cr3, Page(ptr, i)) == ps[i] * 4096 + flags {
      PageNumbers(ptr, n + 1, i);
      assert Covers(t1, vm.cr3, Page(ptr, i));
    }
    forall r, x: nat | Covers(t, r, x) && !InRange(x, ptr, n + 1)
      ensures GetPage(vm3.mem, r, x) == GetPage(vm.mem, r, x)
    {
      assert Covers(t1, r, x) && !InRange(x, ptr, n);
    }
    forall f | f in t3.roles && f !in t.roles ensures f in vm.frames.free && f !in vm3.frames.free {
      assert f !in t1.roles ==> f in t3.roles.Keys - t1.roles.Keys;
    }
    forall f | f in vm.frames.free && f !in vm3.frames.free ensures f in t3.roles || f in ps + [p] {
      assert f in vm1.frames.free && f != p ==> f in t3.roles.Keys - t1.roles.Keys;
    }
    Pmm.SubsetSize(vm3.frames.free, vm1.frames.free - {p});
    forall i | 0 <= i < n ensures ps[i] !in t3.roles {
      assert ps[i] !in t3.roles.Keys - t1.roles.Keys;
    }
  }

  // ----- Proof: release -----

  lemma {:induction false} LeafExists(m: Mem, f: nat, level: nat, v: nat)
    requires 1 <= level <= 4 && LargeFree(m, f, level, v) && Walk(m, f, level, v) != 0
    ensures Leaf(m, f, level, v).Some?
    decreases level
  {
    if level > 1 {
      LeafExists(m, FrameOf(Entry(m, f, Slot(v, level))), level - 1, v);
    }
  }

  /** Where the tables exist already, mapping allocates nothing. */
  lemma {:induction false} DescendExisting(vm: Vm, t: Layout, f: nat, level: nat, v: nat)
    requires Inv(vm, t) && 1 <= level <= 4 && Leaf(vm.mem, f, level, v).Some?
    requires f in t.roles && t.roles[f] == Role(level, Prefix(v, level)) && (level == 4 ==> Covers(t, f, v))
    ensures Descend(vm, f, level, v) == Some((vm, Leaf(vm.mem, f, level, v).value))
    ensures Leaf(vm.mem, f, level, v).value < WINDOW && Descended(vm, t, f, level, v) == t
    decreases level
  {
    hide Slot, Entry, Prefix;
    if level > 1 {
      PrefixStep(v, level);
      assert Managed(t, f, Slot(v, level)) && Linked(vm.mem, t, f, Slot(v, level));
      DescendExisting(vm, t, FrameOf(Entry(vm.mem, f, Slot(v, level))), level - 1, v);
    }
  }

  /** A frame that can be given back: real, taken, and not a table. */
  ghost predicate Returnable(vm: Vm, t: Layout, p: nat) {
    0 < p < vm.frames.pages && p * Pmm.PAGE <= vm.frames.highest && p !in vm.frames.free && p !in t.roles
  }

  predicate OutsideDirectMap(v: nat) {
    !(PHYSICAL_MEMORY <= v < MMIO_REGION)
  }

  lemma PresentEntry(p: nat, flags: nat)
    requires Present(flags) && flags < 4096
    ensures Present(p * 4096 + flags) && FrameOf(p * 4096 + flags) == p && p * 4096 + flags != 0
  {
    assert p * 4096 + flags == 2 * (p * 2048) + flags;
  }

  lemma OffsetFrame(p: nat, v: nat)
    ensures FrameOf(p * 4096 + v % 4096) == p
  {
  }

  /** One round of `vmm_free`: the frame goes back and the page loses its entry; no table is made. */
  lemma FreeOne(vm: Vm, t: Layout, v: nat, p: nat, flags: nat)
    requires Inv(vm, t) && Covers(t, vm.cr3, v) && LargeFree(vm.mem, vm.cr3, 4, v) && OutsideDirectMap(v)
    requires GetPage(vm.mem, vm.cr3, v) == p * 4096 + flags && Present(flags) && flags < 4096 && Returnable(vm, t, p)
    ensures var phys := GetPhysical(vm, v);
            && phys == Some(p * 4096 + v % 4096) && FrameOf(phys.value) == p
            && var vm1 := vm.(frames := Pmm.MarkFree(vm.frames, p));
               var r := MapPage(vm1, v, 0, 0);
               && r.Some? && Mapped(vm1, t, r.value, t, v, 0) && r.value.frames == vm1.frames
  {
    hide Slot, Walk, LargeFree, Leaf, Entry, WithEntry, Descend, Descended;
    PresentEntry(p, flags);
    OffsetFrame(p, v);
    var vm1 := vm.(frames := Pmm.MarkFree(vm.frames, p));
    assert Inv(vm1, t);
    LeafExists(vm.mem, vm.cr3, 4, v);
    PrefixRoot(v);
    DescendExisting(vm1, t, vm.cr3, 4, v);
    assert BitOr(0, 0) == 0;
    MapPageRefines(vm1, t, v, 0, 0);
  }

  function Elems(ps: seq<nat>): set<nat> {
    set p | p in ps
  }

  ghost predicate Distinct(ps: seq<nat>) {
    forall i, j :: 0 <= i < j < |ps| ==> ps[i] != ps[j]
  }

  /** The pages from `ptr` up are backed by `ps`, and `ps` can be given back. */
  ghost predicate Holds(vm: Vm, t: Layout, ptr: nat, ps: seq<nat>, flags: nat) {
    && Inv(vm, t) && Reserved(vm, t, ptr, |ps|) && Distinct(ps) && Present(flags) && flags < 4096
    && forall i :: 0 <= i < |ps| ==>
         && OutsideDirectMap(Page(ptr, i)) && Returnable(vm, t, ps[i])
         && GetPage(vm.mem, vm.cr3, Page(ptr, i)) == ps[i] * 4096 + flags
  }

  /** The first `n` pages lost their entries and the first `n` frames are free again; nothing else
      changed, and no table was made. */
  ghost predicate RangeFreed(vm: Vm, t: Layout, vm': Vm, ptr: nat, n: nat, ps: seq<nat>)
    requires n <= |ps|
  {
    && Inv(vm', t) && vm'.cr3 == vm.cr3
    && (forall i :: 0 <= i < n ==> GetPage(vm'.mem, vm.cr3, Page(ptr, i)) == 0)
    && (forall r, x: nat :: Covers(t, r, x) && !InRange(x, ptr, n) ==> GetPage(vm'.mem, r, x) == GetPage(vm.mem, r, x))
    && (forall r, x: nat :: Covers(t, r, x) ==> LargeFree(vm'.mem, r, 4, x) == LargeFree(vm.mem, r, 4, x))
    && vm'.frames == vm.frames.(free := vm.frames.free + Elems(ps[..n]), used := vm.frames.used - n)
    && (forall x: nat :: x / 4096 !in t.roles ==> Rd8(vm'.mem, x) == Rd8(vm.mem, x))
  }

  lemma NothingFreed(vm: Vm, t: Layout, ptr: nat, ps: seq<nat>)
    requires Inv(vm, t)
    ensures RangeFreed(vm, t, vm, ptr, 0, ps)
  {
    assert Elems(ps[..0]) == {};
    assert vm.frames.free + {} == vm.frames.free;
  }

  lemma FreeStep(vm: Vm, t: Layout, vm1: Vm, vm2: Vm, ptr: nat, n: nat, ps: seq<nat>, flags: nat)
    requires Holds(vm, t, ptr, ps, flags) && n < |ps| && RangeFreed(vm, t, vm1, ptr, n, ps)
    requires Mapped(vm1.(frames := Pmm.MarkFree(vm1.frames, ps[n])), t, vm2, t, Page(ptr, n), 0)
    requires vm2.frames == Pmm.MarkFree(vm1.frames, ps[n])
    ensures RangeFreed(vm, t, vm2, ptr, n + 1, ps)
  {
    hide Walk, LargeFree, PageNumber, Low48, Slot, Inv, Elems, Pmm.MarkFree;
    PageNumbers(ptr, |ps|, n);
    forall i | 0 <= i < n ensures GetPage(vm2.mem, vm.cr3, Page(ptr, i)) == 0 {
      PageNumbers(ptr, |ps|, i);
      assert Covers(t, vm.cr3, Page(ptr, i));
    }
    forall r, x: nat | Covers(t, r, x) && !InRange(x, ptr, n + 1)
      ensures GetPage(vm2.mem, r, x) == GetPage(vm.mem, r, x)
    {
      assert !InRange(x, ptr, n);
    }
    FreeStepFrames(vm.frames, n, ps);
  }

  lemma FreeStepFrames(fr: Pmm.Frames, n: nat, ps: seq<nat>)
    requires n < |ps| && Distinct(ps) && ps[n] !in fr.free
    ensures Pmm.MarkFree(fr.(free := fr.free + Elems(ps[..n]), used := fr.used - n), ps[n])
            == fr.(free := fr.free + Elems(ps[..n + 1]), used := fr.used - (n + 1))
  {
    assert ps[..n + 1] == ps[..n] + [ps[n]];
    assert Elems(ps[..n + 1]) == Elems(ps[..n]) + {ps[n]};
    assert ps[n] !in Elems(ps[..n]);
    assert fr.free + Elems(ps[..n]) + {ps[n]} == fr.free + Elems(ps[..n + 1]);
  }

  lemma StillHeld(vm: Vm, t: Layout, vm1: Vm, ptr: nat, n: nat, ps: seq<nat>, flags: nat)
    requires Holds(vm, t, ptr, ps, flags) && n < |ps| && RangeFreed(vm, t, vm1, ptr, n, ps)
    ensures var v := Page(ptr, n);
            && Inv(vm1, t) && Covers(t, vm1.cr3, v) && LargeFree(vm1.mem, vm1.cr3, 4, v) && OutsideDirectMap(v)
            && GetPage(vm1.mem, vm1.cr3, v) == ps[n] * 4096 + flags && Returnable(vm1, t, ps[n])
  {
    hide Walk, LargeFree, PageNumber, Low48, Slot, Inv;
    PageNumbers(ptr, |ps|, n);
    assert ps[n] !in Elems(ps[..n]);
  }

  /** `vmm_free` of a backed range always succeeds and gives back exactly its frames. */
  lemma {:induction false} FreeRangeCorrect(vm: Vm, t: Layout, ptr: nat, n: nat, ps: seq<nat>, flags: nat)
    requires Holds(vm, t, ptr, ps, flags) && n <= |ps| && vm.frames.highest >= Pmm.PAGE
    ensures FreeRange(vm, ptr, n).Some? && RangeFreed(vm, t, FreeRange(vm, ptr, n).value, ptr, n, ps)
    decreases n
  {
    hide Walk, LargeFree, PageNumber, Low48, Slot, MapPage, Mapped, RangeFreed, Holds, GetPhysical;
    HoldsFacts(vm, t, ptr, ps, flags);
    if n == 0 {
      NothingFreed(vm, t, ptr, ps);
    } else {
      FreeRangeCorrect(vm, t, ptr, n - 1, ps, flags);
      var vm1 := FreeRange(vm, ptr, n - 1).value;
      StillHeld(vm, t, vm1, ptr, n - 1, ps, flags);
      FreeOne(vm1, t, Page(ptr, n - 1), ps[n - 1], flags);
      FreeStep(vm, t, vm1, FreeRange(vm, ptr, n).value, ptr, n - 1, ps, flags);
    }
  }

  lemma HoldsFacts(vm: Vm, t: Layout, ptr: nat, ps: seq<nat>, flags: nat)
    requires Holds(vm, t, ptr, ps, flags)
    ensures Inv(vm, t) && Present(flags) && flags < 4096
  {
  }

  // ----- Theorem: frame conservation -----

  /** What `vmm_alloc` backs can be given back. */
  lemma BackedHolds(vm: Vm, t: Layout, ptr: nat, n: nat, flags: nat)
    requires Inv(vm, t) && Reserved(vm, t, ptr, n) && flags < 4096 && Present(flags)
             && BackRange(vm, ptr, n, flags).Backed?
    requires forall i :: 0 <= i < n ==> OutsideDirectMap(Page(ptr, i))
    ensures var r := BackRange(vm, ptr, n, flags);
            var t' := BackedLayout(vm, t, ptr, n, flags);
            RangeBacked(vm, t, r.vm, t', ptr, n, flags, r.frames) && Holds(r.vm, t', ptr, r.frames, flags)
  {
    hide Walk, LargeFree, PageNumber, Low48, Slot, BackRange, BackedLayout;
    BackRangeCorrect(vm, t, ptr, n, flags);
    var r := BackRange(vm, ptr, n, flags);
    forall i | 0 <= i < n ensures r.frames[i] > 0 && r.frames[i] < r.vm.frames.pages
        && r.frames[i] * Pmm.PAGE <= r.vm.frames.highest {
      assert r.frames[i] in vm.frames.free;
    }
  }

  /** A successful `vmm_alloc` takes unmapped pages; the matching `vmm_free` puts every translation's
      presence back, and the frames that stay taken are exactly the tables made, at most three a page. */
  lemma AllocFreeConserves(vm: Vm, t: Layout, start: nat, count: nat, flags: nat)
    requires Inv(vm, t) && flags < 4096 && Present(flags)
    requires var (r, ptr) := Alloc(vm, start, count, flags); r.Backed? && Reserved(vm, t, ptr, count)
    ensures var (r, ptr) := Alloc(vm, start, count, flags);
            var t' := BackedLayout(vm, t, ptr, count, flags);
            var done := FreeRange(r.vm, ptr, count);
            && RangeBacked(vm, t, r.vm, t', ptr, count, flags, r.frames)
            && (forall i :: 0 <= i < count ==> !Present(GetPage(vm.mem, vm.cr3, Page(ptr, i))))
            && done.Some?
            && (forall x: nat :: Covers(t, vm.cr3, x) ==>
                  Present(GetPage(done.value.mem, vm.cr3, x)) == Present(GetPage(vm.mem, vm.cr3, x)))
            && vm.frames.free - done.value.frames.free == t'.roles.Keys - t.roles.Keys
            && |t'.roles.Keys - t.roles.Keys| <= 3 * count
            && done.value.frames.used == vm.frames.used + |t'.roles.Keys - t.roles.Keys|
  {
    hide Walk, LargeFree, Slot, BackRange, BackedLayout, FreeRange, FirstFit, Present;
    var (r, ptr) := Alloc(vm, start, count, flags);
    FirstFitSmallest(vm, start, count);
    forall i | 0 <= i < count ensures !Present(GetPage(vm.mem, vm.cr3, Page(ptr, i)))
        && OutsideDirectMap(Page(ptr, i)) {
      assert Unmapped(vm, Page(ptr, i));
    }
    BackedHolds(vm, t, ptr, count, flags);
    var t' := BackedLayout(vm, t, ptr, count, flags);
    FreeRangeCorrect(r.vm, t', ptr, count, r.frames, flags);
    var vm' := FreeRange(r.vm, ptr, count).value;
    assert r.frames[..count] == r.frames;
    hide RangeBacked, RangeFreed, Holds;
    forall x: nat | Covers(t, vm.cr3, x)
      ensures Present(GetPage(vm'.mem, vm.cr3, x)) == Present(GetPage(vm.mem, vm.cr3, x))
    {
      PresenceRestored(vm, t, r.vm, t', ptr, count, flags, r.frames, vm', x);
    }
    ConservedFrames(vm, t, r.vm, t', ptr, count, flags, r.frames, vm');
  }

  lemma {:induction false} SameWalkFrom(m: Mem, f: nat, level: nat, x: nat, y: nat)
    requires 1 <= level <= 4 && forall k :: 1 <= k <= 4 ==> Slot(x, k) == Slot(y, k)
    ensures Walk(m, f, level, x) == Walk(m, f, level, y)
    decreases level
  {
    hide Entry, Slot;
    if level > 1 {
      SameWalkFrom(m, FrameOf(Entry(m, f, Slot(x, level))), level - 1, x, y);
    }
  }

  /** The walk depends on the page number only. */
  lemma SameWalk(m: Mem, root: nat, x: nat, y: nat)
    requires PageNumber(x) == PageNumber(y)
    ensures GetPage(m, root, x) == GetPage(m, root, y)
  {
    SamePage(x, y);
    SameWalkFrom(m, root, 4, x, y);
  }

  lemma PresenceRestored(vm: Vm, t: Layout, vm1: Vm, t1: Layout, ptr: nat, n: nat, flags: nat, ps: seq<nat>, vm2: Vm,
                         x: nat)
    requires RangeBacked(vm, t, vm1, t1, ptr, n, flags, ps) && RangeFreed(vm1, t1, vm2, ptr, n, ps)
             && Covers(t, vm.cr3, x)
    requires Low48(ptr) + n * 4096 <= 0x1_0000_0000_0000
    requires forall i :: 0 <= i < n ==> !Present(GetPage(vm.mem, vm.cr3, Page(ptr, i)))
    ensures Present(GetPage(vm2.mem, vm.cr3, x)) == Present(GetPage(vm.mem, vm.cr3, x))
  {
    hide Walk, LargeFree, Slot, Low48, PageNumber, Present, Inv;
    assert Covers(t1, vm.cr3, x);
    if InRange(x, ptr, n) {
      var i := PageNumber(x) - PageNumber(ptr);
      PageNumbers(ptr, n, i);
      SameWalk(vm.mem, vm.cr3, x, Page(ptr, i));
      SameWalk(vm2.mem, vm.cr3, x, Page(ptr, i));
      ZeroEntry();
    }
  }

  lemma ElemsSize(ps: seq<nat>)
    requires Distinct(ps)
    ensures |Elems(ps)| == |ps|
  {
    if ps != [] {
      var init, last := ps[..|ps| - 1], ps[|ps| - 1];
      ElemsSize(init);
      assert Elems(ps) == Elems(init) + {last};
      assert last !in Elems(init);
    }
  }

  lemma ConservedFrames(vm: Vm, t: Layout, vm1: Vm, t1: Layout, ptr: nat, n: nat, flags: nat, ps: seq<nat>, vm2: Vm)
    requires Inv(vm, t) && RangeBacked(vm, t, vm1, t1, ptr, n, flags, ps) && RangeFreed(vm1, t1, vm2, ptr, n, ps)
    ensures var made := t1.roles.Keys - t.roles.Keys;
            && vm.frames.free - vm2.frames.free == made && |made| <= 3 * n
            && vm2.frames.used == vm.frames.used + |made|
  {
    hide Walk, LargeFree, Covers, InRange, Elems;
    var made := t1.roles.Keys - t.roles.Keys;
    assert ps[..n] == ps;
    ElemsSize(ps);
    assert forall f :: f in Elems(ps) ==> f in ps by { ElemsIn(ps); }
    assert forall f :: f in ps ==> f in Elems(ps) by { ElemsIn(ps); }
    forall f | f in made ensures f in vm.frames.free && f !in vm1.frames.free && f !in Elems(ps) {
    }
    SplitSizes(vm.frames.free, vm1.frames.free, Elems(ps), made);
  }

  lemma ElemsIn(ps: seq<nat>)
    ensures forall f :: f in Elems(ps) <==> f in ps
  {
  }

  lemma SplitSizes(before: set<nat>, after: set<nat>, ps: set<nat>, made: set<nat>)
    requires after <= before && ps <= before && made <= before
    requires after !! ps && after !! made && ps !! made
    requires forall f :: f in before && f !in after ==> f in ps || f in made
    ensures before - (after + ps) == made
    ensures |before| == |after| + |ps| + |made|
  {
    assert before == after + ps + made;
  }
}
