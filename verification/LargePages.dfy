/** What `vmm_map_page` does behind a large page. It does not look at PAGE_LARGE and takes the entry of a 2 MB page for
    a pointer to a table (kernel/src/mm/vmm.c). */
module LargePages {
  import opened Memory
  import opened PageTable
  import opened AddressSpaces
  import Pmm

  /** The walk of `v` ends at a 2 MB entry. */
  predicate BehindLarge(m: Mem, f: nat, level: nat, v: nat)
    requires 2 <= level <= 4
    decreases level
  {
    var e := Entry(m, f, Slot(v, level));
    Present(e) && if level == 2 then Large(e) else !Large(e) && BehindLarge(m, FrameOf(e), level - 1, v)
  }

  /** All large entries of the tables are 2 MB entries. */
  ghost predicate OnlyTwoMegabytes(m: Mem, t: Layout) {
    forall f, i :: Managed(t, f, i) && Present(Entry(m, f, i)) && Large(Entry(m, f, i)) ==> t.roles[f].level == 2
  }

  /** Then a path either has no large entry or ends at a 2 MB entry. */
  lemma {:induction false} LargeFreeOrBehind(m: Mem, t: Layout, g: nat, level: nat, v: nat)
    requires Tree(m, t) && OnlyTwoMegabytes(m, t) && 2 <= level <= 4
    requires g in t.roles && t.roles[g] == Role(level, Prefix(v, level)) && (level == 4 ==> Covers(t, g, v))
    ensures LargeFree(m, g, level, v) <==> !BehindLarge(m, g, level, v)
    decreases level
  {
    hide Entry, Slot, Prefix, Present, Large, FrameOf;
    var s := Slot(v, level);
    PrefixStep(v, level);
    assert Managed(t, g, s) && Linked(m, t, g, s);
    var e := Entry(m, g, s);
    if Present(e) && !Large(e) && level > 2 {
      LargeFreeOrBehind(m, t, FrameOf(e), level - 1, v);
    }
  }

  /** The descent takes the large entry for a table. */
  lemma {:induction false} DescendThrough(vm: Vm, t: Layout, f: nat, level: nat, v: nat)
    requires Inv(vm, t) && 2 <= level <= 4 && BehindLarge(vm.mem, f, level, v)
    requires f in t.roles && t.roles[f] == Role(level, Prefix(v, level)) && (level == 4 ==> Covers(t, f, v))
    ensures Descend(vm, f, level, v) == Some((vm, FrameOf(Walk(vm.mem, f, level, v))))
    decreases level
  {
    hide Entry, Slot, Present, Large, FrameOf, Prefix;
    var e := Entry(vm.mem, f, Slot(v, level));
    if level > 2 {
      PrefixStep(v, level);
      assert Managed(t, f, Slot(v, level)) && Linked(vm.mem, t, f, Slot(v, level));
      DescendThrough(vm, t, FrameOf(e), level - 1, v);
    } else {
      assert Descend(vm, FrameOf(e), 1, v) == Some((vm, FrameOf(e)));
    }
  }

  /** The walk of `x` reads entry `j` of `p`. */
  predicate Reads(m: Mem, f: nat, level: nat, x: nat, p: nat, j: nat)
    requires 1 <= level <= 4
    decreases level
  {
    || (f == p && Slot(x, level) == j)
    || (level > 1 && var e := Entry(m, f, Slot(x, level));
                     Present(e) && !Large(e) && Reads(m, FrameOf(e), level - 1, x, p, j))
  }

  /** A table is read at its own level, and there is only one. */
  lemma {:induction false} ReadsRole(m: Mem, t: Layout, f: nat, level: nat, x: nat, p: nat, j: nat)
    requires Tree(m, t) && 1 <= level <= 4 && Reads(m, f, level, x, p, j)
    requires f in t.roles && t.roles[f] == Role(level, Prefix(x, level)) && (level == 4 ==> Covers(t, f, x))
    ensures p in t.roles && 1 <= t.roles[p].level <= level
    ensures t.roles[p] == Role(t.roles[p].level, Prefix(x, t.roles[p].level)) && j == Slot(x, t.roles[p].level)
    decreases level
  {
    hide Entry, Slot, Prefix, Present, Large, FrameOf;
    if !(f == p && Slot(x, level) == j) {
      PrefixStep(x, level);
      assert Managed(t, f, Slot(x, level)) && Linked(m, t, f, Slot(x, level));
      ReadsRole(m, t, FrameOf(Entry(m, f, Slot(x, level))), level - 1, x, p, j);
    }
  }

  /** Walks that do not read the word written stay, and a walk that ends there gives it. */
  lemma {:induction false} WalkAfter(m: Mem, m': Mem, t: Layout, g: nat, level: nat, x: nat, p: nat, j: nat, w: nat)
    requires Tree(m, t) && 1 <= level <= 4 && j < 512
    requires g in t.roles && t.roles[g] == Role(level, Prefix(x, level)) && (level == 4 ==> Covers(t, g, x))
    requires forall h: nat, i: nat :: i < 512 ==> Entry(m', h, i) == if h == p && i == j then w else Entry(m, h, i)
    ensures !Reads(m, g, level, x, p, j) ==> Walk(m', g, level, x) == Walk(m, g, level, x)
    ensures !Reads(m, g, level, x, p, j) ==> LargeFree(m', g, level, x) == LargeFree(m, g, level, x)
    ensures Reads(m, g, level, x, p, j) && p in t.roles && t.roles[p].level == 1 ==> Walk(m', g, level, x) == w
    decreases level
  {
    hide Entry, Slot, Prefix, Present, Large, FrameOf;
    if level > 1 {
      PrefixStep(x, level);
      assert Managed(t, g, Slot(x, level)) && Linked(m, t, g, Slot(x, level));
      var e := Entry(m, g, Slot(x, level));
      if Present(e) && !Large(e) {
        WalkAfter(m, m', t, FrameOf(e), level - 1, x, p, j, w);
      }
    }
  }

  /** The one word that the call writes lies in the first frame of the large page. */
  ghost predicate Overwritten(vm: Vm, vm': Vm, p: nat, j: nat, w: nat) {
    && vm'.frames == vm.frames && vm'.cr3 == vm.cr3
    && forall g: nat, i: nat :: i < 512 ==> Entry(vm'.mem, g, i) == if g == p && i == j then w else Entry(vm.mem, g, i)
  }

  /** No translation of any address space changes. */
  ghost predicate Swallowed(vm: Vm, t: Layout, vm': Vm, v: nat) {
    && Inv(vm', t) && SameView(vm.mem, vm'.mem, t)
    && GetPage(vm'.mem, vm.cr3, v) == GetPage(vm.mem, vm.cr3, v)
  }

  /** The frame is a table: the walks that do not read the word stay, and if it is a table of the last level, those that
      do end at the new entry. They are the walks of the one page that the table has at that place. */
  ghost predicate Misplaced(vm: Vm, t: Layout, vm': Vm, p: nat, j: nat, w: nat)
    requires p in t.roles
  {
    forall r, x: nat :: Covers(t, r, x) ==>
      if !Reads(vm.mem, r, 4, x, p, j) then GetPage(vm'.mem, r, x) == GetPage(vm.mem, r, x)
      else && 1 <= t.roles[p].level <= 4 && t.roles[p].prefix == Prefix(x, t.roles[p].level)
           && j == Slot(x, t.roles[p].level)
           && (t.roles[p].level == 1 ==> GetPage(vm'.mem, r, x) == w)
  }

  /** Behind a 2 MB page the call returns exactly if the page lies in the window; then it takes no frame and writes one
      word, in the first frame of the page. */
  lemma LargeEntrySwallows(vm: Vm, t: Layout, v: nat, phys: nat, flags: nat)
    requires Inv(vm, t) && Covers(t, vm.cr3, v) && BehindLarge(vm.mem, vm.cr3, 4, v) && phys < WORD_LIMIT
             && flags < WORD_LIMIT
    ensures var p, r := FrameOf(GetPage(vm.mem, vm.cr3, v)), MapPage(vm, v, phys, flags);
            && (r.Some? <==> p < WINDOW)
            && (r.Some? ==> Overwritten(vm, r.value, p, Slot(v, 1), BitOr(phys, flags)))
            && (r.Some? && p !in t.roles ==> Swallowed(vm, t, r.value, v))
            && (r.Some? && p in t.roles ==> Misplaced(vm, t, r.value, p, Slot(v, 1), BitOr(phys, flags)))
  {
    hide Entry, WithEntry, Slot, Prefix, BitOr, Walk, LargeFree, FrameOf, BehindLarge, Reads;
    var p, w := FrameOf(GetPage(vm.mem, vm.cr3, v)), BitOr(phys, flags);
    OrWord(phys, flags);
    PrefixRoot(v);
    DescendThrough(vm, t, vm.cr3, 4, v);
    EntryAfterWrite(vm.mem, p, Slot(v, 1), w);
    var m' := WithEntry(vm.mem, p, Slot(v, 1), w);
    if p < WINDOW {
      if p in t.roles {
        MisplacedWrite(vm, t, MapPage(vm, v, phys, flags).value, p, Slot(v, 1), w);
      } else {
        SwallowedWrite(vm, t, m', p, Slot(v, 1), w);
      }
    }
  }

  lemma SwallowedWrite(vm: Vm, t: Layout, m': Mem, p: nat, j: nat, w: nat)
    requires Inv(vm, t) && p !in t.roles && j < 512
    requires forall h: nat, i: nat :: i < 512 ==> Entry(m', h, i) == if h == p && i == j then w else Entry(vm.mem, h, i)
    ensures Inv(vm.(mem := m'), t) && SameView(vm.mem, m', t)
  {
    hide Entry, Slot, Prefix, Walk, LargeFree, FrameOf, Reads;
    forall r, x: nat | Covers(t, r, x)
      ensures Walk(m', r, 4, x) == Walk(vm.mem, r, 4, x) && LargeFree(m', r, 4, x) == LargeFree(vm.mem, r, 4, x)
    {
      PrefixRoot(x);
      WalkAfter(vm.mem, m', t, r, 4, x, p, j, w);
      if Reads(vm.mem, r, 4, x, p, j) {
        ReadsRole(vm.mem, t, r, 4, x, p, j);
      }
    }
    forall f: nat, i: nat | Managed(t, f, i) ensures Linked(m', t, f, i) {
      assert Linked(vm.mem, t, f, i);
    }
  }

  lemma MisplacedWrite(vm: Vm, t: Layout, vm': Vm, p: nat, j: nat, w: nat)
    requires Inv(vm, t) && p in t.roles && j < 512 && Overwritten(vm, vm', p, j, w)
    ensures Misplaced(vm, t, vm', p, j, w)
  {
    hide Entry, Slot, Prefix, Walk, LargeFree, FrameOf, Reads;
    forall r, x: nat | Covers(t, r, x)
      ensures if !Reads(vm.mem, r, 4, x, p, j) then GetPage(vm'.mem, r, x) == GetPage(vm.mem, r, x)
              else && 1 <= t.roles[p].level <= 4 && t.roles[p].prefix == Prefix(x, t.roles[p].level)
                   && j == Slot(x, t.roles[p].level)
                   && (t.roles[p].level == 1 ==> GetPage(vm'.mem, r, x) == w)
    {
      PrefixRoot(x);
      WalkAfter(vm.mem, vm'.mem, t, r, 4, x, p, j, w);
      if Reads(vm.mem, r, 4, x, p, j) {
        ReadsRole(vm.mem, t, r, 4, x, p, j);
      }
    }
  }

  /** The exact case split. Without a large entry on the path the page is mapped and nothing else changes. With one the
      mapping is lost if the frame is no table: the page has the new entry only if it was the large entry. */
  lemma MapPageCases(vm: Vm, t: Layout, v: nat, phys: nat, flags: nat)
    requires Inv(vm, t) && Covers(t, vm.cr3, v) && OnlyTwoMegabytes(vm.mem, t)
    requires phys < WORD_LIMIT && flags < WORD_LIMIT && MapPage(vm, v, phys, flags).Some?
    ensures var vm', w, p := MapPage(vm, v, phys, flags).value, BitOr(phys, flags), FrameOf(GetPage(vm.mem, vm.cr3, v));
            if LargeFree(vm.mem, vm.cr3, 4, v) then Mapped(vm, t, vm', Descended(vm, t, vm.cr3, 4, v), v, w)
            else && Overwritten(vm, vm', p, Slot(v, 1), w)
                 && if p in t.roles then Misplaced(vm, t, vm', p, Slot(v, 1), w)
                    else && Swallowed(vm, t, vm', v)
                         && (GetPage(vm'.mem, vm.cr3, v) == w <==> GetPage(vm.mem, vm.cr3, v) == w)
  {
    hide MapPage, BitOr, LargeFree, Walk, FrameOf, BehindLarge, Prefix, Entry, Descended, Misplaced, Overwritten;
    PrefixRoot(v);
    LargeFreeOrBehind(vm.mem, t, vm.cr3, 4, v);
    if LargeFree(vm.mem, vm.cr3, 4, v) {
      MapPageRefines(vm, t, v, phys, flags);
    } else {
      LargeEntrySwallows(vm, t, v, phys, flags);
    }
  }

  // ----- The boot tables -----

  lemma BootLarge(m: Mem)
    requires BootTables(m)
    ensures OnlyTwoMegabytes(AfterVmmInit(m), BootLayout())
  {
    hide Entry, WithEntry;
    EntryAfterWrite(m, BOOT_ROOT, 0, 0);
    SmallEntry(BOOT_PDPT);
    var m', t := AfterVmmInit(m), BootLayout();
    ZeroEntry();
    forall f: nat, i: nat | Managed(t, f, i) && t.roles[f].level != 2
      ensures !(Present(Entry(m', f, i)) && Large(Entry(m', f, i)))
    {
      SmallEntry(BOOT_PD + i);
    }
  }

  lemma SmallEntry(f: nat)
    ensures !Large(f * 4096 + 3)
  {
    assert f * 4096 + 3 == f * 32 * 128 + 3;
    assert (f * 4096 + 3) / 128 == f * 32;
  }

  lemma BootBehind(m: Mem, a: nat)
    requires BootTables(m) && a < 0x2_0000_0000
    ensures BehindLarge(AfterVmmInit(m), BOOT_ROOT, 4, PHYSICAL_MEMORY + a)
  {
    hide Entry, WithEntry, Slot, Large, Present, FrameOf;
    var v, m' := PHYSICAL_MEMORY + a, AfterVmmInit(m);
    DirectSlots(a);
    EntryAfterWrite(m, BOOT_ROOT, 0, 0);
    var k, i := a / 0x4000_0000, a / 0x20_0000 % 512;
    LargeBit(k * 512 + i);
    TableEntry(BOOT_PDPT, 3);
    TableEntry(BOOT_PD + k, 3);
    assert BehindLarge(m', BOOT_PD + k, 2, v);
    assert BehindLarge(m', BOOT_PDPT, 3, v);
  }

  lemma LargeFrame(q: nat)
    ensures FrameOf(q * 0x20_0000 + 0x83) == q * 512
  {
    assert q * 0x20_0000 + 0x83 == q * 512 * 4096 + 0x83;
  }

  /** In the physical window as the boot loader leaves it no page can be mapped: the call returns, no translation
      changes, and a word of the memory meant to be reached through the window is overwritten. */
  lemma WindowSwallows(m: Mem, es: seq<Pmm.E820>, foreign: set<nat>, a: nat, phys: nat, flags: nat)
    requires BootTables(m) && es != [] && Pmm.NearlyFits(es) && forall p :: p in foreign ==> p >= Pmm.Limit(es)
    requires Pmm.PAGE <= Pmm.Init(es, foreign).highest < WORD_LIMIT
    requires a < 0x2_0000_0000 && phys < WORD_LIMIT && flags < WORD_LIMIT
    ensures var vm, v, p := BootVm(m, es, foreign), PHYSICAL_MEMORY + a, a / 0x20_0000 * 512;
            var r := MapPage(vm, v, phys, flags);
            && FrameOf(GetPage(vm.mem, vm.cr3, v)) == p && r.Some?
            && Overwritten(vm, r.value, p, Slot(v, 1), BitOr(phys, flags)) && Swallowed(vm, BootLayout(), r.value, v)
  {
    hide Pmm.Init, Entry, Walk, MapPage, BootTables, BehindLarge, Swallowed, Overwritten, Misplaced, BitOr, FrameOf;
    hide WithEntry, Pmm.NearlyFits, Pmm.Limit;
    var vm, v, t := BootVm(m, es, foreign), PHYSICAL_MEMORY + a, BootLayout();
    BootInvariant(m, es, foreign);
    DirectMap(m, a);
    BootBehind(m, a);
    LargeFrame(a / 0x20_0000);
    NoBootTable(a / 0x20_0000);
    InWindow(a);
    LargeEntrySwallows(vm, t, v, phys, flags);
  }

  lemma InWindow(a: nat)
    requires a < 0x2_0000_0000
    ensures a / 0x20_0000 * 512 < WINDOW
  {
  }

  lemma NoBootTable(q: nat)
    ensures q * 512 !in BootLayout().roles
  {
  }
}
