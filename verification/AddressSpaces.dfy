/** Several address spaces: the boot tables (bootmgr/stage2/paging.asm, vmm_init), the roots made by
    create_process (kernel/src/sys/sched.c), and the kernel half that all of them share. */
module AddressSpaces {
  import opened Memory
  import opened PageTable
  import Pmm

  const BOOT_ROOT: nat := 8
  const BOOT_PDPT: nat := 9
  const BOOT_PD: nat := 10

  /** What `setup_paging` leaves in memory: slots 0 and 256 of the PML4 both name the PDPT, whose
      first eight entries name page directories of 2 MB pages. */
  ghost predicate BootTables(m: Mem) {
    && (forall i :: 0 <= i < 512 ==> Entry(m, BOOT_ROOT, i) == if i == 0 || i == 256 then BOOT_PDPT * 4096 + 3 else 0)
    && (forall i :: 0 <= i < 512 ==> Entry(m, BOOT_PDPT, i) == if i < 8 then (BOOT_PD + i) * 4096 + 3 else 0)
    && (forall f, i :: BOOT_PD <= f < BOOT_PD + 8 && 0 <= i < 512 ==>
        Entry(m, f, i) == ((f - BOOT_PD) * 512 + i) * 0x20_0000 + 0x83)
  }

  function BootLayout(): Layout {
    Layout(map[BOOT_ROOT := Role(4, 0), BOOT_PDPT := Role(3, 256),
               10 := Role(2, 0x20000), 11 := Role(2, 0x20001), 12 := Role(2, 0x20002), 13 := Role(2, 0x20003),
               14 := Role(2, 0x20004), 15 := Role(2, 0x20005), 16 := Role(2, 0x20006), 17 := Role(2, 0x20007)],
           map[BOOT_ROOT := Full])
  }

  /** `vmm_init` clears slot 0. */
  function AfterVmmInit(m: Mem): Mem {
    WithEntry(m, BOOT_ROOT, 0, 0)
  }

  /** The start state satisfies the tree invariant. */
  lemma BootIsTree(m: Mem)
    requires BootTables(m)
    ensures Tree(AfterVmmInit(m), BootLayout())
  {
    hide Entry, WithEntry;
    EntryAfterWrite(m, BOOT_ROOT, 0, 0);
    var m', t := AfterVmmInit(m), BootLayout();
    forall f: nat, i: nat | Managed(t, f, i) ensures Linked(m', t, f, i) {
      if f >= BOOT_PD {
        LargeBit((f - BOOT_PD) * 512 + i);
      }
    }
  }

  /** The kernel starts in a state that satisfies the whole invariant: the boot tables lie in the low
      pages, which `pmm_init` marks as used. */
  lemma BootInvariant(m: Mem, es: seq<Pmm.E820>, foreign: set<nat>)
    requires BootTables(m) && es != [] && Pmm.NearlyFits(es) && forall p :: p in foreign ==> p >= Pmm.Limit(es)
    requires Pmm.PAGE <= Pmm.Init(es, foreign).highest < WORD_LIMIT
    ensures Inv(BootVm(m, es, foreign), BootLayout())
  {
    hide Pmm.Init, Entry, WithEntry, Tree;
    BootIsTree(m);
    Pmm.InitReady(es, foreign);
  }

  /** The machine after `pmm_init` and `vmm_init`. */
  function BootVm(m: Mem, es: seq<Pmm.E820>, foreign: set<nat>): Vm
    requires es != []
  {
    Vm(AfterVmmInit(m), Pmm.Init(es, foreign), BOOT_ROOT)
  }

  lemma LargeBit(n: nat)
    ensures Large(n * 0x20_0000 + 0x83) && Present(n * 0x20_0000 + 0x83)
  {
    var e, q := n * 0x20_0000 + 0x83, n * 0x4000 + 1;
    assert e == q * 0x80 + 3;
    assert e / 0x80 == q;
    Odd(n * 0x2000);
    assert q == 2 * (n * 0x2000) + 1;
    Odd(n * 0x10_0000 + 0x41);
    assert e == 2 * (n * 0x10_0000 + 0x41) + 1;
  }

  lemma Odd(k: nat)
    ensures (2 * k + 1) % 2 == 1
  {
  }

  /** With the alias in slot 0 still there, no assignment of roles fits: the PDPT would need two. */
  lemma AliasBreaksTree(m: Mem, t: Layout)
    requires BootTables(m) && BOOT_ROOT in t.spaces && t.spaces[BOOT_ROOT].Full?
    ensures !Tree(m, t)
  {
    hide Entry;
    if BOOT_ROOT in t.roles && t.roles[BOOT_ROOT] == Role(4, 0) {
      assert Managed(t, BOOT_ROOT, 0) && Managed(t, BOOT_ROOT, 256);
      assert !(Linked(m, t, BOOT_ROOT, 0) && Linked(m, t, BOOT_ROOT, 256));
    }
  }

  const PHYSICAL_MEMORY: nat := 0xFFFF_8000_0000_0000
  const MMIO_REGION: nat := 0xFFFF_8080_0000_0000
  const KERNEL_HEAP: nat := 0xFFFF_8100_0000_0000

  lemma DirectWalk(m: Mem, v: nat, k: nat, i: nat)
    requires BootTables(m) && Slot(v, 4) == 256 && Slot(v, 3) == k < 8 && Slot(v, 2) == i
    ensures GetPage(AfterVmmInit(m), BOOT_ROOT, v) == (k * 512 + i) * 0x20_0000 + 0x83
  {
    hide Entry, WithEntry, Slot, Large, Present, FrameOf;
    EntryAfterWrite(m, BOOT_ROOT, 0, 0);
    var m' := AfterVmmInit(m);
    LargeBit(k * 512 + i);
    TableEntry(BOOT_PDPT, 3);
    TableEntry(BOOT_PD + k, 3);
    assert Walk(m', BOOT_PD + k, 2, v) == Entry(m', BOOT_PD + k, i);
    assert Walk(m', BOOT_PDPT, 3, v) == Walk(m', BOOT_PD + k, 2, v);
  }

  /** The first 8 GB are visible from PHYSICAL_MEMORY up, through the 2 MB page that contains them. */
  lemma DirectMap(m: Mem, a: nat)
    requires BootTables(m) && a < 0x2_0000_0000
    ensures GetPage(AfterVmmInit(m), BOOT_ROOT, PHYSICAL_MEMORY + a) == a / 0x20_0000 * 0x20_0000 + 0x83
  {
    hide Slot, Walk, BootTables;
    DirectSlots(a);
    DirectWalk(m, PHYSICAL_MEMORY + a, a / 0x4000_0000, a / 0x20_0000 % 512);
  }

  /** The window ends there: of the 512 GB that its root slot stands for, the first 8 are visible. */
  lemma WindowIs(m: Mem, a: nat)
    requires BootTables(m) && a < 0x80_0000_0000
    ensures Present(GetPage(AfterVmmInit(m), BOOT_ROOT, PHYSICAL_MEMORY + a)) <==> a / 4096 < WINDOW
  {
    hide Entry, WithEntry, Slot, Large, Present, FrameOf, Walk, BootTables;
    if a < 0x2_0000_0000 {
      DirectMap(m, a);
      LargeBit(a / 0x20_0000);
    } else {
      BeyondWindow(m, a);
      ZeroEntry();
    }
  }

  lemma BeyondWindow(m: Mem, a: nat)
    requires BootTables(m) && 0x2_0000_0000 <= a < 0x80_0000_0000
    ensures GetPage(AfterVmmInit(m), BOOT_ROOT, PHYSICAL_MEMORY + a) == 0
  {
    hide Entry, WithEntry, Slot, Large, Present, FrameOf;
    var v, m' := PHYSICAL_MEMORY + a, AfterVmmInit(m);
    EntryAfterWrite(m, BOOT_ROOT, 0, 0);
    BeyondSlots(a);
    TableEntry(BOOT_PDPT, 3);
    ZeroEntry();
    assert Entry(m', BOOT_ROOT, Slot(v, 4)) == BOOT_PDPT * 4096 + 3;
    assert Walk(m', BOOT_PDPT, 3, v) == 0;
  }

  lemma BeyondSlots(a: nat)
    requires 0x2_0000_0000 <= a < 0x80_0000_0000
    ensures Slot(PHYSICAL_MEMORY + a, 4) == 256 && Slot(PHYSICAL_MEMORY + a, 3) >= 8
  {
    var x := 0x8000_0000_0000 + a;
    assert Low48(PHYSICAL_MEMORY + a) == x;
    assert x / 0x80_0000_0000 == 256;
    assert x / 0x4000_0000 == 0x2_0000 + a / 0x4000_0000;
  }

  lemma DirectSlots(a: nat)
    requires a < 0x2_0000_0000
    ensures var v := PHYSICAL_MEMORY + a;
            && Slot(v, 4) == 256 && Slot(v, 3) == a / 0x4000_0000 < 8 && Slot(v, 2) == a / 0x20_0000 % 512
            && a / 0x20_0000 == a / 0x4000_0000 * 512 + a / 0x20_0000 % 512
  {
    hide Prefix;
    var x := 0x8000_0000_0000 + a;
    assert PHYSICAL_MEMORY == 0xFFFF * 0x1_0000_0000_0000 + 0x8000_0000_0000;
    assert Low48(PHYSICAL_MEMORY + a) == x;
    var k := a / 0x4000_0000;
    var r := a % 0x4000_0000;
    assert a == k * 0x4000_0000 + r;
    assert x / 0x80_0000_0000 == 256;
    assert x / 0x4000_0000 == 0x2_0000 + k;
    var j := a / 0x20_0000;
    assert x / 0x20_0000 == 0x400_0000 + j;
    assert r / 0x20_0000 < 512 && j == k * 512 + r / 0x20_0000;
  }

  // ----- Processes -----

  /** `create_process` as far as the address space goes: a fresh frame, not cleared, that gets the three kernel slots of
      the boot root. `None` is the failure return, or the fault on a frame outside the window. */
  function CreateRoot(vm: Vm, bsp: nat): Option<(Vm, nat)>
    requires vm.frames.highest >= Pmm.PAGE
  {
    var (fr, r) := Pmm.Alloc(vm.frames);
    match r
    case None => None
    case Some(p) =>
      if p >= WINDOW then None else
      var m1 := WithEntry(vm.mem, p, 256, Entry(vm.mem, bsp, 256));
      var m2 := WithEntry(m1, p, 257, Entry(m1, bsp, 257));
      var m3 := WithEntry(m2, p, 258, Entry(m2, bsp, 258));
      Some((vm.(mem := m3, frames := fr), p))
  }

  /** All roots have the same, present, kernel entries. */
  ghost predicate Shared(vm: Vm, t: Layout, bsp: nat) {
    && bsp in t.spaces
    && forall r, s :: r in t.spaces && KernelSlot(s) ==>
         Entry(vm.mem, r, s) == Entry(vm.mem, bsp, s) && Present(Entry(vm.mem, r, s))
  }

  /** Then every address space sees the same kernel half. */
  lemma SharedViews(vm: Vm, t: Layout, bsp: nat, r: nat, r': nat, v: nat)
    requires Shared(vm, t, bsp) && r in t.spaces && r' in t.spaces && KernelSlot(Slot(v, 4))
    ensures GetPage(vm.mem, r, v) == GetPage(vm.mem, r', v)
  {
    hide Entry, Slot;
    assert Entry(vm.mem, r, Slot(v, 4)) == Entry(vm.mem, r', Slot(v, 4));
  }

  lemma EntryBound(m: Mem, f: nat, i: nat)
    ensures Entry(m, f, i) < WORD_LIMIT
  {
    RdLeBound(m, f * 4096 + i * 8, WordBytes(m));
    assert Pow256(8) == WORD_LIMIT;
  }

  lemma CreateRootEntries(vm: Vm, bsp: nat)
    requires FramesOk(vm.frames) && bsp !in vm.frames.free && CreateRoot(vm, bsp).Some?
    ensures var (vm', p) := CreateRoot(vm, bsp).value;
            && p in vm.frames.free && p != bsp && FramesOk(vm'.frames) && vm'.cr3 == vm.cr3
            && vm'.frames.free == vm.frames.free - {p}
            && (forall s :: KernelSlot(s) ==> Entry(vm'.mem, p, s) == Entry(vm.mem, bsp, s))
            && (forall g: nat, j: nat :: j < 512 && !(g == p && KernelSlot(j)) ==>
                Entry(vm'.mem, g, j) == Entry(vm.mem, g, j))
  {
    hide Entry, WithEntry;
    Pmm.AllocTakesLowest(vm.frames);
    var p := Pmm.Alloc(vm.frames).1.value;
    var m1 := WithEntry(vm.mem, p, 256, Entry(vm.mem, bsp, 256));
    var m2 := WithEntry(m1, p, 257, Entry(m1, bsp, 257));
    EntryBound(vm.mem, bsp, 256);
    EntryAfterWrite(vm.mem, p, 256, Entry(vm.mem, bsp, 256));
    EntryBound(m1, bsp, 257);
    EntryAfterWrite(m1, p, 257, Entry(m1, bsp, 257));
    EntryBound(m2, bsp, 258);
    EntryAfterWrite(m2, p, 258, Entry(m2, bsp, 258));
  }

  ghost function WithRoot(t: Layout, p: nat): Layout {
    t.(roles := t.roles[p := Role(4, 0)], spaces := t.spaces[p := KernelOnly])
  }

  lemma CreateRootKeepsTree(vm: Vm, t: Layout, bsp: nat)
    requires Inv(vm, t) && bsp in t.spaces && CreateRoot(vm, bsp).Some?
    ensures var (vm', p) := CreateRoot(vm, bsp).value; p !in t.roles && Inv(vm', WithRoot(t, p))
  {
    hide Entry, WithEntry;
    assert bsp in t.roles;
    CreateRootEntries(vm, bsp);
    var (vm', p) := CreateRoot(vm, bsp).value;
    var t' := WithRoot(t, p);
    forall f, i | Managed(t', f, i) ensures Linked(vm'.mem, t', f, i) {
      if f == p {
        assert KernelSlot(i) && Managed(t, bsp, i) && Linked(vm.mem, t, bsp, i);
      } else {
        assert Managed(t, f, i) && Linked(vm.mem, t, f, i);
      }
    }
  }

  lemma CreateRootShares(vm: Vm, t: Layout, bsp: nat)
    requires Inv(vm, t) && Shared(vm, t, bsp) && CreateRoot(vm, bsp).Some?
    ensures var (vm', p) := CreateRoot(vm, bsp).value;
            Inv(vm', WithRoot(t, p)) && Shared(vm', WithRoot(t, p), bsp)
  {
    hide Entry, WithEntry;
    CreateRootEntries(vm, bsp);
    CreateRootKeepsTree(vm, t, bsp);
  }

  // ----- Runs -----

  /** Steps of the kernel: map a page under one root, start a process, take or return a frame that
      is not a table. */
  datatype Op = Map(root: nat, v: nat, phys: nat, flags: nat) | Spawn | Take | Give(p: nat)

  /** A root is never rewritten where it already has a table. */
  lemma {:induction false} DescendKeepsRoots(vm: Vm, t: Layout, f: nat, level: nat, v: nat)
    requires Inv(vm, t) && 1 <= level <= 4
    requires f in t.roles && t.roles[f] == Role(level, Prefix(v, level)) && (level == 4 ==> Covers(t, f, v))
    requires LargeFree(vm.mem, f, level, v) && Descend(vm, f, level, v).Some?
    ensures var (vm', pt) := Descend(vm, f, level, v).value;
            forall r, s :: r in t.spaces && 0 <= s < 512 && Present(Entry(vm.mem, r, s)) ==>
                Entry(vm'.mem, r, s) == Entry(vm.mem, r, s)
    decreases level
  {
    hide Entry, Slot, Prefix, WithEntry, Cleared, BitOr, Grown;
    if level > 1 {
      var s := Slot(v, level);
      PrefixStep(v, level);
      assert Managed(t, f, s);
      var (vm1, p) := EnsureTable(vm, f, s).value;
      var t1 := Extended(vm, t, f, s);
      EnsureTableKeepsTree(vm, t, f, s);
      EnsureTableHighest(vm, f, s);
      if !Present(Entry(vm.mem, f, s)) {
        EnsureTableFresh(vm, t, f, s);
        assert Entry(vm1.mem, p, Slot(v, level - 1)) == 0;
      } else {
        EnsureTableSameView(vm, t, f, s);
      }
      assert LargeFree(vm1.mem, p, level - 1, v);
      DescendKeepsRoots(vm1, t1, p, level - 1, v);
    }
  }

  lemma MapPageShares(vm: Vm, t: Layout, bsp: nat, v: nat, phys: nat, flags: nat)
    requires Inv(vm, t) && Shared(vm, t, bsp) && Covers(t, vm.cr3, v) && LargeFree(vm.mem, vm.cr3, 4, v)
    requires phys < WORD_LIMIT && flags < WORD_LIMIT && MapPage(vm, v, phys, flags).Some?
    ensures var (vm', t') := (MapPage(vm, v, phys, flags).value, Descended(vm, t, vm.cr3, 4, v));
            Mapped(vm, t, vm', t', v, BitOr(phys, flags)) && Shared(vm', t', bsp)
  {
    hide Entry, Slot, Prefix, WithEntry, BitOr, Walk, Leaf, LargeFree, PageNumber, Grown, Mapped;
    PrefixRoot(v);
    MapPageRefines(vm, t, v, phys, flags);
    DescendKeepsRoots(vm, t, vm.cr3, 4, v);
    DescendCorrect(vm, t, vm.cr3, 4, v);
    var t' := Descended(vm, t, vm.cr3, 4, v);
    var (vm1, pt) := Descend(vm, vm.cr3, 4, v).value;
    OrWord(phys, flags);
    EntryAfterWrite(vm1.mem, pt, Slot(v, 1), BitOr(phys, flags));
    var vm' := MapPage(vm, v, phys, flags).value;
    assert t'.spaces == t.spaces by { MappedFacts(vm, t, vm', t', v, BitOr(phys, flags)); }
    assert forall r :: r in t.spaces ==> r != pt by { GrownFacts(vm, t, vm1, t', 3); }
  }

  lemma MappedFacts(vm: Vm, t: Layout, vm': Vm, t': Layout, v: nat, w: nat)
    requires Mapped(vm, t, vm', t', v, w)
    ensures t'.spaces == t.spaces && Inv(vm', t') && vm'.cr3 == vm.cr3
  {
  }

  lemma GrownFacts(vm: Vm, t: Layout, vm': Vm, t': Layout, n: nat)
    requires Grown(vm, t, vm', t', n)
    ensures Tree(vm'.mem, t') && t'.spaces == t.spaces
  {
  }

  /** One legal step; an illegal or failing one is `None`. A `Map` must stay in the part of the
      address space that its root set up, and off the large pages; a `Give` must not free a table. */
  ghost function Step(vm: Vm, t: Layout, bsp: nat, op: Op): Option<(Vm, Layout)>
    requires vm.frames.highest >= Pmm.PAGE
  {
    match op
    case Map(root, v, phys, flags) =>
      if Covers(t, root, v) && LargeFree(vm.mem, root, 4, v) && phys < WORD_LIMIT && flags < WORD_LIMIT then
        var from := vm.(cr3 := root);
        match MapPage(from, v, phys, flags)
        case Some(vm') => Some((vm', Descended(from, t, root, 4, v)))
        case None => None
      else None
    case Spawn =>
      (match CreateRoot(vm, bsp)
       case Some((vm', p)) => Some((vm', WithRoot(t, p)))
       case None => None)
    case Take =>
      var (fr, r) := Pmm.Alloc(vm.frames);
      if r.Some? then Some((vm.(frames := fr), t)) else None
    case Give(p) =>
      if 0 < p < vm.frames.pages && p * Pmm.PAGE <= vm.frames.highest && p !in t.roles
      then Some((vm.(frames := Pmm.MarkFree(vm.frames, p)), t)) else None
  }

  lemma StepKeeps(vm: Vm, t: Layout, bsp: nat, op: Op)
    requires Inv(vm, t) && Shared(vm, t, bsp) && Step(vm, t, bsp, op).Some?
    ensures var (vm', t') := Step(vm, t, bsp, op).value;
            Inv(vm', t') && Shared(vm', t', bsp) && t.spaces.Keys <= t'.spaces.Keys
  {
    hide Entry, Slot, WithEntry, BitOr, Walk, LargeFree, MapPage, Mapped, Descended;
    var (vm', t') := Step(vm, t, bsp, op).value;
    match op
    case Map(root, v, phys, flags) =>
      MapPageShares(vm.(cr3 := root), t, bsp, v, phys, flags);
      MappedFacts(vm.(cr3 := root), t, vm', t', v, BitOr(phys, flags));
    case Spawn =>
      CreateRootShares(vm, t, bsp);
    case Take =>
      Pmm.AllocTakesLowest(vm.frames);
    case Give(p) =>
  }

  ghost function Run(vm: Vm, t: Layout, bsp: nat, ops: seq<Op>): Option<(Vm, Layout)>
    decreases |ops|
  {
    if ops == [] then Some((vm, t))
    else if vm.frames.highest < Pmm.PAGE then None
    else
      match Step(vm, t, bsp, ops[0])
      case None => None
      case Some((vm', t')) => Run(vm', t', bsp, ops[1..])
  }

  /** After every run, a page in the kernel half has the same entry under every root. */
  lemma {:induction false} KernelHalfShared(vm: Vm, t: Layout, bsp: nat, ops: seq<Op>)
    requires Inv(vm, t) && Shared(vm, t, bsp) && Run(vm, t, bsp, ops).Some?
    ensures var (vm', t') := Run(vm, t, bsp, ops).value;
            && Inv(vm', t') && Shared(vm', t', bsp) && t.spaces.Keys <= t'.spaces.Keys
            && forall r, r', v :: r in t'.spaces && r' in t'.spaces && KernelSlot(Slot(v, 4)) ==>
                 GetPage(vm'.mem, r, v) == GetPage(vm'.mem, r', v)
    decreases |ops|
  {
    hide Entry, Slot, Step, Walk;
    if ops == [] {
      forall r, r', v | r in t.spaces && r' in t.spaces && KernelSlot(Slot(v, 4))
        ensures GetPage(vm.mem, r, v) == GetPage(vm.mem, r', v)
      {
        SharedViews(vm, t, bsp, r, r', v);
      }
    } else {
      StepKeeps(vm, t, bsp, ops[0]);
      var (vm', t') := Step(vm, t, bsp, ops[0]).value;
      KernelHalfShared(vm', t', bsp, ops[1..]);
    }
  }

  /** In addresses: the physical window, the device region and the heap region look alike in every address space. */
  lemma KernelRegionsShared(vm: Vm, t: Layout, bsp: nat, ops: seq<Op>, r: nat, r': nat, v: nat)
    requires Inv(vm, t) && Shared(vm, t, bsp) && Run(vm, t, bsp, ops).Some?
             && 0xFFFF_8000_0000_0000 <= v < 0xFFFF_8180_0000_0000
    requires r in Run(vm, t, bsp, ops).value.1.spaces && r' in Run(vm, t, bsp, ops).value.1.spaces
    ensures GetPage(Run(vm, t, bsp, ops).value.0.mem, r, v) == GetPage(Run(vm, t, bsp, ops).value.0.mem, r', v)
  {
    hide Run, Inv, Shared, Walk;
    KernelHalfShared(vm, t, bsp, ops);
    var y := v - 0xFFFF_0000_0000_0000;
    assert v == 0xFFFF * 0x1_0000_0000_0000 + y;
    assert Low48(v) == y;
    assert 256 * 0x80_0000_0000 <= y < 259 * 0x80_0000_0000;
    assert 256 <= y / 0x80_0000_0000 < 259;
  }

  /** Presence at creation time is necessary: a kernel slot that the boot root lacked when the process
      was created stays invisible to it when the boot root maps a page there. */
  lemma MissingSlotDiverges(vm: Vm, t: Layout, bsp: nat, v: nat, phys: nat, flags: nat)
    requires Inv(vm, t) && bsp in t.spaces && KernelSlot(Slot(v, 4)) && !Present(Entry(vm.mem, bsp, Slot(v, 4)))
    requires CreateRoot(vm, bsp).Some? && phys < WORD_LIMIT && flags < WORD_LIMIT && BitOr(phys, flags) != 0
    requires var (vm', p) := CreateRoot(vm, bsp).value;
             vm'.frames.highest >= Pmm.PAGE && MapPage(vm'.(cr3 := bsp), v, phys, flags).Some?
    ensures var (vm', p) := CreateRoot(vm, bsp).value;
            var m := MapPage(vm'.(cr3 := bsp), v, phys, flags).value.mem;
            GetPage(m, bsp, v) == BitOr(phys, flags) && GetPage(m, p, v) == 0
  {
    hide Entry, Slot, WithEntry, BitOr, Leaf, PageNumber, EnsureTable, Cleared;
    CreateRootEntries(vm, bsp);
    var (vm', p) := CreateRoot(vm, bsp).value;
    var t' := WithRoot(t, p);
    CreateRootKeepsTree(vm, t, bsp);
    var from := vm'.(cr3 := bsp);
    assert Covers(t', bsp, v) && Covers(t', p, v);
    assert !Present(Entry(vm'.mem, bsp, Slot(v, 4))) && !Present(Entry(vm'.mem, p, Slot(v, 4)));
    MapPageRefines(from, t', v, phys, flags);
    MissingStays(from, t', p, v, phys, flags);
  }

  /** The root entry of another address space is not written by a mapping. */
  lemma MissingStays(vm: Vm, t: Layout, other: nat, v: nat, phys: nat, flags: nat)
    requires Inv(vm, t) && Covers(t, vm.cr3, v) && Covers(t, other, v) && other != vm.cr3
    requires LargeFree(vm.mem, vm.cr3, 4, v) && phys < WORD_LIMIT && flags < WORD_LIMIT
             && MapPage(vm, v, phys, flags).Some?
    requires !Present(Entry(vm.mem, vm.cr3, Slot(v, 4))) && !Present(Entry(vm.mem, other, Slot(v, 4)))
    ensures GetPage(MapPage(vm, v, phys, flags).value.mem, other, v) == 0
  {
    hide Entry, Slot, Prefix, WithEntry, BitOr, Cleared, Grown;
    PrefixRoot(v);
    var s := Slot(v, 4);
    assert Managed(t, vm.cr3, s);
    EnsureTableFresh(vm, t, vm.cr3, s);
    EnsureTableKeepsTree(vm, t, vm.cr3, s);
    EnsureTableHighest(vm, vm.cr3, s);
    var (vm1, p) := EnsureTable(vm, vm.cr3, s).value;
    var t1 := Extended(vm, t, vm.cr3, s);
    PrefixStep(v, 4);
    assert Entry(vm1.mem, p, Slot(v, 3)) == 0;
    DescendCorrect(vm1, t1, p, 3, v);
    var (vm2, pt) := Descend(vm1, p, 3, v).value;
    var t2 := Descended(vm1, t1, p, 3, v);
    GrownFacts(vm1, t1, vm2, t2, 2);
    OrWord(phys, flags);
    EntryAfterWrite(vm2.mem, pt, Slot(v, 1), BitOr(phys, flags));
  }

  // ----- How the kernel comes to share -----

  lemma PresentRoot(m: Mem, root: nat, v: nat)
    requires Present(GetPage(m, root, v))
    ensures Present(Entry(m, root, Slot(v, 4)))
  {
    hide Entry, Slot, Present, Large, FrameOf;
    ZeroEntry();
  }

  /** At boot only slot 256 of the kernel half is there. Once a page has been mapped in each of the other two, as the
      heap and the first device do, all kernel slots are present, so that every process created from then on shares
      them. */
  lemma BootShared(m: Mem, es: seq<Pmm.E820>, foreign: set<nat>, v1: nat, p1: nat, f1: nat, v2: nat, p2: nat, f2: nat)
    requires BootTables(m) && es != [] && Pmm.NearlyFits(es) && forall p :: p in foreign ==> p >= Pmm.Limit(es)
    requires Pmm.PAGE <= Pmm.Init(es, foreign).highest < WORD_LIMIT
    requires Slot(v1, 4) == 257 && Slot(v2, 4) == 258 && p1 < WORD_LIMIT && f1 < WORD_LIMIT && p2 < WORD_LIMIT
             && f2 < WORD_LIMIT
    requires Present(BitOr(p1, f1)) && Present(BitOr(p2, f2))
    requires MapPage(BootVm(m, es, foreign), v1, p1, f1).Some?
    requires var vm1 := MapPage(BootVm(m, es, foreign), v1, p1, f1).value;
             vm1.frames.highest >= Pmm.PAGE
             && MapPage(vm1, v2, p2, f2).Some?
    ensures var vm1 := MapPage(BootVm(m, es, foreign), v1, p1, f1).value;
            var vm2 := MapPage(vm1, v2, p2, f2).value;
            exists t2 :: Inv(vm2, t2) && Shared(vm2, t2, BOOT_ROOT)
  {
    hide Pmm.Init, Pmm.NearlyFits, Pmm.Limit, BootTables, Entry, WithEntry, Slot, Present, BitOr, MapPage, Walk;
    hide Descended, LargeFree, Inv, PageNumber, Mapped;
    var vm, t := BootVm(m, es, foreign), BootLayout();
    BootInvariant(m, es, foreign);
    BootKernelSlots(m, v1, v2);
    MapPageRefines(vm, t, v1, p1, f1);
    var vm1, t1 := MapPage(vm, v1, p1, f1).value, Descended(vm, t, vm.cr3, 4, v1);
    MappedKeeps(vm, t, vm1, t1, v1, BitOr(p1, f1), v2);
    MapPageRefines(vm1, t1, v2, p2, f2);
    var vm2, t2 := MapPage(vm1, v2, p2, f2).value, Descended(vm1, t1, vm1.cr3, 4, v2);
    MappedKeeps(vm1, t1, vm2, t2, v2, BitOr(p2, f2), v1);
    DirectMap(m, 0);
    DirectPresent();
    DirectApart(vm, t, vm1, t1, v1, BitOr(p1, f1));
    DirectApart(vm1, t1, vm2, t2, v2, BitOr(p2, f2));
    OtherSlotPage(v2, v1);
    PresentRoot(vm2.mem, BOOT_ROOT, v1);
    PresentRoot(vm2.mem, BOOT_ROOT, v2);
    PresentRoot(vm2.mem, BOOT_ROOT, PHYSICAL_MEMORY);
    DirectSlots(0);
    assert t2.spaces == BootLayout().spaces;
    assert Shared(vm2, t2, BOOT_ROOT);
  }

  lemma BootKernelSlots(m: Mem, v1: nat, v2: nat)
    requires BootTables(m) && Slot(v1, 4) == 257 && Slot(v2, 4) == 258
    ensures LargeFree(AfterVmmInit(m), BOOT_ROOT, 4, v1) && LargeFree(AfterVmmInit(m), BOOT_ROOT, 4, v2)
    ensures Covers(BootLayout(), BOOT_ROOT, v1) && Covers(BootLayout(), BOOT_ROOT, v2)
            && Covers(BootLayout(), BOOT_ROOT, PHYSICAL_MEMORY)
  {
    hide Entry, WithEntry, Slot, Present;
    EntryAfterWrite(m, BOOT_ROOT, 0, 0);
    ZeroEntry();
  }

  /** What a mapping leaves of another page of the boot root. */
  lemma MappedKeeps(vm: Vm, t: Layout, vm': Vm, t': Layout, v: nat, w: nat, x: nat)
    requires Mapped(vm, t, vm', t', v, w) && vm.cr3 == BOOT_ROOT && Covers(t, BOOT_ROOT, x)
    ensures Inv(vm', t') && vm'.cr3 == BOOT_ROOT && t'.spaces == t.spaces && GetPage(vm'.mem, BOOT_ROOT, v) == w
    ensures LargeFree(vm'.mem, BOOT_ROOT, 4, x) == LargeFree(vm.mem, BOOT_ROOT, 4, x) && Covers(t', BOOT_ROOT, x)
    ensures PageNumber(x) != PageNumber(v) ==> GetPage(vm'.mem, BOOT_ROOT, x) == GetPage(vm.mem, BOOT_ROOT, x)
  {
    hide Slot, Walk, LargeFree, PageNumber, Inv;
  }

  lemma DirectPresent()
    ensures Present(0 / 0x20_0000 * 0x20_0000 + 0x83)
  {
    LargeBit(0);
  }

  lemma OtherSlotPage(v: nat, x: nat)
    requires Slot(v, 4) != Slot(x, 4)
    ensures PageNumber(v) != PageNumber(x)
  {
    SamePage(v, x);
  }

  lemma DirectApart(vm: Vm, t: Layout, vm': Vm, t': Layout, v: nat, w: nat)
    requires Mapped(vm, t, vm', t', v, w) && vm.cr3 == BOOT_ROOT && Covers(t, BOOT_ROOT, PHYSICAL_MEMORY)
             && Slot(v, 4) != 256
    ensures GetPage(vm'.mem, BOOT_ROOT, PHYSICAL_MEMORY) == GetPage(vm.mem, BOOT_ROOT, PHYSICAL_MEMORY)
    ensures Covers(t', BOOT_ROOT, PHYSICAL_MEMORY)
  {
    hide Slot, Walk, LargeFree, PageNumber, Inv, Mapped;
    DirectSlots(0);
    OtherSlotPage(v, PHYSICAL_MEMORY);
    MappedKeeps(vm, t, vm', t', v, w, PHYSICAL_MEMORY);
  }
}
