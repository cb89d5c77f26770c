/** Four-level page tables in physical frames (kernel/src/mm/vmm.c): the walk, the mapping of one
    page, and the proof that the mapping refines an update of a flat map from page number to entry.

    Frames are named by number. A table frame has one `Role`: the level it serves and the virtual
    prefix it is responsible for. That the roles are a map from frames is what forbids sharing. */
module PageTable {
  import opened Memory
  import Pmm

  const TABLE_FLAGS: nat := 7   // PAGE_PRESENT | PAGE_WRITE | PAGE_USER

  /** The frames that the kernel can reach: it reads and writes tables at their frame's place in the physical window,
      which shows the first 8 GB. Any other access there is a page fault. */
  const WINDOW: nat := 0x20_0000

  predicate Present(e: nat) {
    e % 2 == 1
  }

  predicate Large(e: nat) {
    e / 0x80 % 2 == 1
  }

  /** The frame of an entry or an address: `e & PAGE_MASK`, as a frame number. */
  function FrameOf(e: nat): nat {
    e / 4096
  }

  /** An entry made of a frame and flags below PAGE_LARGE. */
  lemma TableEntry(f: nat, flags: nat)
    requires flags < 0x80 && flags % 2 == 1
    ensures Present(f * 4096 + flags) && !Large(f * 4096 + flags) && FrameOf(f * 4096 + flags) == f
  {
    var e := f * 4096 + flags;
    assert e / 0x80 == f * 32;
    assert f * 32 == 2 * (f * 16);
    assert e == 2 * (f * 2048) + flags;
  }

  // ----- Virtual addresses -----

  function Low48(v: nat): nat {
    v % 0x1_0000_0000_0000
  }

  /** `(virtual >> shift) & 511` for the table at `level`. */
  function Slot(v: nat, level: nat): (i: nat)
    requires 1 <= level <= 4
    ensures i < 512
  {
    match level
    case 4 => Low48(v) / 0x80_0000_0000 % 512
    case 3 => Low48(v) / 0x4000_0000 % 512
    case 2 => Low48(v) / 0x20_0000 % 512
    case _ => Low48(v) / 0x1000 % 512
  }

  /** The address bits above those that the table at `level` resolves. */
  function Prefix(v: nat, level: nat): nat
    requires 1 <= level <= 4
  {
    match level
    case 4 => 0
    case 3 => Low48(v) / 0x80_0000_0000
    case 2 => Low48(v) / 0x4000_0000
    case _ => Low48(v) / 0x20_0000
  }

  function PageNumber(v: nat): nat {
    Low48(v) / 0x1000
  }

  lemma PrefixStep(v: nat, level: nat)
    requires 2 <= level <= 4
    ensures Prefix(v, level - 1) == Prefix(v, level) * 512 + Slot(v, level)
  {
  }

  lemma SamePage(v: nat, w: nat)
    ensures Prefix(v, 1) == Prefix(w, 1) && Slot(v, 1) == Slot(w, 1) <==> PageNumber(v) == PageNumber(w)
    ensures PageNumber(v) == PageNumber(w) ==> forall k :: 1 <= k <= 4 ==> Slot(v, k) == Slot(w, k)
  {
    assert PageNumber(v) == Prefix(v, 1) * 512 + Slot(v, 1);
    assert PageNumber(w) == Prefix(w, 1) * 512 + Slot(w, 1);
    PrefixStep(v, 4); PrefixStep(v, 3); PrefixStep(v, 2);
    PrefixStep(w, 4); PrefixStep(w, 3); PrefixStep(w, 2);
  }

  // ----- Entries in physical memory -----

  function Entry(m: Mem, f: nat, i: nat): nat {
    Rd64(m, f * 4096 + i * 8)
  }

  function WithEntry(m: Mem, f: nat, i: nat, w: nat): Mem {
    Wr64(m, f * 4096 + i * 8, w)
  }

  function Cleared(m: Mem, f: nat): Mem {
    Zero(m, f * 4096, 4096)
  }

  lemma OtherEntryAfterWrite(m: Mem, f: nat, i: nat, w: nat, g: nat, j: nat)
    requires i < 512 && j < 512 && !(g == f && j == i)
    ensures Entry(WithEntry(m, f, i, w), g, j) == Entry(m, g, j)
  {
    hide RdLe, WrLe, Rd8;
    assert g * 4096 + j * 8 + 8 <= f * 4096 + i * 8 || f * 4096 + i * 8 + 8 <= g * 4096 + j * 8;
    WrLeBytes(m, f * 4096 + i * 8, WordBytes(m), w);
    RdLeSame(m, WithEntry(m, f, i, w), g * 4096 + j * 8, WordBytes(m));
  }

  lemma EntryWritten(m: Mem, f: nat, i: nat, w: nat)
    requires w < WORD_LIMIT
    ensures Entry(WithEntry(m, f, i, w), f, i) == w
  {
    hide Rd64, Wr64;
    RdWr64(m, f * 4096 + i * 8, w);
  }

  lemma EntryAfterWrite(m: Mem, f: nat, i: nat, w: nat)
    requires i < 512 && w < WORD_LIMIT
    ensures forall g: nat, j: nat :: j < 512 ==>
              Entry(WithEntry(m, f, i, w), g, j) == if g == f && j == i then w else Entry(m, g, j)
  {
    hide Entry, WithEntry;
    EntryWritten(m, f, i, w);
    forall g: nat, j: nat | j < 512 && !(g == f && j == i)
      ensures Entry(WithEntry(m, f, i, w), g, j) == Entry(m, g, j)
    {
      OtherEntryAfterWrite(m, f, i, w, g, j);
    }
  }

  lemma EntryAfterClear(m: Mem, f: nat)
    ensures forall g: nat, j: nat :: j < 512 ==>
              Entry(Cleared(m, f), g, j) == if g == f then 0 else Entry(m, g, j)
  {
    var m' := Cleared(m, f);
    ZeroBytes(m, f * 4096, 4096);
    forall g: nat, j: nat | j < 512 ensures Entry(m', g, j) == if g == f then 0 else Entry(m, g, j) {
      if g == f {
        RdLeZero(m', g * 4096 + j * 8, 8);
      } else {
        RdLeSame(m, m', g * 4096 + j * 8, 8);
      }
    }
  }

  // ----- The walk -----

  /** `vmm_get_page` below the table `f` of the given level. */
  function Walk(m: Mem, f: nat, level: nat, v: nat): nat
    requires 1 <= level <= 4
    decreases level
  {
    var e := Entry(m, f, Slot(v, level));
    if level == 1 then e
    else if !Present(e) then 0
    else if Large(e) then e
    else Walk(m, FrameOf(e), level - 1, v)
  }

  function GetPage(m: Mem, root: nat, v: nat): nat {
    Walk(m, root, 4, v)
  }

  /** The level-1 table that resolves `v`, when no entry above it is missing or large. */
  function Leaf(m: Mem, f: nat, level: nat, v: nat): Option<nat>
    requires 1 <= level <= 4
    decreases level
  {
    if level == 1 then Some(f)
    else
      var e := Entry(m, f, Slot(v, level));
      if !Present(e) || Large(e) then None else Leaf(m, FrameOf(e), level - 1, v)
  }

  /** No large entry on the path of `v`: `vmm_map_page` does not look at PAGE_LARGE. */
  predicate LargeFree(m: Mem, f: nat, level: nat, v: nat)
    requires 1 <= level <= 4
    decreases level
  {
    level > 1 ==>
      var e := Entry(m, f, Slot(v, level));
      Present(e) ==> !Large(e) && LargeFree(m, FrameOf(e), level - 1, v)
  }

  // ----- The tree invariant -----

  datatype Role = Role(level: nat, prefix: nat)

  /** Which slots of a root were set up: all of the boot root, only the kernel half of a later one. */
  datatype Extent = Full | KernelOnly

  /** PML4 slots of PHYSICAL_MEMORY, MMIO_REGION and KERNEL_HEAP. */
  predicate KernelSlot(s: nat) {
    256 <= s <= 258
  }

  /** `roles` gives every table frame its one role; `spaces` are the roots. */
  datatype Layout = Layout(roles: map<nat, Role>, spaces: map<nat, Extent>)

  predicate InSpace(t: Layout, r: nat, s: nat) {
    r in t.spaces && (t.spaces[r].Full? || KernelSlot(s))
  }

  /** Entry `i` of `f` is part of the tree. */
  predicate Managed(t: Layout, f: nat, i: nat) {
    && f in t.roles && i < 512 && 2 <= t.roles[f].level <= 4
    && (t.roles[f].level == 4 ==> InSpace(t, f, i))
  }

  predicate Linked(m: Mem, t: Layout, f: nat, i: nat)
    requires f in t.roles && t.roles[f].level >= 2
  {
    var e := Entry(m, f, i);
    Present(e) && !Large(e) ==>
      FrameOf(e) in t.roles && t.roles[FrameOf(e)] == Role(t.roles[f].level - 1, t.roles[f].prefix * 512 + i)
  }

  ghost predicate Tree(m: Mem, t: Layout) {
    && (forall r :: r in t.spaces ==> r in t.roles && t.roles[r] == Role(4, 0))
    && (forall f, i :: Managed(t, f, i) ==> Linked(m, t, f, i))
  }

  datatype Vm = Vm(mem: Mem, frames: Pmm.Frames, cr3: nat)

  ghost predicate FramesOk(fr: Pmm.Frames) {
    Pmm.Ready(fr) && !fr.locked && fr.highest < WORD_LIMIT
  }

  ghost predicate Inv(vm: Vm, t: Layout) {
    && Tree(vm.mem, t)
    && FramesOk(vm.frames)
    && (forall f :: f in t.roles ==> f !in vm.frames.free && f < WINDOW)
  }

  /** `v` belongs to the part of the address space that `r` set up. */
  predicate Covers(t: Layout, r: nat, v: nat) {
    InSpace(t, r, Slot(v, 4))
  }

  // ----- Mapping a page -----

  /** One level of `vmm_map_page`: the table behind entry `i` of `f`, allocated if it is missing. `None` if the kernel
      does not get on: the endless loop after "out of memory", or the fault on a table outside the window. */
  function EnsureTable(vm: Vm, f: nat, i: nat): Option<(Vm, nat)>
    requires vm.frames.highest >= Pmm.PAGE
  {
    var e := Entry(vm.mem, f, i);
    if f >= WINDOW then None
    else if Present(e) then Some((vm, FrameOf(e)))
    else
      var (fr, r) := Pmm.Alloc(vm.frames);
      match r
      case None => None
      case Some(p) =>
        if p >= WINDOW then None else
        var linked := WithEntry(vm.mem, f, i, BitOr(p * 4096, TABLE_FLAGS));
        Some((vm.(mem := Cleared(linked, p), frames := fr), p))
  }

  lemma EnsureTableHighest(vm: Vm, f: nat, i: nat)
    requires vm.frames.highest >= Pmm.PAGE
    ensures var r := EnsureTable(vm, f, i); r.Some? ==>
              r.value.0.frames.highest == vm.frames.highest
              && r.value.0.cr3 == vm.cr3
  {
  }

  /** From table `f` down to the level-1 table for `v`, creating what is missing. */
  function Descend(vm: Vm, f: nat, level: nat, v: nat): Option<(Vm, nat)>
    requires vm.frames.highest >= Pmm.PAGE && 1 <= level <= 4
    decreases level
  {
    if level == 1 then Some((vm, f))
    else
      EnsureTableHighest(vm, f, Slot(v, level));
      match EnsureTable(vm, f, Slot(v, level))
      case None => None
      case Some((vm', p)) => Descend(vm', p, level - 1, v)
  }

  /** `vmm_map_page` */
  function MapPage(vm: Vm, v: nat, phys: nat, flags: nat): Option<Vm>
    requires vm.frames.highest >= Pmm.PAGE
  {
    match Descend(vm, vm.cr3, 4, v)
    case None => None
    case Some((vm', pt)) =>
      if pt >= WINDOW then None
      else Some(vm'.(mem := WithEntry(vm'.mem, pt, Slot(v, 1), BitOr(phys, flags))))
  }

  // ----- Proof: one level -----

  lemma ZeroEntry()
    ensures !Present(0)
  {
  }

  /** A new, empty table behind a missing entry changes no walk. */
  lemma {:induction false} NewTableInvisible(m: Mem, m': Mem, t: Layout, f: nat, i: nat, p: nat, g: nat, level: nat,
                                             v: nat)
    requires 1 <= level <= 4 && Tree(m, t) && Managed(t, f, i)
    requires g in t.roles && t.roles[g] == Role(level, Prefix(v, level))
    requires level == 4 ==> Covers(t, g, v)
    requires !Present(Entry(m, f, i)) && Entry(m', f, i) == p * 4096 + TABLE_FLAGS
    requires forall j :: 0 <= j < 512 ==> Entry(m', p, j) == 0
    requires forall h: nat, j: nat :: h in t.roles && j < 512 && !(h == f && j == i) ==>
             Entry(m', h, j) == Entry(m, h, j)
    ensures Walk(m', g, level, v) == Walk(m, g, level, v)
    ensures LargeFree(m', g, level, v) == LargeFree(m, g, level, v)
    ensures Leaf(m, g, level, v).Some? ==> Leaf(m', g, level, v) == Leaf(m, g, level, v)
    decreases level
  {
    hide Entry, Slot, Prefix, Present, Large, FrameOf;
    var s := Slot(v, level);
    if level > 1 {
      PrefixStep(v, level);
      assert Managed(t, g, s) && Linked(m, t, g, s);
      ZeroEntry();
      if g == f && s == i {
        TableEntry(p, TABLE_FLAGS);
        assert Entry(m', p, Slot(v, level - 1)) == 0;
      } else {
        var e := Entry(m, g, s);
        if Present(e) && !Large(e) {
          NewTableInvisible(m, m', t, f, i, p, FrameOf(e), level - 1, v);
        }
      }
    }
  }

  /** The layout after `EnsureTable`. */
  ghost function Extended(vm: Vm, t: Layout, f: nat, i: nat): Layout
    requires vm.frames.highest >= Pmm.PAGE
  {
    var r := EnsureTable(vm, f, i);
    if r.None? || Present(Entry(vm.mem, f, i)) || f !in t.roles || t.roles[f].level < 2 then t
    else t.(roles := t.roles[r.value.1 := Role(t.roles[f].level - 1, t.roles[f].prefix * 512 + i)])
  }

  /** Nothing that any address space can see differs between the two memories. */
  ghost predicate SameView(m: Mem, m': Mem, t: Layout) {
    forall r, v: nat :: Covers(t, r, v) ==>
      Walk(m', r, 4, v) == Walk(m, r, 4, v) && LargeFree(m', r, 4, v) == LargeFree(m, r, 4, v)
  }

  lemma EnsureTableFresh(vm: Vm, t: Layout, f: nat, i: nat)
    requires Inv(vm, t) && Managed(t, f, i) && !Present(Entry(vm.mem, f, i))
    requires EnsureTable(vm, f, i).Some?
    ensures var (vm', p) := EnsureTable(vm, f, i).value;
            && p in vm.frames.free && p !in t.roles
            && vm'.frames == vm.frames.(free := vm.frames.free - {p}, used := vm.frames.used + 1)
            && FramesOk(vm'.frames) && vm'.cr3 == vm.cr3
            && Entry(vm'.mem, f, i) == p * 4096 + TABLE_FLAGS
            && (forall j :: 0 <= j < 512 ==> Entry(vm'.mem, p, j) == 0)
            && (forall h: nat, j: nat :: h != p && j < 512 && !(h == f && j == i) ==>
                Entry(vm'.mem, h, j) == Entry(vm.mem, h, j))
            && (forall x: nat :: x / 4096 != p && x / 4096 != f ==> Rd8(vm'.mem, x) == Rd8(vm.mem, x))
  {
    hide Entry, WithEntry, Cleared, BitOr, Present, FrameOf, Rd8;
    Pmm.AllocTakesLowest(vm.frames);
    var p := Pmm.Alloc(vm.frames).1.value;
    OrFlags(p, TABLE_FLAGS);
    var w := BitOr(p * 4096, TABLE_FLAGS);
    EntryAfterWrite(vm.mem, f, i, w);
    EntryAfterClear(WithEntry(vm.mem, f, i, w), p);
    LeafWriteBytes(vm.mem, f, i, w);
    ClearedBytes(WithEntry(vm.mem, f, i, w), p);
  }

  lemma ClearedBytes(m: Mem, f: nat)
    ensures forall x: nat :: x / 4096 != f ==> Rd8(Cleared(m, f), x) == Rd8(m, x)
  {
    ZeroBytes(m, f * 4096, 4096);
  }

  lemma EnsureTableKeepsTree(vm: Vm, t: Layout, f: nat, i: nat)
    requires Inv(vm, t) && Managed(t, f, i) && EnsureTable(vm, f, i).Some?
    requires Present(Entry(vm.mem, f, i)) ==> !Large(Entry(vm.mem, f, i))
    ensures var (vm', p) := EnsureTable(vm, f, i).value;
            var t' := Extended(vm, t, f, i);
            && Inv(vm', t') && vm'.cr3 == vm.cr3
            && p in t'.roles && t'.roles[p] == Role(t.roles[f].level - 1, t.roles[f].prefix * 512 + i)
            && Present(Entry(vm'.mem, f, i)) && !Large(Entry(vm'.mem, f, i)) && FrameOf(Entry(vm'.mem, f, i)) == p
  {
    hide Entry, WithEntry, Cleared, BitOr, Present, Large, FrameOf;
    var (vm', p) := EnsureTable(vm, f, i).value;
    var t' := Extended(vm, t, f, i);
    assert Linked(vm.mem, t, f, i);
    if !Present(Entry(vm.mem, f, i)) {
      EnsureTableFresh(vm, t, f, i);
      TableEntry(p, TABLE_FLAGS);
      ZeroEntry();
      forall g, j | Managed(t', g, j) ensures Linked(vm'.mem, t', g, j) {
        if g != p {
          assert Managed(t, g, j) && Linked(vm.mem, t, g, j);
        }
      }
    }
  }

  lemma EnsureTableSameView(vm: Vm, t: Layout, f: nat, i: nat)
    requires Inv(vm, t) && Managed(t, f, i) && EnsureTable(vm, f, i).Some?
    ensures SameView(vm.mem, EnsureTable(vm, f, i).value.0.mem, t)
  {
    var (vm', p) := EnsureTable(vm, f, i).value;
    if !Present(Entry(vm.mem, f, i)) {
      EnsureTableFresh(vm, t, f, i);
      forall r, v: nat | Covers(t, r, v)
        ensures Walk(vm'.mem, r, 4, v) == Walk(vm.mem, r, 4, v)
                && LargeFree(vm'.mem, r, 4, v) == LargeFree(vm.mem, r, 4, v)
      {
        NewTableInvisible(vm.mem, vm'.mem, t, f, i, p, r, 4, v);
      }
    }
  }

  // ----- Proof: the whole descent -----

  ghost predicate Extends(t: Layout, t': Layout) {
    forall f :: f in t.roles ==> f in t'.roles && t'.roles[f] == t.roles[f]
  }

  /** What any number of new tables do: the layout grows by exactly the frames taken, at most `n` of
      them, nobody's view changes, and bytes outside the tables stay. */
  ghost predicate Grown(vm: Vm, t: Layout, vm': Vm, t': Layout, n: nat) {
    && Inv(vm', t') && vm'.cr3 == vm.cr3 && t'.spaces == t.spaces
    && SameView(vm.mem, vm'.mem, t)
    && vm'.frames.free <= vm.frames.free
    && vm'.frames == vm.frames.(free := vm'.frames.free, used := vm.frames.used + |vm.frames.free| - |vm'.frames.free|)
    && |vm.frames.free| - |vm'.frames.free| <= n
    && Extends(t, t')
    && t'.roles.Keys - t.roles.Keys == vm.frames.free - vm'.frames.free
    && (forall x: nat :: x / 4096 !in t'.roles ==> Rd8(vm'.mem, x) == Rd8(vm.mem, x))
  }

  lemma EnsureTableGrown(vm: Vm, t: Layout, f: nat, i: nat)
    requires Inv(vm, t) && Managed(t, f, i) && EnsureTable(vm, f, i).Some?
    requires Present(Entry(vm.mem, f, i)) ==> !Large(Entry(vm.mem, f, i))
    ensures Grown(vm, t, EnsureTable(vm, f, i).value.0, Extended(vm, t, f, i), 1)
  {
    hide Entry, WithEntry, Cleared, BitOr;
    EnsureTableKeepsTree(vm, t, f, i);
    EnsureTableSameView(vm, t, f, i);
    if !Present(Entry(vm.mem, f, i)) {
      EnsureTableFresh(vm, t, f, i);
    }
  }

  lemma GrownTransitive(a: Vm, ta: Layout, b: Vm, tb: Layout, c: Vm, tc: Layout, n: nat, k: nat)
    requires Grown(a, ta, b, tb, n) && Grown(b, tb, c, tc, k)
    ensures Grown(a, ta, c, tc, n + k)
  {
    hide Walk, LargeFree, Inv;
    assert a.frames.free - c.frames.free == (a.frames.free - b.frames.free) + (b.frames.free - c.frames.free);
  }

  lemma GrownNothing(vm: Vm, t: Layout)
    requires Inv(vm, t)
    ensures Grown(vm, t, vm, t, 0)
  {
  }

  /** The layout after the descent. */
  ghost function Descended(vm: Vm, t: Layout, f: nat, level: nat, v: nat): Layout
    requires vm.frames.highest >= Pmm.PAGE && 1 <= level <= 4
    decreases level
  {
    if level == 1 then t
    else
      EnsureTableHighest(vm, f, Slot(v, level));
      match EnsureTable(vm, f, Slot(v, level))
      case None => t
      case Some((vm', p)) => Descended(vm', Extended(vm, t, f, Slot(v, level)), p, level - 1, v)
  }

  /** The descent ends at the level-1 table of `v`, whose role is `v`'s prefix. */
  lemma {:induction false} DescendCorrect(vm: Vm, t: Layout, f: nat, level: nat, v: nat)
    requires Inv(vm, t) && 1 <= level <= 4
    requires f in t.roles && t.roles[f] == Role(level, Prefix(v, level)) && (level == 4 ==> Covers(t, f, v))
    requires LargeFree(vm.mem, f, level, v) && Descend(vm, f, level, v).Some?
    ensures var (vm', pt) := Descend(vm, f, level, v).value;
            var t' := Descended(vm, t, f, level, v);
            && Grown(vm, t, vm', t', level - 1)
            && Leaf(vm'.mem, f, level, v) == Some(pt)
            && pt in t'.roles && t'.roles[pt] == Role(1, Prefix(v, 1))
            && (forall h: nat, j: nat :: j < 512 && h in t.roles && t.roles[h].level > level ==>
                Entry(vm'.mem, h, j) == Entry(vm.mem, h, j))
    decreases level
  {
    hide Entry, Slot, Prefix, WithEntry, Cleared, BitOr, Grown;
    if level == 1 {
      GrownNothing(vm, t);
    } else {
      var s := Slot(v, level);
      PrefixStep(v, level);
      assert Managed(t, f, s);
      var (vm1, p) := EnsureTable(vm, f, s).value;
      var t1 := Extended(vm, t, f, s);
      EnsureTableKeepsTree(vm, t, f, s);
      EnsureTableGrown(vm, t, f, s);
      EnsureTableHighest(vm, f, s);
      if !Present(Entry(vm.mem, f, s)) {
        EnsureTableFresh(vm, t, f, s);
        assert Entry(vm1.mem, p, Slot(v, level - 1)) == 0;
      }
      assert LargeFree(vm1.mem, p, level - 1, v);
      DescendCorrect(vm1, t1, p, level - 1, v);
      var t' := Descended(vm1, t1, p, level - 1, v);
      var (vm', pt) := Descend(vm1, p, level - 1, v).value;
      GrownTransitive(vm, t, vm1, t1, vm', t', 1, level - 2);
      assert t1.roles[f].level > level - 1;
      assert Entry(vm'.mem, f, s) == Entry(vm1.mem, f, s);
    }
  }

  // ----- Proof: the leaf entry -----

  /** Writing one entry of a level-1 table changes the walk of that page and of no other. */
  lemma {:induction false} LeafWrite(m: Mem, t: Layout, pt: nat, j: nat, w: nat, g: nat, level: nat, v: nat)
    requires Tree(m, t) && 1 <= level <= 4 && j < 512 && w < WORD_LIMIT
    requires pt in t.roles && t.roles[pt].level == 1
    requires g in t.roles && t.roles[g] == Role(level, Prefix(v, level)) && (level == 4 ==> Covers(t, g, v))
    ensures var m' := WithEntry(m, pt, j, w);
            && Walk(m', g, level, v) == (if Leaf(m, g, level, v) == Some(pt) && Slot(v, 1) == j then w
                                         else Walk(m, g, level, v))
            && LargeFree(m', g, level, v) == LargeFree(m, g, level, v)
            && Leaf(m', g, level, v) == Leaf(m, g, level, v)
            && (Leaf(m, g, level, v) == Some(pt) ==> t.roles[pt] == Role(1, Prefix(v, 1)))
    decreases level
  {
    hide Entry, WithEntry, Slot, Prefix;
    EntryAfterWrite(m, pt, j, w);
    if level > 1 {
      var s := Slot(v, level);
      PrefixStep(v, level);
      assert Managed(t, g, s) && Linked(m, t, g, s);
      var e := Entry(m, g, s);
      if Present(e) && !Large(e) {
        LeafWrite(m, t, pt, j, w, FrameOf(e), level - 1, v);
      }
    }
  }

  lemma LeafWriteKeepsTree(m: Mem, t: Layout, pt: nat, j: nat, w: nat)
    requires Tree(m, t) && j < 512 && w < WORD_LIMIT && pt in t.roles && t.roles[pt].level == 1
    ensures Tree(WithEntry(m, pt, j, w), t)
  {
    hide Entry, WithEntry;
    EntryAfterWrite(m, pt, j, w);
    forall f, i | Managed(t, f, i) ensures Linked(WithEntry(m, pt, j, w), t, f, i) {
      assert Linked(m, t, f, i);
    }
  }

  /** The effect of mapping `v` under `cr3`: its own entry is the new one, every other page of every
      address space keeps its entry, and the tables grew by at most three frames. */
  ghost predicate Mapped(vm: Vm, t: Layout, vm': Vm, t': Layout, v: nat, w: nat) {
    && Inv(vm', t') && vm'.cr3 == vm.cr3 && t'.spaces == t.spaces
    && GetPage(vm'.mem, vm.cr3, v) == w
    && (forall r, x: nat :: Covers(t, r, x) && PageNumber(x) != PageNumber(v) ==>
        GetPage(vm'.mem, r, x) == GetPage(vm.mem, r, x))
    && (forall r, x: nat :: Covers(t, r, x) ==> LargeFree(vm'.mem, r, 4, x) == LargeFree(vm.mem, r, 4, x))
    && vm'.frames.free <= vm.frames.free
    && vm'.frames == vm.frames.(free := vm'.frames.free, used := vm.frames.used + |vm.frames.free| - |vm'.frames.free|)
    && |vm.frames.free| - |vm'.frames.free| <= 3
    && Extends(t, t')
    && t'.roles.Keys - t.roles.Keys == vm.frames.free - vm'.frames.free
    && (forall x: nat :: x / 4096 !in t'.roles ==> Rd8(vm'.mem, x) == Rd8(vm.mem, x))
  }

  lemma LeafWriteBytes(m: Mem, pt: nat, j: nat, w: nat)
    requires j < 512
    ensures forall x: nat :: x / 4096 != pt ==> Rd8(WithEntry(m, pt, j, w), x) == Rd8(m, x)
  {
    WrLeBytes(m, pt * 4096 + j * 8, WordBytes(m), w);
  }

  /** Page-table refinement: `vmm_map_page` is an update of the flat map at one page. */
  lemma MapPageRefines(vm: Vm, t: Layout, v: nat, phys: nat, flags: nat)
    requires Inv(vm, t) && Covers(t, vm.cr3, v) && LargeFree(vm.mem, vm.cr3, 4, v)
    requires phys < WORD_LIMIT && flags < WORD_LIMIT && MapPage(vm, v, phys, flags).Some?
    ensures Mapped(vm, t, MapPage(vm, v, phys, flags).value, Descended(vm, t, vm.cr3, 4, v), v, BitOr(phys, flags))
  {
    hide Entry, Slot, Prefix, WithEntry, BitOr, Walk, Leaf, LargeFree, PageNumber;
    var w := BitOr(phys, flags);
    OrWord(phys, flags);
    PrefixRoot(v);
    DescendCorrect(vm, t, vm.cr3, 4, v);
    var t' := Descended(vm, t, vm.cr3, 4, v);
    var (vm1, pt) := Descend(vm, vm.cr3, 4, v).value;
    LeafWriteKeepsTree(vm1.mem, t', pt, Slot(v, 1), w);
    LeafWriteBytes(vm1.mem, pt, Slot(v, 1), w);
    var m' := WithEntry(vm1.mem, pt, Slot(v, 1), w);
    LeafWrite(vm1.mem, t', pt, Slot(v, 1), w, vm.cr3, 4, v);
    forall r, x: nat | Covers(t, r, x)
      ensures PageNumber(x) != PageNumber(v) ==> GetPage(m', r, x) == GetPage(vm.mem, r, x)
      ensures LargeFree(m', r, 4, x) == LargeFree(vm.mem, r, 4, x)
    {
      PrefixRoot(x);
      LeafWrite(vm1.mem, t', pt, Slot(v, 1), w, r, 4, x);
      SamePage(v, x);
    }
  }

  lemma PrefixRoot(v: nat)
    ensures Prefix(v, 4) == 0
  {
  }
}
