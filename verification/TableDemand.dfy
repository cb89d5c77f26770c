/** How many frames a mapping needs: the tables missing on its path, and for a range of pages the missing tables of all
    of them, each counted once. A new table must lie in the window, and frames are given out from the bottom, so that it
    matters how many of the first frames are needed. With that, when `vmm_map_page`, `vmm_alloc` and `kmalloc` succeed
    and how they fail (kernel/src/mm/vmm.c, kernel/src/mm/mm.c). */
module TableDemand {
  import opened Memory
  import opened PageTable
  import opened Vmm
  import Pmm
  import Heap

  // ----- The tables a page needs -----

  /** The tables below `level` that resolve `v`. */
  function Path(v: nat, level: nat): set<Role>
    requires 1 <= level <= 4
  {
    if level == 1 then {} else Path(v, level - 1) + {Role(level - 1, Prefix(v, level - 1))}
  }

  /** Those of them that do not exist yet. */
  function Missing(m: Mem, f: nat, level: nat, v: nat): set<Role>
    requires 1 <= level <= 4
    decreases level
  {
    if level == 1 then {}
    else
      var e := Entry(m, f, Slot(v, level));
      if Present(e) then Missing(m, FrameOf(e), level - 1, v) else Path(v, level)
  }

  /** The missing tables of the `n` pages from `ptr` up. */
  function MissingRange(m: Mem, root: nat, ptr: nat, n: nat): set<Role> {
    if n == 0 then {} else MissingRange(m, root, ptr, n - 1) + Missing(m, root, 4, Page(ptr, n - 1))
  }

  /** Frames for the first `n` pages: one each, and the tables. */
  function Demand(vm: Vm, ptr: nat, n: nat): nat {
    n + |MissingRange(vm.mem, vm.cr3, ptr, n)|
  }

  /** How many of these are taken up to the last of the new tables. */
  function TableDemand(vm: Vm, ptr: nat, n: nat): nat {
    if n == 0 then 0
    else if Demand(vm, ptr, n) == Demand(vm, ptr, n - 1) + 1 then TableDemand(vm, ptr, n - 1)
    else Demand(vm, ptr, n)
  }

  ghost function Supply(vm: Vm): nat {
    |Pmm.Reachable(vm.frames)|
  }

  /** The frames to be had that lie in the window. */
  ghost function Near(fr: Pmm.Frames): set<nat> {
    set p | p in Pmm.Reachable(fr) && p < WINDOW
  }

  ghost function NearSupply(vm: Vm): nat {
    |Near(vm.frames)|
  }

  function AtMost(n: nat, k: nat): nat {
    if k <= n then n - k else 0
  }

  /** `k` frames were taken, from the bottom. */
  ghost predicate Taken(vm: Vm, vm': Vm, k: nat) {
    Supply(vm') == Supply(vm) - k && NearSupply(vm') == AtMost(NearSupply(vm), k)
  }

  lemma NearFew(vm: Vm)
    ensures NearSupply(vm) <= Supply(vm)
  {
    Pmm.SubsetSize(Near(vm.frames), Pmm.Reachable(vm.frames));
  }

  lemma TakeNear(fr: Pmm.Frames)
    requires Pmm.Ready(fr) && Pmm.Alloc(fr).1.Some?
    ensures var (fr', a) := Pmm.Alloc(fr);
            && |Pmm.Reachable(fr')| == |Pmm.Reachable(fr)| - 1 && |Near(fr')| == AtMost(|Near(fr)|, 1)
            && (a.value < WINDOW <==> |Near(fr)| > 0)
  {
    hide Pmm.Alloc;
    Pmm.AllocTakesLowest(fr);
    var (fr', a) := Pmm.Alloc(fr);
    var q := a.value;
    if q < WINDOW {
      assert q in Near(fr) && Near(fr') == Near(fr) - {q};
    } else {
      assert Near(fr) == {} && Near(fr') == {};
    }
  }

  lemma {:induction false} PathLevels(v: nat, level: nat)
    requires 1 <= level <= 4
    ensures |Path(v, level)| == level - 1
    ensures forall r :: r in Path(v, level) <==> 1 <= r.level < level && r == Role(r.level, Prefix(v, r.level))
  {
    hide Prefix;
    if level > 1 {
      PathLevels(v, level - 1);
    }
  }

  lemma {:induction false} MissingOnPath(m: Mem, f: nat, level: nat, v: nat)
    requires 1 <= level <= 4
    ensures Missing(m, f, level, v) <= Path(v, level)
    decreases level
  {
    hide Prefix, Slot, Entry;
    if level > 1 && Present(Entry(m, f, Slot(v, level))) {
      MissingOnPath(m, FrameOf(Entry(m, f, Slot(v, level))), level - 1, v);
    }
  }

  lemma SlotsApart(p: nat, i: nat, q: nat, j: nat)
    requires p != q && i < 512 && j < 512
    ensures p * 512 + i != q * 512 + j
  {
  }

  /** Addresses that part above a level part at every level from there down. */
  lemma {:induction false} PrefixesApart(x: nat, v: nat, level: nat, k: nat)
    requires 1 <= k <= level <= 3 && Prefix(x, level) != Prefix(v, level)
    ensures Prefix(x, k) != Prefix(v, k)
    decreases level - k
  {
    hide Prefix, Slot;
    if k < level {
      PrefixesApart(x, v, level, k + 1);
      PrefixStep(x, k + 1);
      PrefixStep(v, k + 1);
      SlotsApart(Prefix(x, k + 1), Slot(x, k + 1), Prefix(v, k + 1), Slot(v, k + 1));
    }
  }

  /** So they have no table in common there. */
  lemma PathsApart(x: nat, v: nat, level: nat)
    requires 2 <= level <= 4 && Prefix(x, level - 1) != Prefix(v, level - 1)
    ensures Path(x, level) !! Path(v, level)
  {
    hide Prefix, Path;
    PathLevels(x, level);
    PathLevels(v, level);
    forall r | r in Path(x, level) ensures r !in Path(v, level) {
      PrefixesApart(x, v, level - 1, r.level);
    }
  }

  // ----- One mapping -----

  lemma EnsureSupply(vm: Vm, t: Layout, f: nat, i: nat)
    requires Inv(vm, t) && Managed(t, f, i) && !Present(Entry(vm.mem, f, i))
    ensures EnsureTable(vm, f, i).Some? <==> NearSupply(vm) > 0
    ensures EnsureTable(vm, f, i).Some? ==>
              var (vm', p) := EnsureTable(vm, f, i).value;
              Taken(vm, vm', 1) && forall j :: 0 <= j < 512 ==> Entry(vm'.mem, p, j) == 0
  {
    hide Entry, WithEntry, Cleared, BitOr;
    Pmm.AllocTakesLowest(vm.frames);
    if Pmm.Alloc(vm.frames).1.Some? {
      TakeNear(vm.frames);
    }
    if EnsureTable(vm, f, i).Some? {
      EnsureTableFresh(vm, t, f, i);
    }
  }

  lemma MissingBehindNew(m: Mem, p: nat, level: nat, v: nat)
    requires 1 <= level <= 4 && forall j :: 0 <= j < 512 ==> Entry(m, p, j) == 0
    ensures Missing(m, p, level, v) == Path(v, level)
    ensures LargeFree(m, p, level, v)
  {
    ZeroEntry();
    assert level > 1 ==> Entry(m, p, Slot(v, level)) == 0;
  }

  /** What the next table leaves of the missing ones. */
  ghost predicate LevelTaken(vm: Vm, vm1: Vm, t1: Layout, f: nat, p: nat, level: nat, v: nat)
    requires 2 <= level <= 4
  {
    var k := if Present(Entry(vm.mem, f, Slot(v, level))) then 0 else 1;
    && Inv(vm1, t1) && p in t1.roles && t1.roles[p] == Role(level - 1, Prefix(v, level - 1))
       && LargeFree(vm1.mem, p, level - 1, v)
    && |Missing(vm.mem, f, level, v)| == k + |Missing(vm1.mem, p, level - 1, v)| && Taken(vm, vm1, k)
  }

  /** One table of the descent: it is there, or the window has a frame for it, or the descent stops. */
  lemma LevelSupply(vm: Vm, t: Layout, f: nat, level: nat, v: nat)
    requires Inv(vm, t) && 2 <= level <= 4
    requires f in t.roles && t.roles[f] == Role(level, Prefix(v, level)) && (level == 4 ==> Covers(t, f, v))
    requires LargeFree(vm.mem, f, level, v)
    ensures var r := EnsureTable(vm, f, Slot(v, level));
            && (r.Some? <==> Present(Entry(vm.mem, f, Slot(v, level))) || NearSupply(vm) > 0)
            && (r.Some? ==> LevelTaken(vm, r.value.0, Extended(vm, t, f, Slot(v, level)), f, r.value.1, level, v))
            && (Pmm.Alloc(vm.frames).1.Some? <==> Supply(vm) > 0)
            && (r.None? ==> |Missing(vm.mem, f, level, v)| > 0)
            && vm.frames.highest >= Pmm.PAGE
  {
    hide Entry, Slot, Prefix, WithEntry, Cleared, BitOr, EnsureTable, Supply, NearSupply, Extended, Missing, LargeFree;
    hide Pmm.Alloc;
    HighestOf(vm, t);
    var s := Slot(v, level);
    PrefixStep(v, level);
    assert Managed(t, f, s);
    NotLarge(vm.mem, f, level, v);
    TakeSupply(vm, t);
    var r := EnsureTable(vm, f, s);
    if Present(Entry(vm.mem, f, s)) {
      EnsurePresent(vm, t, f, s);
      EnsureTableKeepsTree(vm, t, f, s);
      MissingStep(vm.mem, f, level, v, r.value.1);
      LargeFreeStep(vm.mem, f, level, v);
    } else {
      MissingAll(vm.mem, f, level, v);
      EnsureSupply(vm, t, f, s);
      if r.Some? {
        EnsureTableKeepsTree(vm, t, f, s);
        MissingBehindNew(r.value.0.mem, r.value.1, level - 1, v);
        PathLevels(v, level - 1);
      }
    }
  }

  lemma LargeFreeStep(m: Mem, f: nat, level: nat, v: nat)
    requires 2 <= level <= 4 && LargeFree(m, f, level, v) && Present(Entry(m, f, Slot(v, level)))
    ensures LargeFree(m, FrameOf(Entry(m, f, Slot(v, level))), level - 1, v)
  {
  }

  lemma MissingAll(m: Mem, f: nat, level: nat, v: nat)
    requires 2 <= level <= 4 && !Present(Entry(m, f, Slot(v, level)))
    ensures |Missing(m, f, level, v)| == level - 1
  {
    PathLevels(v, level);
  }

  lemma NothingMissing(m: Mem, f: nat, v: nat)
    ensures Missing(m, f, 1, v) == {}
  {
  }

  /** The descent succeeds exactly when there are frames in the window for the missing tables, and takes just these. */
  lemma {:induction false} DescendSupply(vm: Vm, t: Layout, f: nat, level: nat, v: nat)
    requires Inv(vm, t) && 1 <= level <= 4
    requires f in t.roles && t.roles[f] == Role(level, Prefix(v, level)) && (level == 4 ==> Covers(t, f, v))
    requires LargeFree(vm.mem, f, level, v)
    ensures Descend(vm, f, level, v).Some? <==> |Missing(vm.mem, f, level, v)| <= NearSupply(vm)
    ensures Descend(vm, f, level, v).Some? ==>
            Taken(vm, Descend(vm, f, level, v).value.0, |Missing(vm.mem, f, level, v)|)
    decreases level
  {
    hide Entry, Slot, Prefix, EnsureTable, Missing, LargeFree, Supply, NearSupply, Extended, Inv, Path;
    if level == 1 {
      NothingMissing(vm.mem, f, v);
    } else {
      LevelSupply(vm, t, f, level, v);
      NearFew(vm);
      EnsureTableHighest(vm, f, Slot(v, level));
      var r := EnsureTable(vm, f, Slot(v, level));
      if r.Some? {
        DescendSupply(r.value.0, Extended(vm, t, f, Slot(v, level)), r.value.1, level - 1, v);
      }
    }
  }

  lemma EnsurePresent(vm: Vm, t: Layout, f: nat, i: nat)
    requires Inv(vm, t) && f in t.roles && Present(Entry(vm.mem, f, i))
    ensures EnsureTable(vm, f, i) == Some((vm, FrameOf(Entry(vm.mem, f, i))))
  {
  }

  /** The only entries of old tables that the descent writes are those on the path of `v`. */
  lemma {:induction false} DescendTouches(vm: Vm, t: Layout, f: nat, level: nat, v: nat)
    requires Inv(vm, t) && 1 <= level <= 4
    requires f in t.roles && t.roles[f] == Role(level, Prefix(v, level)) && (level == 4 ==> Covers(t, f, v))
    requires LargeFree(vm.mem, f, level, v) && Descend(vm, f, level, v).Some?
    ensures forall h: nat, j: nat :: h in t.roles && j < 512 && OffPath(t, h, j, v) ==>
              Entry(Descend(vm, f, level, v).value.0.mem, h, j) == Entry(vm.mem, h, j)
    decreases level
  {
    hide Entry, Slot, Prefix, WithEntry, Cleared, BitOr, EnsureTable;
    if level > 1 {
      var s := Slot(v, level);
      PrefixStep(v, level);
      assert Managed(t, f, s);
      EnsureTableHighest(vm, f, s);
      EnsureTableKeepsTree(vm, t, f, s);
      var (vm1, p) := EnsureTable(vm, f, s).value;
      if !Present(Entry(vm.mem, f, s)) {
        EnsureTableFresh(vm, t, f, s);
        MissingBehindNew(vm1.mem, p, level - 1, v);
      } else {
        EnsurePresent(vm, t, f, s);
      }
      var t1 := Extended(vm, t, f, s);
      DescendTouches(vm1, t1, p, level - 1, v);
      ExtendedKeeps(vm, t, f, s);
      forall h: nat, j: nat | h in t.roles && j < 512 && OffPath(t, h, j, v)
        ensures Entry(Descend(vm, f, level, v).value.0.mem, h, j) == Entry(vm.mem, h, j)
      {
        assert OffPath(t1, h, j, v);
        assert !(h == f && j == s);
      }
    }
  }

  lemma ExtendedKeeps(vm: Vm, t: Layout, f: nat, i: nat)
    requires Inv(vm, t) && Managed(t, f, i) && EnsureTable(vm, f, i).Some?
    requires Present(Entry(vm.mem, f, i)) ==> !Large(Entry(vm.mem, f, i))
    ensures Extends(t, Extended(vm, t, f, i))
  {
    hide Entry, WithEntry, Cleared, BitOr;
    EnsureTableGrown(vm, t, f, i);
  }

  /** Entry `j` of `h` is not the one that `v` goes through at that level. */
  predicate OffPath(t: Layout, h: nat, j: nat, v: nat)
    requires h in t.roles
  {
    var r := t.roles[h];
    1 <= r.level <= 4 ==> !(r.prefix == Prefix(v, r.level) && j == Slot(v, r.level))
  }

  /** An address that parts from `v` above `level` misses the same tables after the descent. */
  lemma {:induction false} MissingApart(m: Mem, m': Mem, t: Layout, g: nat, level: nat, x: nat, v: nat)
    requires Tree(m, t) && 1 <= level <= 4
    requires g in t.roles && t.roles[g] == Role(level, Prefix(x, level)) && (level == 4 ==> Covers(t, g, x))
    requires LargeFree(m, g, level, x)
    requires level > 1 ==> Prefix(x, level - 1) != Prefix(v, level - 1)
    requires forall h: nat, j: nat :: h in t.roles && j < 512 && OffPath(t, h, j, v) ==>
             Entry(m', h, j) == Entry(m, h, j)
    ensures Missing(m', g, level, x) == Missing(m, g, level, x)
    decreases level
  {
    hide Entry, Slot, Prefix;
    if level > 1 {
      var s := Slot(x, level);
      PrefixStep(x, level);
      PrefixStep(v, level);
      assert Managed(t, g, s) && Linked(m, t, g, s);
      assert OffPath(t, g, s, v);
      if level > 2 {
        PrefixStep(x, level - 1);
        PrefixStep(v, level - 1);
      }
      if Present(Entry(m, g, s)) {
        MissingApart(m, m', t, FrameOf(Entry(m, g, s)), level - 1, x, v);
      }
    }
  }

  /** After a mapping of `v`, every other address misses the same tables but those now made for `v`. */
  lemma {:induction false} DescendMissing(vm: Vm, t: Layout, f: nat, level: nat, v: nat, x: nat)
    requires Inv(vm, t) && 1 <= level <= 4
    requires f in t.roles && t.roles[f] == Role(level, Prefix(v, level)) && Prefix(x, level) == Prefix(v, level)
    requires level == 4 ==> Covers(t, f, v) && Covers(t, f, x)
    requires LargeFree(vm.mem, f, level, v) && LargeFree(vm.mem, f, level, x) && Descend(vm, f, level, v).Some?
    ensures Missing(Descend(vm, f, level, v).value.0.mem, f, level, x)
            == Missing(vm.mem, f, level, x) - Missing(vm.mem, f, level, v)
    decreases level
  {
    hide Entry, Slot, Prefix, WithEntry, Cleared, BitOr, EnsureTable, Path;
    if level > 1 {
      var s := Slot(v, level);
      PrefixStep(v, level);
      PrefixStep(x, level);
      DescendCorrect(vm, t, f, level, v);
      if Slot(x, level) == s {
        DescendMissingSame(vm, t, f, level, v, x);
      } else {
        DescendTouches(vm, t, f, level, v);
        MissingApart(vm.mem, Descend(vm, f, level, v).value.0.mem, t, f, level, x, v);
        PathsApart(x, v, level);
        MissingOnPath(vm.mem, f, level, x);
        MissingOnPath(vm.mem, f, level, v);
      }
    }
  }

  lemma MissingStep(m: Mem, f: nat, level: nat, v: nat, p: nat)
    requires 2 <= level <= 4 && Present(Entry(m, f, Slot(v, level))) && FrameOf(Entry(m, f, Slot(v, level))) == p
    ensures Missing(m, f, level, v) == Missing(m, p, level - 1, v)
  {
  }

  /** The tables missing before and after one level was made, for two addresses that share its entry. */
  ghost predicate LevelMade(m: Mem, m1: Mem, f: nat, p: nat, level: nat, v: nat, x: nat)
    requires 2 <= level <= 4
  {
    var r := Role(level - 1, Prefix(v, level - 1));
    && LargeFree(m1, p, level - 1, x)
    && Missing(m1, p, level - 1, x) == Missing(m, f, level, x) - {r}
    && (r in Missing(m, f, level, x) <==> !Present(Entry(m, f, Slot(v, level))))
  }

  lemma LevelThere(m: Mem, f: nat, level: nat, v: nat, x: nat)
    requires 2 <= level <= 4 && LargeFree(m, f, level, x) && Present(Entry(m, f, Slot(v, level)))
    requires Slot(x, level) == Slot(v, level) && Prefix(x, level - 1) == Prefix(v, level - 1)
    ensures LevelMade(m, m, f, FrameOf(Entry(m, f, Slot(v, level))), level, v, x)
  {
    hide Entry, Slot, Prefix, Path;
    MissingOnPath(m, FrameOf(Entry(m, f, Slot(v, level))), level - 1, x);
    PathLevels(x, level - 1);
  }

  lemma LevelAdded(m: Mem, m1: Mem, f: nat, p: nat, level: nat, v: nat, x: nat)
    requires 2 <= level <= 4 && !Present(Entry(m, f, Slot(v, level)))
    requires Slot(x, level) == Slot(v, level) && Prefix(x, level - 1) == Prefix(v, level - 1)
    requires forall j :: 0 <= j < 512 ==> Entry(m1, p, j) == 0
    ensures LevelMade(m, m1, f, p, level, v, x)
  {
    hide Entry, Slot, Prefix;
    MissingBehindNew(m1, p, level - 1, x);
    PathLevels(x, level - 1);
    assert Missing(m, f, level, x) == Path(x, level) == Path(x, level - 1) + {Role(level - 1, Prefix(v, level - 1))};
    hide Missing, LargeFree;
  }

  lemma EnsureMissing(vm: Vm, t: Layout, f: nat, level: nat, v: nat, x: nat)
    requires Inv(vm, t) && 2 <= level <= 4 && Managed(t, f, Slot(v, level))
    requires LargeFree(vm.mem, f, level, x) && EnsureTable(vm, f, Slot(v, level)).Some?
    requires Slot(x, level) == Slot(v, level) && Prefix(x, level - 1) == Prefix(v, level - 1)
    ensures var (vm1, p) := EnsureTable(vm, f, Slot(v, level)).value; LevelMade(vm.mem, vm1.mem, f, p, level, v, x)
  {
    hide Entry, Slot, Prefix, Path, Missing, LargeFree, LevelMade, EnsureTable;
    var s := Slot(v, level);
    if Present(Entry(vm.mem, f, s)) {
      HighestOf(vm, t);
      EnsurePresent(vm, t, f, s);
      LevelThere(vm.mem, f, level, v, x);
    } else {
      EnsureTableFresh(vm, t, f, s);
      LevelAdded(vm.mem, EnsureTable(vm, f, s).value.0.mem, f, EnsureTable(vm, f, s).value.1, level, v, x);
    }
  }

  lemma {:induction false} DescendMissingSame(vm: Vm, t: Layout, f: nat, level: nat, v: nat, x: nat)
    requires Inv(vm, t) && 2 <= level <= 4
    requires f in t.roles && t.roles[f] == Role(level, Prefix(v, level)) && Prefix(x, level) == Prefix(v, level)
    requires level == 4 ==> Covers(t, f, v) && Covers(t, f, x)
    requires LargeFree(vm.mem, f, level, v) && LargeFree(vm.mem, f, level, x) && Descend(vm, f, level, v).Some?
    requires Slot(x, level) == Slot(v, level) && Prefix(x, level - 1) == Prefix(v, level - 1)
    ensures Missing(Descend(vm, f, level, v).value.0.mem, f, level, x)
            == Missing(vm.mem, f, level, x) - Missing(vm.mem, f, level, v)
    decreases level, 0
  {
    hide Entry, Slot, Prefix, WithEntry, Cleared, BitOr, EnsureTable, Missing, Path, LargeFree, Extended, Extends;
    var s := Slot(v, level);
    PrefixStep(v, level);
    EnsureTableHighest(vm, f, s);
    assert Managed(t, f, s);
    NotLarge(vm.mem, f, level, v);
    EnsureTableKeepsTree(vm, t, f, s);
    EnsureMissing(vm, t, f, level, v, v);
    EnsureMissing(vm, t, f, level, v, x);
    var (vm1, p) := EnsureTable(vm, f, s).value;
    var t1 := Extended(vm, t, f, s);
    DescendMissing(vm1, t1, p, level - 1, v, x);
    var m' := Descend(vm, f, level, v).value.0.mem;
    LinkStays(vm, t, f, level, v);
    MissingStep(m', f, level, x, p);
  }

  lemma NotLarge(m: Mem, f: nat, level: nat, v: nat)
    requires 2 <= level <= 4 && LargeFree(m, f, level, v)
    ensures Present(Entry(m, f, Slot(v, level))) ==> !Large(Entry(m, f, Slot(v, level)))
  {
  }

  /** The entry that links the first table below `f` is not written again. */
  lemma LinkStays(vm: Vm, t: Layout, f: nat, level: nat, v: nat)
    requires Inv(vm, t) && 2 <= level <= 4
    requires f in t.roles && t.roles[f] == Role(level, Prefix(v, level)) && (level == 4 ==> Covers(t, f, v))
    requires LargeFree(vm.mem, f, level, v) && Descend(vm, f, level, v).Some?
    ensures EnsureTable(vm, f, Slot(v, level)).Some?
    ensures var e := Entry(Descend(vm, f, level, v).value.0.mem, f, Slot(v, level));
            Present(e) && FrameOf(e) == EnsureTable(vm, f, Slot(v, level)).value.1
  {
    hide Entry, Slot, Prefix, WithEntry, Cleared, BitOr, EnsureTable;
    var s := Slot(v, level);
    PrefixStep(v, level);
    EnsureTableHighest(vm, f, s);
    assert Managed(t, f, s);
    EnsureTableKeepsTree(vm, t, f, s);
    EnsureMissing(vm, t, f, level, v, v);
    var (vm1, p) := EnsureTable(vm, f, s).value;
    var t1 := Extended(vm, t, f, s);
    ExtendedKeeps(vm, t, f, s);
    DescendCorrect(vm1, t1, p, level - 1, v);
    assert t1.roles[f].level > level - 1;
  }

  lemma {:induction false} LeafKeepsMissing(m: Mem, t: Layout, pt: nat, j: nat, w: nat, g: nat, level: nat, x: nat)
    requires Tree(m, t) && 1 <= level <= 4 && j < 512 && w < WORD_LIMIT
    requires pt in t.roles && t.roles[pt].level == 1
    requires g in t.roles && t.roles[g] == Role(level, Prefix(x, level)) && (level == 4 ==> Covers(t, g, x))
    requires LargeFree(m, g, level, x)
    ensures Missing(WithEntry(m, pt, j, w), g, level, x) == Missing(m, g, level, x)
    decreases level
  {
    hide Entry, WithEntry, Slot, Prefix, Path;
    EntryAfterWrite(m, pt, j, w);
    if level > 1 {
      var s := Slot(x, level);
      PrefixStep(x, level);
      assert Managed(t, g, s) && Linked(m, t, g, s);
      if Present(Entry(m, g, s)) {
        LeafKeepsMissing(m, t, pt, j, w, FrameOf(Entry(m, g, s)), level - 1, x);
      }
    }
  }

  /** What `before` becomes when the tables in `made` are made. */
  ghost predicate Made(t: Layout, root: nat, before: Mem, after: Mem, made: set<Role>) {
    forall x: nat :: Covers(t, root, x) && LargeFree(before, root, 4, x) ==>
      Missing(after, root, 4, x) == Missing(before, root, 4, x) - made
  }

  /** The descent takes a frame outside the window for a table. */
  predicate Faults(vm: Vm, f: nat, level: nat, v: nat)
    requires vm.frames.highest >= Pmm.PAGE && 1 <= level <= 4
    decreases level
  {
    if level == 1 then false
    else
      EnsureTableHighest(vm, f, Slot(v, level));
      match EnsureTable(vm, f, Slot(v, level))
      case None => Pmm.Alloc(vm.frames).1.Some?
      case Some((vm', p)) => Faults(vm', p, level - 1, v)
  }

  /** It does exactly when the window runs out of frames before the tables are made, and other frames are left. */
  lemma {:induction false} FaultsIff(vm: Vm, t: Layout, f: nat, level: nat, v: nat)
    requires Inv(vm, t) && 1 <= level <= 4
    requires f in t.roles && t.roles[f] == Role(level, Prefix(v, level)) && (level == 4 ==> Covers(t, f, v))
    requires LargeFree(vm.mem, f, level, v)
    ensures Faults(vm, f, level, v) <==> NearSupply(vm) < |Missing(vm.mem, f, level, v)| && NearSupply(vm) < Supply(vm)
    decreases level
  {
    hide Entry, Slot, Prefix, EnsureTable, Missing, LargeFree, Supply, NearSupply, Extended, Inv, Path;
    if level == 1 {
      NothingMissing(vm.mem, f, v);
    } else {
      LevelSupply(vm, t, f, level, v);
      NearFew(vm);
      EnsureTableHighest(vm, f, Slot(v, level));
      var r := EnsureTable(vm, f, Slot(v, level));
      if r.Some? {
        FaultsIff(r.value.0, Extended(vm, t, f, Slot(v, level)), r.value.1, level - 1, v);
      }
    }
  }

  /** `vmm_map_page` returns exactly when the window has a frame for every table it misses; then it takes just these,
      and they are no longer missing for any other page. If it does not return, it faults or loops by what is left
      outside the window. */
  lemma MapPageIff(vm: Vm, t: Layout, v: nat, phys: nat, flags: nat)
    requires Inv(vm, t) && Covers(t, vm.cr3, v) && LargeFree(vm.mem, vm.cr3, 4, v) && phys < WORD_LIMIT
             && flags < WORD_LIMIT
    ensures MapPage(vm, v, phys, flags).Some? <==> |Missing(vm.mem, vm.cr3, 4, v)| <= NearSupply(vm)
    ensures MapPage(vm, v, phys, flags).Some? ==>
              var vm' := MapPage(vm, v, phys, flags).value;
              && Taken(vm, vm', |Missing(vm.mem, vm.cr3, 4, v)|)
              && Made(t, vm.cr3, vm.mem, vm'.mem, Missing(vm.mem, vm.cr3, 4, v))
    ensures MapPage(vm, v, phys, flags).None? ==> (Faults(vm, vm.cr3, 4, v) <==> NearSupply(vm) < Supply(vm))
  {
    hide Entry, Slot, Prefix, WithEntry, BitOr, Leaf, LargeFree, Missing, Inv;
    PrefixRoot(v);
    RootRole(vm, t, v);
    DescendSupply(vm, t, vm.cr3, 4, v);
    FaultsIff(vm, t, vm.cr3, 4, v);
    if Descend(vm, vm.cr3, 4, v).Some? {
      OrWord(phys, flags);
      DescendCorrect(vm, t, vm.cr3, 4, v);
      var (vm1, pt) := Descend(vm, vm.cr3, 4, v).value;
      var t' := Descended(vm, t, vm.cr3, 4, v);
      LeafInWindow(vm1, t', pt);
      forall x: nat | Covers(t, vm.cr3, x) && LargeFree(vm.mem, vm.cr3, 4, x)
        ensures Missing(MapPage(vm, v, phys, flags).value.mem, vm.cr3, 4, x)
                == Missing(vm.mem, vm.cr3, 4, x) - Missing(vm.mem, vm.cr3, 4, v)
      {
        PrefixRoot(x);
        DescendMissing(vm, t, vm.cr3, 4, v, x);
        RootRole(vm1, t', x);
        LeafKeepsMissing(vm1.mem, t', pt, Slot(v, 1), BitOr(phys, flags), vm.cr3, 4, x);
      }
    }
  }

  lemma RootRole(vm: Vm, t: Layout, v: nat)
    requires Inv(vm, t) && Covers(t, vm.cr3, v)
    ensures vm.cr3 in t.roles && t.roles[vm.cr3] == Role(4, 0) && vm.frames.highest >= Pmm.PAGE && Tree(vm.mem, t)
  {
  }

  lemma LeafInWindow(vm: Vm, t: Layout, pt: nat)
    requires Inv(vm, t) && pt in t.roles
    ensures pt < WINDOW
  {
  }

  // ----- A range -----

  lemma DemandGrows(vm: Vm, ptr: nat, i: nat, n: nat)
    requires i < n
    ensures Demand(vm, ptr, i) < Demand(vm, ptr, n)
    decreases n
  {
    hide Missing;
    Pmm.SubsetSize(MissingRange(vm.mem, vm.cr3, ptr, n - 1), MissingRange(vm.mem, vm.cr3, ptr, n));
    if i < n - 1 {
      DemandGrows(vm, ptr, i, n - 1);
    }
  }

  lemma {:induction false} DemandBounds(vm: Vm, ptr: nat, n: nat)
    ensures n <= Demand(vm, ptr, n) <= 4 * n
  {
    hide Missing;
    if n > 0 {
      DemandBounds(vm, ptr, n - 1);
      var v := Page(ptr, n - 1);
      MissingOnPath(vm.mem, vm.cr3, 4, v);
      PathLevels(v, 4);
      Pmm.SubsetSize(Missing(vm.mem, vm.cr3, 4, v), Path(v, 4));
      Pmm.SetSizes(MissingRange(vm.mem, vm.cr3, ptr, n - 1), Missing(vm.mem, vm.cr3, 4, v));
    }
  }

  /** The supply runs out just as a frame is asked for one of the pages, with the tables so far in the window. */
  ghost predicate RunsOutBetween(vm: Vm, ptr: nat, n: nat) {
    exists i :: 0 <= i < n && Demand(vm, ptr, i) == Supply(vm) && TableDemand(vm, ptr, i) <= NearSupply(vm)
  }

  /** The frames suffice for `n` pages, and those in the window for their tables. */
  ghost predicate Suffices(vm: Vm, ptr: nat, n: nat) {
    Demand(vm, ptr, n) <= Supply(vm) && TableDemand(vm, ptr, n) <= NearSupply(vm)
  }

  lemma {:induction false} TableDemandGrows(vm: Vm, ptr: nat, i: nat, n: nat)
    requires i <= n
    ensures TableDemand(vm, ptr, i) <= TableDemand(vm, ptr, n) <= Demand(vm, ptr, n)
    decreases n
  {
    hide Demand;
    if n > 0 {
      DemandGrows(vm, ptr, n - 1, n);
      if i < n {
        TableDemandGrows(vm, ptr, i, n - 1);
      } else {
        TableDemandGrows(vm, ptr, n - 1, n - 1);
      }
    }
  }

  /** How the loop of `vmm_alloc` ends, from the state before it. */
  ghost predicate Outcome(vm: Vm, t: Layout, ptr: nat, n: nat, r: RangeResult) {
    && (r.Backed? <==> Suffices(vm, ptr, n))
    && (r.Null? <==> RunsOutBetween(vm, ptr, n))
    && (r.Backed? ==>
          && Taken(vm, r.vm, Demand(vm, ptr, n))
          && Made(t, vm.cr3, vm.mem, r.vm.mem, MissingRange(vm.mem, vm.cr3, ptr, n)))
  }

  /** The range is backed if and only if the reachable frames cover its pages and the missing tables, each once, and
      those in the window cover all that is taken up to the last table. If not, `vmm_alloc` returns NULL with the mutex
      held when the frames run out between two pages, and does not return when they run out under a page or a table
      would lie outside the window. */
  lemma {:induction false} BackRangeIff(vm: Vm, t: Layout, ptr: nat, n: nat, flags: nat)
    requires Inv(vm, t) && Reserved(vm, t, ptr, n) && flags < 4096
    ensures Outcome(vm, t, ptr, n, BackRange(vm, ptr, n, flags))
  {
    hide Walk, LargeFree, MapPage, Descended, Low48, Slot, RangeBacked, Mapped, Missing, Supply, NearSupply, Made;
    hide Outcome;
    if n == 0 {
      NothingNeeded(vm, t, ptr);
    } else {
      var r := BackRange(vm, ptr, n - 1, flags);
      BackRangeIff(vm, t, ptr, n - 1, flags);
      if r.Backed? {
        BackRangeCorrect(vm, t, ptr, n - 1, flags);
        BackRangeRound(vm, t, ptr, n - 1, flags);
      } else {
        OutcomeStays(vm, t, ptr, n - 1, r);
      }
    }
  }

  lemma NothingNeeded(vm: Vm, t: Layout, ptr: nat)
    ensures Outcome(vm, t, ptr, 0, Backed(vm, []))
  {
    hide Missing;
  }

  lemma OutcomeStays(vm: Vm, t: Layout, ptr: nat, n: nat, r: RangeResult)
    requires Outcome(vm, t, ptr, n, r) && !r.Backed?
    ensures Outcome(vm, t, ptr, n + 1, r)
  {
    hide Missing, Supply, NearSupply, Demand, TableDemand;
    DemandGrows(vm, ptr, n, n + 1);
    TableDemandGrows(vm, ptr, n, n + 1);
  }

  lemma RunsOutHere(vm: Vm, ptr: nat, n: nat)
    requires Suffices(vm, ptr, n)
    ensures RunsOutBetween(vm, ptr, n + 1) <==> Demand(vm, ptr, n) == Supply(vm)
  {
    hide Missing, Supply, NearSupply, Demand, TableDemand;
    forall i | 0 <= i < n ensures Demand(vm, ptr, i) < Supply(vm) {
      DemandGrows(vm, ptr, i, n);
    }
  }

  lemma BackRangeRound(vm: Vm, t: Layout, ptr: nat, n: nat, flags: nat)
    requires Inv(vm, t) && Reserved(vm, t, ptr, n + 1) && flags < 4096 && BackRange(vm, ptr, n, flags).Backed?
    requires Outcome(vm, t, ptr, n, BackRange(vm, ptr, n, flags))
    requires var r := BackRange(vm, ptr, n, flags);
             RangeBacked(vm, t, r.vm, BackedLayout(vm, t, ptr, n, flags), ptr, n, flags, r.frames)
    ensures Outcome(vm, t, ptr, n + 1, BackRange(vm, ptr, n + 1, flags))
  {
    hide Walk, LargeFree, MapPage, Descended, Low48, Slot, RangeBacked, Mapped, Missing, Made, RunsOutBetween;
    hide MissingRange;
    hide Supply, NearSupply, Demand, TableDemand, Pmm.Alloc, Inv;
    HighestOf(vm, t);
    var r := BackRange(vm, ptr, n, flags);
    var t1 := BackedLayout(vm, t, ptr, n, flags);
    var v := Page(ptr, n);
    RangeFacts(vm, t, r.vm, t1, ptr, n, flags, r.frames);
    RunsOutHere(vm, ptr, n);
    TakeSupply(r.vm, t1);
    var (fr, a) := Pmm.Alloc(r.vm.frames);
    MissingSplit(vm, t, r.vm.mem, ptr, n);
    NearFew(vm);
    TableDemandStep(vm, ptr, n);
    if a.Some? {
      var vm2 := r.vm.(frames := fr);
      MapPageIff(vm2, t1, v, a.value * 4096, flags);
      if MapPage(vm2, v, a.value * 4096, flags).Some? {
        MadeBoth(t, t1, vm.cr3, vm.mem, r.vm.mem, MapPage(vm2, v, a.value * 4096, flags).value.mem, ptr, n);
      }
    }
  }

  lemma TableDemandStep(vm: Vm, ptr: nat, n: nat)
    ensures TableDemand(vm, ptr, n) <= Demand(vm, ptr, n)
    ensures TableDemand(vm, ptr, n + 1)
            == if Demand(vm, ptr, n + 1) == Demand(vm, ptr, n) + 1 then TableDemand(vm, ptr, n)
                else Demand(vm, ptr, n + 1)
  {
    TableDemandGrows(vm, ptr, n, n);
  }

  lemma TakeSupply(vm: Vm, t: Layout)
    requires Inv(vm, t)
    ensures var (fr, a) := Pmm.Alloc(vm.frames);
            && (a.Some? <==> Supply(vm) > 0)
            && (a.Some? ==> Inv(vm.(frames := fr), t) && Taken(vm, vm.(frames := fr), 1) && a.value * 4096 < WORD_LIMIT)
            && (fr.highest >= Pmm.PAGE)
  {
    Pmm.AllocTakesLowest(vm.frames);
    if Pmm.Alloc(vm.frames).1.Some? {
      TakeNear(vm.frames);
      TakeFrame(vm, t);
    }
  }

  lemma MissingSplit(vm: Vm, t: Layout, m: Mem, ptr: nat, n: nat)
    requires Covers(t, vm.cr3, Page(ptr, n)) && LargeFree(vm.mem, vm.cr3, 4, Page(ptr, n))
    requires Made(t, vm.cr3, vm.mem, m, MissingRange(vm.mem, vm.cr3, ptr, n))
    ensures Demand(vm, ptr, n + 1) == Demand(vm, ptr, n) + 1 + |Missing(m, vm.cr3, 4, Page(ptr, n))|
  {
    hide Missing, LargeFree, Slot;
    Pmm.SetSizes(MissingRange(vm.mem, vm.cr3, ptr, n), Missing(vm.mem, vm.cr3, 4, Page(ptr, n)));
    Pmm.SetSizes(Missing(vm.mem, vm.cr3, 4, Page(ptr, n)), MissingRange(vm.mem, vm.cr3, ptr, n));
    assert MissingRange(vm.mem, vm.cr3, ptr, n) * Missing(vm.mem, vm.cr3, 4, Page(ptr, n))
        == Missing(vm.mem, vm.cr3, 4, Page(ptr, n)) * MissingRange(vm.mem, vm.cr3, ptr, n);
  }

  lemma MadeBoth(t: Layout, t1: Layout, root: nat, m0: Mem, m1: Mem, m2: Mem, ptr: nat, n: nat)
    requires t1.spaces == t.spaces && Covers(t, root, Page(ptr, n)) && LargeFree(m0, root, 4, Page(ptr, n))
    requires forall r, x: nat :: Covers(t, r, x) ==> LargeFree(m1, r, 4, x) == LargeFree(m0, r, 4, x)
    requires Made(t, root, m0, m1, MissingRange(m0, root, ptr, n))
    requires Made(t1, root, m1, m2, Missing(m1, root, 4, Page(ptr, n)))
    ensures Made(t, root, m0, m2, MissingRange(m0, root, ptr, n + 1))
  {
    hide Missing, LargeFree, Slot;
    forall x: nat | Covers(t, root, x) && LargeFree(m0, root, 4, x)
      ensures Missing(m2, root, 4, x) == Missing(m0, root, 4, x) - MissingRange(m0, root, ptr, n + 1)
    {
      assert Covers(t1, root, x) && LargeFree(m1, root, 4, x);
      assert Missing(m1, root, 4, x) == Missing(m0, root, 4, x) - MissingRange(m0, root, ptr, n);
    }
  }

  // ----- vmm_alloc and kmalloc -----

  /** Both early returns of `vmm_alloc` are passed: the counter test and the search. */
  predicate Admitted(vm: Vm, start: nat, count: nat) {
    vm.frames.total - vm.frames.used > count && FirstFit(vm, start, count).Some?
  }

  /** `vmm_alloc` gives the range exactly when it is admitted and can be backed; it does not return exactly when it is
      admitted, cannot be backed and the frames do not run out between two pages. */
  lemma AllocIff(vm: Vm, t: Layout, start: nat, count: nat, flags: nat)
    requires Inv(vm, t) && flags < 4096 && start > 0
    requires Admitted(vm, start, count) ==> Reserved(vm, t, FirstFit(vm, start, count).value, count)
    ensures var r := Alloc(vm, start, count, flags).0;
            && (r.Backed? <==> Admitted(vm, start, count) && Suffices(vm, FirstFit(vm, start, count).value, count))
            && (r.Stuck? <==> Admitted(vm, start, count)
                              && var p := FirstFit(vm, start, count).value;
                                 !Suffices(vm, p, count) && !RunsOutBetween(vm, p, count))
  {
    hide Inv, Reserved, BackRange, FirstFit, Suffices, RunsOutBetween;
    HighestOf(vm, t);
    if Admitted(vm, start, count) {
      FirstFitSmallest(vm, start, count);
      BackRangeIff(vm, t, FirstFit(vm, start, count).value, count, flags);
    }
  }

  lemma HighestOf(vm: Vm, t: Layout)
    requires Inv(vm, t)
    ensures vm.frames.highest >= Pmm.PAGE
  {
  }

  /** The counter test of `vmm_alloc` does not count tables: where it passes, the range is backed exactly if the missing
      tables are at most the frames that the test leaves over, or one more if every free frame can be reached, and the
      tables lie in the window. */
  lemma TestForgetsTables(vm: Vm, t: Layout, start: nat, count: nat, flags: nat)
    requires Inv(vm, t) && flags < 4096 && start > 0 && Pmm.Balanced(vm.frames) && !Pmm.TopSplit(vm.frames)
    requires Admitted(vm, start, count) && Reserved(vm, t, FirstFit(vm, start, count).value, count)
    ensures var p := FirstFit(vm, start, count).value;
            var left := vm.frames.total - vm.frames.used - count - if Pmm.Reachable(vm.frames) == vm.frames.free then 0
                else 1;
            Alloc(vm, start, count, flags).0.Backed? <==>
              |MissingRange(vm.mem, vm.cr3, p, count)| <= left && TableDemand(vm, p, count) <= NearSupply(vm)
  {
    hide Inv, Reserved, BackRange, FirstFit, MissingRange, RunsOutBetween, TableDemand, NearSupply;
    FramesReady(vm, t);
    AllocIff(vm, t, start, count, flags);
    Pmm.MarginEnough(vm.frames);
    UnreachableOne(vm.frames);
  }

  lemma UnreachableOne(fr: Pmm.Frames)
    requires Pmm.Ready(fr) && |Pmm.Reachable(fr)| >= |fr.free| - 1
    ensures |Pmm.Reachable(fr)| == |fr.free| - if Pmm.Reachable(fr) == fr.free then 0 else 1
  {
    Pmm.SetSizes(fr.free, Pmm.Reachable(fr));
    assert fr.free * Pmm.Reachable(fr) == Pmm.Reachable(fr);
    if |fr.free - Pmm.Reachable(fr)| == 0 {
      assert fr.free - Pmm.Reachable(fr) == {};
      assert Pmm.Reachable(fr) == fr.free;
    }
  }

  lemma FramesReady(vm: Vm, t: Layout)
    requires Inv(vm, t)
    ensures Pmm.Ready(vm.frames)
  {
  }

  /** `kmalloc` returns a block exactly when the frames cover its pages and the tables these miss. */
  lemma KmallocIff(h: Heap.State, n: nat)
    requires Heap.HeapInv(h) && h.vm.frames.highest >= Pmm.PAGE && Heap.RoomFor(h, n)
    ensures var r, count := Heap.Kmalloc(h, n), Heap.PagesFor(n);
            && (r.Given? <==> Admitted(h.vm, Heap.KERNEL_HEAP, count)
                              && Suffices(h.vm, FirstFit(h.vm, Heap.KERNEL_HEAP, count).value, count))
            && (r.Stuck? <==> Admitted(h.vm, Heap.KERNEL_HEAP, count)
                              && var p := FirstFit(h.vm, Heap.KERNEL_HEAP, count).value;
                                 !Suffices(h.vm, p, count) && !RunsOutBetween(h.vm, p, count))
  {
    hide Inv, Reserved, BackRange, BackedLayout, FirstFit, Suffices, RunsOutBetween, Alloc;
    hide Heap.Fill, Heap.WithHeader, Heap.HeapArea, Heap.BlockOk;
    var count := Heap.PagesFor(n);
    if Admitted(h.vm, Heap.KERNEL_HEAP, count) {
      FirstFitSmallest(h.vm, Heap.KERNEL_HEAP, count);
      PlaceOf(h.vm, Heap.KERNEL_HEAP, count);
      Heap.HeapReserved(h.vm, h.t, FirstFit(h.vm, Heap.KERNEL_HEAP, count).value, count);
    }
    AllocIff(h.vm, h.t, Heap.KERNEL_HEAP, count, Heap.FLAGS);
  }

  lemma PlaceOf(vm: Vm, start: nat, count: nat)
    requires vm.frames.highest >= Pmm.PAGE && Admitted(vm, start, count)
    requires FirstFit(vm, start, count).value > 0
    ensures Alloc(vm, start, count, Heap.FLAGS).1 == FirstFit(vm, start, count).value
  {
    hide FirstFit, BackRange;
  }
}
