/** What `krealloc` (kernel/src/mm/mm.c) does when a block shrinks: it copies as many bytes as the old block had, past
    the end of the new one. If the new block ends where the old one begins, it overwrites the old block's header, from
    which `kfree` then reads the number of pages. */
module HeapOverlap {
  import opened Memory
  import opened PageTable
  import opened Vmm
  import opened Heap
  import opened HeapMachine
  import Pmm

  /** `memcpy(to, from, n)`, byte by byte through the page tables; `None` is a fault. */
  function CopyThrough(vm: Vm, to: nat, from: nat, n: nat): Option<Vm> {
    if n == 0 then Some(vm)
    else
      match CopyThrough(vm, to, from, n - 1)
      case None => None
      case Some(vm') =>
        match (GetPhysical(vm', to + n - 1), GetPhysical(vm', from + n - 1))
        case (Some(a), Some(b)) => Some(vm'.(mem := vm'.mem[a := Rd8(vm'.mem, b)]))
        case _ => None
  }

  /** The block on `ps` begins where the one on `qs` ends. */
  ghost predicate Neighbours(vm: Vm, t: Layout, dst: nat, qs: seq<nat>, ps: seq<nat>) {
    && RangeReady(vm, t, dst, qs) && RangeReady(vm, t, dst + |qs| * 4096, ps) && Distinct(qs + ps)
  }

  lemma NeighbourAddress(vm: Vm, t: Layout, dst: nat, qs: seq<nat>, ps: seq<nat>, k: nat)
    requires Neighbours(vm, t, dst, qs, ps) && k < |qs + ps| * 4096
    ensures GetPhysical(vm, dst + k) == Some(Addr(qs + ps, k))
  {
    hide RangeReady, GetPhysical;
    var n := |qs| * 4096;
    if k < n {
      RangeReadyAddress(vm, t, dst, qs, k);
      assert (qs + ps)[k / 4096] == qs[k / 4096];
    } else {
      RangeReadyAddress(vm, t, dst + n, ps, k - n);
      assert (qs + ps)[k / 4096] == ps[(k - n) / 4096] && k % 4096 == (k - n) % 4096;
    }
  }

  /** Another byte in the frames of either block leaves both where they are. */
  lemma NeighboursKept(vm: Vm, t: Layout, dst: nat, qs: seq<nat>, ps: seq<nat>, k: nat, b: Byte)
    requires Neighbours(vm, t, dst, qs, ps) && k < |qs + ps| * 4096
    ensures Neighbours(vm.(mem := vm.mem[Addr(qs + ps, k) := b]), t, dst, qs, ps)
  {
    hide RangeReady, Addr;
    AddrFrame(qs + ps, k);
    ReadyNoTable(vm, t, dst, qs);
    ReadyNoTable(vm, t, dst + |qs| * 4096, ps);
    var m' := vm.mem[Addr(qs + ps, k) := b];
    RangeReadyKept(vm, t, dst, qs, m', qs + ps);
    RangeReadyKept(vm, t, dst + |qs| * 4096, ps, m', qs + ps);
  }

  /** The bytes after `n` of them were copied from offset `from` of the two blocks to offset `to`. */
  ghost predicate Moved(m: Mem, m': Mem, both: seq<nat>, to: nat, from: nat, n: nat)
    requires to <= from && from + n <= |both| * 4096
  {
    && (forall k :: 0 <= k < |both| * 4096 ==>
          Rd8(m', Addr(both, k)) == Rd8(m, Addr(both, if to <= k < to + n then k - to + from else k)))
    && (forall x: nat :: x / 4096 !in both ==> Rd8(m', x) == Rd8(m, x))
  }

  lemma MovedStep(m: Mem, m': Mem, both: seq<nat>, to: nat, from: nat, n: nat)
    requires Distinct(both) && to < from && from + n + 1 <= |both| * 4096 && Moved(m, m', both, to, from, n)
    ensures Moved(m, m'[Addr(both, to + n) := Rd8(m', Addr(both, from + n))], both, to, from, n + 1)
  {
    hide Addr, Distinct;
    var a := Addr(both, to + n);
    AddrFrame(both, to + n);
    var b := Addr(both, from + n);
    assert Rd8(m', b) == Rd8(m, b);
    forall k: nat | k < |both| * 4096
      ensures Rd8(m'[a := Rd8(m', b)], Addr(both, k)) ==
              Rd8(m, Addr(both, if to <= k < to + n + 1 then k - to + from else k))
    {
      AddrInjective(both, k, to + n);
    }
  }

  /** Copying towards lower addresses moves every byte as it was. */
  lemma {:induction false} CopyMoves(vm: Vm, t: Layout, dst: nat, qs: seq<nat>, ps: seq<nat>, to: nat, from: nat,
                                     n: nat)
    requires Neighbours(vm, t, dst, qs, ps) && to < from && from + n <= |qs + ps| * 4096
    ensures var r := CopyThrough(vm, dst + to, dst + from, n);
            && r.Some? && Neighbours(r.value, t, dst, qs, ps) && r.value == vm.(mem := r.value.mem)
            && Moved(vm.mem, r.value.mem, qs + ps, to, from, n)
  {
    hide Neighbours, GetPhysical, Addr, Rd8, Moved, Distinct;
    if n == 0 {
      NothingMoved(vm.mem, qs + ps, to, from);
    } else {
      CopyMoves(vm, t, dst, qs, ps, to, from, n - 1);
      var vm' := CopyThrough(vm, dst + to, dst + from, n - 1).value;
      NeighbourAddress(vm', t, dst, qs, ps, to + n - 1);
      NeighbourAddress(vm', t, dst, qs, ps, from + n - 1);
      assert dst + to + n - 1 == dst + (to + n - 1) && dst + from + n - 1 == dst + (from + n - 1);
      NeighboursKept(vm', t, dst, qs, ps, to + n - 1, Rd8(vm'.mem, Addr(qs + ps, from + n - 1)));
      NeighboursDistinct(vm, t, dst, qs, ps);
      MovedStep(vm.mem, vm'.mem, qs + ps, to, from, n - 1);
    }
  }

  lemma NothingMoved(m: Mem, both: seq<nat>, to: nat, from: nat)
    requires to <= from <= |both| * 4096
    ensures Moved(m, m, both, to, from, 0)
  {
  }

  lemma NeighboursDistinct(vm: Vm, t: Layout, dst: nat, qs: seq<nat>, ps: seq<nat>)
    requires Neighbours(vm, t, dst, qs, ps)
    ensures Distinct(qs + ps)
  {
  }

  /** Two live blocks of which one ends where the other begins. */
  lemma BlocksNeighbours(h: State, dst: nat, src: nat)
    requires HeapInv(h) && dst in h.blocks && src in h.blocks && dst + |h.blocks[dst].frames| * 4096 == src
    ensures Neighbours(h.vm, h.t, dst, h.blocks[dst].frames, h.blocks[src].frames)
    ensures |h.blocks[dst].frames| == PagesFor(h.blocks[dst].n) && |h.blocks[src].frames| == PagesFor(h.blocks[src].n)
  {
    hide Inv, HeapArea, StoredPages, StoredSize;
    var qs, ps := h.blocks[dst].frames, h.blocks[src].frames;
    LiveOk(h, dst);
    LiveOk(h, src);
    assert Apart(dst, h.blocks[dst], src, h.blocks[src]);
    hide Holds;
    BlockDistinct(h.vm, h.t, dst, h.blocks[dst]);
    BlockDistinct(h.vm, h.t, src, h.blocks[src]);
    forall i, j | 0 <= i < j < |qs + ps| ensures (qs + ps)[i] != (qs + ps)[j] {
      if i < |qs| <= j {
        assert qs[i] in Elems(qs) && ps[j - |qs|] in Elems(ps);
      }
    }
  }

  /** Byte `k` of the old header after the copy: a payload byte of the old block, if the copy gets that far. */
  function HeaderByte(m: Mem, ps: seq<nat>, pages: nat, n: nat, k: nat): Byte
    requires ps != [] && HEADER + n <= |ps| * 4096 && pages > 0 && k < HEADER
  {
    var j := pages * 4096 - HEADER + k;
    if j < n then Rd8(m, Payload(ps, j)) else Rd8(m, ps[0] * 4096 + k)
  }

  /** The header of the old block `b` at `src` after the copy from memory `m`: its lowest byte at least is overwritten,
      and `kfree` takes what is there for the number of pages. */
  ghost predicate HeaderOverwritten(m: Mem, vm: Vm, src: nat, b: Block, pages: nat) {
    && b.frames != [] && HEADER + b.n <= |b.frames| * 4096 && 0 < pages && pages * 4096 - HEADER < b.n
    && (forall k :: 0 <= k < HEADER ==> Rd8(vm.mem, b.frames[0] * 4096 + k) == HeaderByte(m, b.frames, pages, b.n, k))
    && ReadHeader(vm, src, 0) == Some(Rd64(vm.mem, b.frames[0] * 4096))
  }

  /** For every heap: if the old bytes do not fit the new block and the new block ends where the old one begins,
      `memcpy` puts payload bytes over the old header. */
  lemma ShrinkOverwritesHeader(h: State, dst: nat, src: nat)
    requires HeapInv(h) && dst in h.blocks && src in h.blocks && dst + |h.blocks[dst].frames| * 4096 == src
    requires !CopyFits(h.blocks[src].n, h.blocks[dst].n)
    ensures var r := CopyThrough(h.vm, dst + HEADER, src + HEADER, h.blocks[src].n);
            r.Some? && HeaderOverwritten(h.vm.mem, r.value, src, h.blocks[src], |h.blocks[dst].frames|)
  {
    hide HeapInv, Neighbours, Moved, CopyThrough, HeaderOverwritten;
    var b, qs, ps := h.blocks[src], h.blocks[dst].frames, h.blocks[src].frames;
    BlocksNeighbours(h, dst, src);
    CopyMoves(h.vm, h.t, dst, qs, ps, HEADER, |qs| * 4096 + HEADER, b.n);
    assert dst + (|qs| * 4096 + HEADER) == src + HEADER;
    var vm' := CopyThrough(h.vm, dst + HEADER, src + HEADER, b.n).value;
    HeaderGone(h.vm.mem, vm', h.t, dst, qs, src, b);
  }

  lemma HeaderGone(m: Mem, vm: Vm, t: Layout, dst: nat, qs: seq<nat>, src: nat, b: Block)
    requires Neighbours(vm, t, dst, qs, b.frames) && src == dst + |qs| * 4096 && qs != [] && b.frames != []
    requires HEADER + b.n <= |b.frames| * 4096 && |qs| * 4096 - HEADER < b.n
    requires Moved(m, vm.mem, qs + b.frames, HEADER, |qs| * 4096 + HEADER, b.n)
    ensures HeaderOverwritten(m, vm, src, b, |qs|)
  {
    hide Neighbours, GetPhysical, Rd8, Rd64, Moved, HeaderByte;
    forall k: nat | k < HEADER ensures Rd8(vm.mem, b.frames[0] * 4096 + k) == HeaderByte(m, b.frames, |qs|, b.n, k) {
      HeaderMoved(m, vm.mem, qs, b.frames, b.n, k);
    }
    AddrOfHeader(qs, b.frames, 0);
    NeighbourAddress(vm, t, dst, qs, b.frames, |qs| * 4096);
  }

  lemma AddrOfHeader(qs: seq<nat>, ps: seq<nat>, k: nat)
    requires ps != [] && k < HEADER
    ensures |qs| * 4096 + k < |qs + ps| * 4096 && Addr(qs + ps, |qs| * 4096 + k) == ps[0] * 4096 + k
  {
    assert (|qs| * 4096 + k) / 4096 == |qs| && (|qs| * 4096 + k) % 4096 == k;
  }

  lemma HeaderMoved(m: Mem, m': Mem, qs: seq<nat>, ps: seq<nat>, n: nat, k: nat)
    requires qs != [] && ps != [] && k < HEADER && HEADER + n <= |ps| * 4096
             && |qs| * 4096 + HEADER + n <= |qs + ps| * 4096
    requires Moved(m, m', qs + ps, HEADER, |qs| * 4096 + HEADER, n)
    ensures Rd8(m', ps[0] * 4096 + k) == HeaderByte(m, ps, |qs|, n, k)
  {
    hide Rd8;
    var both := qs + ps;
    var j := |qs| * 4096 - HEADER + k;
    AddrOfHeader(qs, ps, k);
    assert Addr(both, HEADER + j) == ps[0] * 4096 + k;
    if j < n {
      SecondPayload(qs, ps, j);
      hide Addr;
      assert HEADER + j - HEADER + (|qs| * 4096 + HEADER) == |qs| * 4096 + HEADER + j;
    }
  }

  lemma SecondPayload(qs: seq<nat>, ps: seq<nat>, j: nat)
    requires HEADER + j < |ps| * 4096
    ensures |qs| * 4096 + HEADER + j < |qs + ps| * 4096 && Addr(qs + ps, |qs| * 4096 + HEADER + j) == Payload(ps, j)
  {
    var k := |qs| * 4096 + HEADER + j;
    assert k / 4096 == |qs| + (HEADER + j) / 4096 && k % 4096 == (HEADER + j) % 4096;
  }

  /** So does every `krealloc` that shrinks in that way and gets its new block there. */
  lemma KreallocOverwrites(h: State, src: nat, newSize: nat, g: State, dst: nat)
    requires HeapInv(h) && h.vm.frames.highest >= Pmm.PAGE && RoomFor(h, newSize) && src in h.blocks
    requires Kmalloc(h, newSize) == Given(g, dst) && dst + PagesFor(newSize) * 4096 == src
    requires !CopyFits(h.blocks[src].n, newSize)
    ensures var c := CopyThrough(g.vm, dst + HEADER, src + HEADER, h.blocks[src].n);
            c.Some? && HeaderOverwritten(h.vm.mem, c.value, src, h.blocks[src], PagesFor(newSize))
  {
    hide HeapInv, Kmalloc, CopyThrough, Alloc, HeaderOverwritten;
    Placed(h, src, newSize);
    ShrinkOverwritesHeader(g, dst, src);
    SameHeader(h, src, newSize, CopyThrough(g.vm, dst + HEADER, src + HEADER, h.blocks[src].n).value);
  }

  /** The blocks after `kmalloc`. */
  lemma Placed(h: State, src: nat, newSize: nat)
    requires HeapInv(h) && h.vm.frames.highest >= Pmm.PAGE && RoomFor(h, newSize) && src in h.blocks
             && Kmalloc(h, newSize).Given?
    ensures var r := Kmalloc(h, newSize);
            && HeapInv(r.h) && r.ptr in r.h.blocks && src in r.h.blocks && r.h.blocks[src] == h.blocks[src]
            && r.h.blocks[r.ptr].n == newSize && |r.h.blocks[r.ptr].frames| == PagesFor(newSize)
  {
    hide HeapInv, Kmalloc, Alloc, Rd8, Payload;
    KmallocCorrect(h, newSize);
  }

  lemma SameHeader(h: State, src: nat, newSize: nat, vm: Vm)
    requires HeapInv(h) && h.vm.frames.highest >= Pmm.PAGE && RoomFor(h, newSize) && src in h.blocks
             && Kmalloc(h, newSize).Given?
    requires HeaderOverwritten(Kmalloc(h, newSize).h.vm.mem, vm, src, h.blocks[src], PagesFor(newSize))
    ensures HeaderOverwritten(h.vm.mem, vm, src, h.blocks[src], PagesFor(newSize))
  {
    hide HeapInv, Kmalloc, Rd8, Alloc, ReadHeader, Rd64, HeaderByte;
    var b, m1, pages := h.blocks[src], Kmalloc(h, newSize).h.vm.mem, PagesFor(newSize);
    forall k: nat | k < HEADER
        ensures HeaderByte(m1, b.frames, pages, b.n, k) == HeaderByte(h.vm.mem, b.frames, pages, b.n, k) {
      SameHeaderByte(h, src, newSize, k);
    }
  }

  lemma SameHeaderByte(h: State, src: nat, newSize: nat, k: nat)
    requires HeapInv(h) && h.vm.frames.highest >= Pmm.PAGE && RoomFor(h, newSize) && src in h.blocks && k < HEADER
    requires Kmalloc(h, newSize).Given? && h.blocks[src].frames != []
    requires HEADER + h.blocks[src].n <= |h.blocks[src].frames| * 4096
    ensures var b, pages := h.blocks[src], PagesFor(newSize);
            HeaderByte(Kmalloc(h, newSize).h.vm.mem, b.frames, pages, b.n, k) ==
                HeaderByte(h.vm.mem, b.frames, pages, b.n, k)
  {
    hide HeapInv, Kmalloc, Rd8, Alloc, Payload;
    var b := h.blocks[src];
    var j := PagesFor(newSize) * 4096 - HEADER + k;
    if j < b.n {
      PayloadIn(b.frames, j);
      KmallocOthers(h, newSize, src, Payload(b.frames, j));
    } else {
      assert (b.frames[0] * 4096 + k) / 4096 == b.frames[0];
      KmallocOthers(h, newSize, src, b.frames[0] * 4096 + k);
    }
  }
}
