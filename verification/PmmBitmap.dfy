/** The bitmap form of the physical memory manager: bytes changed in place, one bit a page.
    Every method is tied to the set-of-frames form in `Pmm`. */
module PmmBitmap {
  import opened Memory
  import opened Pmm

  /** `1 << bit` */
  function Mask(bit: nat): bv8
    requires bit < 8
  {
    match bit
    case 0 => 1 case 1 => 2 case 2 => 4 case 3 => 8
    case 4 => 16 case 5 => 32 case 6 => 64 case _ => 128
  }

  /** The bit of a free page is clear. */
  predicate Off(x: bv8, bit: nat)
    requires bit < 8
  {
    x & Mask(bit) == 0
  }

  function TurnOn(x: bv8, bit: nat): bv8
    requires bit < 8
  {
    x | Mask(bit)
  }

  function TurnOff(x: bv8, bit: nat): bv8
    requires bit < 8
  {
    x & !Mask(bit)
  }

  predicate Clear(bytes: seq<bv8>, p: nat)
    requires p < 8 * |bytes|
  {
    Off(bytes[p / 8], p % 8)
  }

  ghost function FreeBits(bytes: seq<bv8>): set<nat> {
    set p: nat | p < 8 * |bytes| && Clear(bytes, p)
  }

  /** Setting or clearing one bit of a byte leaves the other seven alone. */
  lemma OtherBits(x: bv8, a: nat, b: nat)
    requires a < 8 && b < 8
    ensures Off(TurnOn(x, a), b) == (a != b && Off(x, b))
    ensures Off(TurnOff(x, a), b) == (a == b || Off(x, b))
  {
  }

  lemma SetBit(bytes: seq<bv8>, p: nat)
    requires p < 8 * |bytes|
    ensures FreeBits(bytes[p / 8 := TurnOn(bytes[p / 8], p % 8)]) == FreeBits(bytes) - {p}
    ensures FreeBits(bytes[p / 8 := TurnOff(bytes[p / 8], p % 8)]) == FreeBits(bytes) + {p}
  {
    hide Off, TurnOn, TurnOff, Mask;
    var x := bytes[p / 8];
    forall q: nat | q < 8 * |bytes|
      ensures Clear(bytes[p / 8 := TurnOn(x, p % 8)], q) == (q != p && Clear(bytes, q))
      ensures Clear(bytes[p / 8 := TurnOff(x, p % 8)], q) == (q == p || Clear(bytes, q))
    {
      OtherBits(x, p % 8, q % 8);
    }
  }

  lemma {:induction false} FindIgnoresLock(fr: Frames, p: nat)
    requires fr.highest >= PAGE
    ensures FindFrom(fr.(locked := true), p) == FindFrom(fr, p)
    decreases fr.highest - p * PAGE
  {
    if !(p in fr.free && p * PAGE < fr.highest) && (p + 1) * PAGE < fr.highest - PAGE {
      FindIgnoresLock(fr, p + 1);
    }
  }

  class Bitmap {
    var bitmap: array<bv8>   // the memory from the end of the kernel on
    var size: nat            // pmm_bitmap_size: how much of it is the bitmap
    var used: int
    var total: int
    var highest: nat
    var locked: bool

    /** All the memory that the allocator may touch. */
    ghost function Area(): Frames
      reads this, bitmap
    {
      Frames(8 * bitmap.Length, FreeBits(bitmap[..]), used, total, highest, locked)
    }

    /** The bitmap proper. */
    ghost function View(): Frames
      reads this, bitmap
    {
      Inside(Area(), 8 * size)
    }

    /** `pmm_mark_page_used` */
    method MarkPageUsed(addr: nat)
      requires addr / PAGE < 8 * bitmap.Length
      modifies this`used, bitmap
      ensures Area() == MarkUsed(old(Area()), addr / PAGE)
    {
      hide Off, TurnOn, TurnOff, Mask;
      var byte, bit := (addr / PAGE) / 8, (addr / PAGE) % 8;
      SetBit(bitmap[..], addr / PAGE);
      if !Off(bitmap[byte], bit) {
        return;
      }
      bitmap[byte] := TurnOn(bitmap[byte], bit);
      used := used + 1;
    }

    /** `pmm_mark_page_free` */
    method MarkPageFree(addr: nat)
      requires addr / PAGE < 8 * bitmap.Length
      modifies this`used, bitmap
      ensures Area() == MarkFree(old(Area()), addr / PAGE)
    {
      hide Off, TurnOn, TurnOff, Mask;
      var byte, bit := (addr / PAGE) / 8, (addr / PAGE) % 8;
      SetBit(bitmap[..], addr / PAGE);
      if Off(bitmap[byte], bit) {
        return;
      }
      bitmap[byte] := TurnOff(bitmap[byte], bit);
      used := used - 1;
    }

    /** The marking loop of `e820_add_entry` for a usable entry, where `used_pages` is saved around
        every call. */
    method FreeSpan(base: nat, pages: nat)
      requires base / PAGE + pages <= 8 * bitmap.Length
      modifies this`used, bitmap
      ensures Area() == GiveSpan(old(Area()), base / PAGE, pages)
    {
      hide Span, FreeBits, Off, TurnOn, TurnOff, Mask, GiveSpan, MarkFree;
      ghost var start := Area();
      SpanEmpty(start, base / PAGE);
      var i := 0;
      while i < pages
        invariant 0 <= i <= pages && used == start.used && Area() == GiveSpan(start, base / PAGE, i)
      {
        SpanStep(start, base / PAGE, i);
        assert (base + i * PAGE) / PAGE == base / PAGE + i;
        var saved := used;
        MarkPageFree(base + i * PAGE);
        used := saved;
        assert Area() == MarkFree(GiveSpan(start, base / PAGE, i), base / PAGE + i).(used := saved);
        i := i + 1;
      }
    }

    /** The same loop for any other entry, and for the low pages in `pmm_init`. */
    method UseSpan(base: nat, pages: nat)
      requires base / PAGE + pages <= 8 * bitmap.Length
      modifies this`used, bitmap
      ensures Area() == TakeSpan(old(Area()), base / PAGE, pages)
    {
      hide Span, FreeBits, Off, TurnOn, TurnOff, Mask, TakeSpan, MarkUsed;
      ghost var start := Area();
      SpanEmpty(start, base / PAGE);
      var i := 0;
      while i < pages
        invariant 0 <= i <= pages && Area() == TakeSpan(start, base / PAGE, i)
      {
        SpanStep(start, base / PAGE, i);
        assert (base + i * PAGE) / PAGE == base / PAGE + i;
        MarkPageUsed(base + i * PAGE);
        i := i + 1;
      }
    }

    /** `e820_add_entry` */
    method AddE820Entry(e: E820)
      requires Accepted(e) ==> e.base / PAGE + PageCount(e) <= 8 * bitmap.Length
      modifies this, bitmap
      ensures bitmap == old(bitmap) && size == old(size) && Area() == AddEntry(old(Area()), e)
    {
      hide Span, FreeBits, Off, TurnOn, TurnOff, Mask, GiveSpan, TakeSpan;
      if !Accepted(e) {
        return;
      }
      var pages := PageCount(e);
      if e.kind == 1 {
        if e.base + e.length > highest {
          highest := e.base + e.length - 1;
        }
      }
      total := total + pages;
      if e.kind != 1 {
        used := used + pages;
      }
      assert Area() == Announce(old(Area()), e);
      if e.kind == 1 {
        FreeSpan(e.base, pages);
      } else {
        UseSpan(e.base, pages);
      }
    }

    /** `pmm_init`. `after` is the byte that follows the bitmap. `ok` is false when the kernel stops because less than
        16 MB is present. */
    method Initialise(es: seq<E820>, after: bv8) returns (ok: bool)
      requires es != [] && NearlyFits(es) && used == 0 && total == 0 && highest == 0 && !locked
      modifies this
      ensures fresh(bitmap) && bitmap.Length == size + 1 && size == BitmapBytes(es)
      ensures ok <==> AddEntries(Blank(es, Foreign(es, after)), es).total * 4096 / 1024 / 1024 >= 16
      ensures ok ==> View() == Init(es, Foreign(es, after))
    {
      hide Span, FreeBits, Off, TurnOn, TurnOff, Mask, TakeSpan, GiveSpan, AddEntry, Foreign, Inside;
      size := BitmapBytes(es);
      bitmap := new bv8[size + 1](i => if i < BitmapBytes(es) then 0xFF else after);
      ghost var start := Blank(es, Foreign(es, after)).(pages := 8 * bitmap.Length);
      StartBits(es, after, bitmap[..]);
      assert Area() == start;
      for i := 0 to |es|
        invariant fresh(bitmap) && bitmap.Length == size + 1 && size == BitmapBytes(es)
        invariant Area() == AddEntries(start, es[..i])
      {
        assert es[..i + 1][..i] == es[..i];
        assert es[i] in es;
        AddE820Entry(es[i]);
      }
      assert es[..|es|] == es;
      AddEntriesPages(Blank(es, Foreign(es, after)), 8 * bitmap.Length, es);
      ok := total * 4096 / 1024 / 1024 >= 16;
      if ok {
        UseSpan(0, LOW_PAGES);
        InsidePages(AddEntries(Blank(es, Foreign(es, after)), es), 8 * bitmap.Length, Limit(es));
      }
    }

    /** `pmm_get_page`: addresses at or above the top count as used. */
    method PageTaken(addr: nat) returns (taken: bool)
      requires size <= bitmap.Length && highest <= PAGE * 8 * size
      ensures taken <==> !(addr < highest && addr / PAGE in View().free)
    {
      if addr >= highest {
        return true;
      }
      taken := !Off(bitmap[addr / PAGE / 8], addr / PAGE % 8);
    }

    /** `pmm_find_page`: 0 stands for NULL. */
    method FindPage() returns (page: nat)
      requires size <= bitmap.Length && PAGE <= highest <= PAGE * 8 * size
      ensures page == match FindFrom(View(), 0) case Some(p) => p * PAGE case None => 0
      ensures page < highest
    {
      hide Off, TurnOn, TurnOff, Mask;
      page := 0;
      ghost var p := 0;
      var taken := PageTaken(page);
      while taken
        invariant page == p * PAGE && FindFrom(View(), 0) == FindFrom(View(), p)
        invariant taken <==> !(page < highest && p in View().free)
        decreases highest - page, taken
      {
        page := page + PAGE;
        if page >= highest - PAGE {
          return 0;
        }
        p := p + 1;
        taken := PageTaken(page);
      }
    }

    /** `pmm_alloc_page`: the NULL path returns with the mutex still held. */
    method AllocPage() returns (page: nat)
      requires !locked && size <= bitmap.Length && PAGE <= highest <= PAGE * 8 * size
      modifies this`used, this`locked, bitmap
      ensures View() == Alloc(old(View())).0
      ensures page == match Alloc(old(View())).1 case Some(p) => p * PAGE case None => 0
    {
      hide Off, TurnOn, TurnOff, Mask, Inside, FreeBits;
      locked := true;
      page := FindPage();
      LockedView(old(Area()), 8 * size);
      FindIgnoresLock(old(View()), 0);
      if page == 0 {
        return;
      }
      InsideMark(Area(), 8 * size, page / PAGE);
      MarkPageUsed(page);
      LockedView(old(MarkUsed(Area(), page / PAGE)), 8 * size);
      locked := false;
    }

    /** `pmm_free_page` */
    method FreePage(page: nat)
      requires !locked && size <= bitmap.Length && page / PAGE < 8 * size
      modifies this`used, this`locked, bitmap
      ensures View() == MarkFree(old(View()), page / PAGE) && !locked
    {
      InsideMark(Area(), 8 * size, page / PAGE);
      locked := true;
      MarkPageFree(page);
      locked := false;
    }
  }

  /** The pages past the bitmap whose bit is clear in the byte `after`. */
  function Foreign(es: seq<E820>, after: bv8): set<nat>
    requires es != []
  {
    set p | p in Span(Limit(es), 8) && ClearAfter(es, after, p)
  }

  predicate ClearAfter(es: seq<E820>, after: bv8, p: nat)
    requires es != []
  {
    Limit(es) <= p < Limit(es) + 8 && Off(after, p - Limit(es))
  }

  lemma StartBits(es: seq<E820>, after: bv8, bytes: seq<bv8>)
    requires es != [] && |bytes| == BitmapBytes(es) + 1 && bytes[|bytes| - 1] == after
    requires forall i :: 0 <= i < |bytes| - 1 ==> bytes[i] == 0xFF
    ensures FreeBits(bytes) == Foreign(es, after)
  {
    hide Span;
    assert forall p :: p in Span(Limit(es), 8) <==> InSpan(p, Limit(es), 8);
    forall p: nat | p < 8 * |bytes| ensures Clear(bytes, p) <==> ClearAfter(es, after, p) {
      if p < Limit(es) {
        assert Off(0xFF, p % 8) == false;
      } else {
        assert p / 8 == |bytes| - 1 && p % 8 == p - Limit(es);
      }
    }
  }

  lemma {:induction false} AddEntriesPages(fr: Frames, n: nat, es: seq<E820>)
    ensures AddEntries(fr.(pages := n), es) == AddEntries(fr, es).(pages := n)
  {
    if es != [] {
      AddEntriesPages(fr, n, es[..|es| - 1]);
    }
  }

  lemma InsidePages(fr: Frames, k: nat, n: nat)
    ensures Inside(TakeSpan(fr.(pages := k), 0, LOW_PAGES), n) == Inside(TakeSpan(fr, 0, LOW_PAGES), n)
  {
    hide Span;
  }

  lemma InsideMark(fr: Frames, n: nat, p: nat)
    requires p < n
    ensures Inside(MarkUsed(fr, p), n) == MarkUsed(Inside(fr, n), p)
            && Inside(MarkFree(fr, p), n) == MarkFree(Inside(fr, n), p)
  {
    assert (set q | q in fr.free - {p} && q < n) == (set q | q in fr.free && q < n) - {p};
    assert (set q | q in fr.free + {p} && q < n) == (set q | q in fr.free && q < n) + {p};
  }

  lemma LockedView(fr: Frames, n: nat)
    ensures Inside(fr, n).highest == fr.highest
    ensures Inside(fr.(locked := true), n) == Inside(fr, n).(locked := true)
    ensures Inside(fr.(locked := false), n) == Inside(fr, n).(locked := false)
  {
  }
}
