/** The physical memory manager (kernel/src/mm/pmm.c): a bitmap of frames with two counters,
    filled from the firmware's E820 map and searched from the bottom. */
module Pmm {
  import opened Memory

  const PAGE: nat := 4096
  const LOW_PAGES: nat := 2048

  /** The allocator seen as a set of free frames. `pages` is the number of bits in the bitmap;
      `highest` is `highest_usable_address`; `locked` is `pmm_mutex`. */
  datatype Frames = Frames(pages: nat, free: set<nat>, used: int, total: int, highest: nat, locked: bool)

  // ----- Marking one page -----

  function MarkUsed(fr: Frames, p: nat): Frames {
    if p in fr.free then fr.(free := fr.free - {p}, used := fr.used + 1) else fr
  }

  function MarkFree(fr: Frames, p: nat): Frames {
    if p in fr.free then fr else fr.(free := fr.free + {p}, used := fr.used - 1)
  }

  // ----- The E820 map -----

  datatype E820 = E820(size: nat, base: nat, length: nat, kind: nat, acpi3: nat)

  /** Entries that `pmm_init` hands on and `e820_add_entry` does not return from early. */
  predicate Accepted(e: E820) {
    1 <= e.kind <= 5 && e.length != 0 && !(e.size >= 24 && e.acpi3 % 2 == 0)
  }

  predicate Usable(e: E820) {
    Accepted(e) && e.kind == 1
  }

  function PageCount(e: E820): nat {
    (e.length + 4095) / 4096 + (if e.kind != 1 then 1 else 0)
  }

  predicate InSpan(p: nat, first: nat, n: nat) {
    first <= p < first + n
  }

  function Span(first: nat, n: nat): (s: set<nat>)
    ensures forall p :: p in s <==> InSpan(p, first, n)
    ensures |s| == n
  {
    if n == 0 then {} else Span(first, n - 1) + {first + n - 1}
  }

  function Covered(e: E820): set<nat> {
    Span(e.base / PAGE, PageCount(e))
  }

  function End(e: E820): nat {
    e.base + e.length
  }

  /** Marking `n` pages free while `used_pages` is kept, and marking `n` pages used. */
  function GiveSpan(fr: Frames, first: nat, n: nat): Frames {
    fr.(free := fr.free + Span(first, n))
  }

  function TakeSpan(fr: Frames, first: nat, n: nat): Frames {
    fr.(free := fr.free - Span(first, n), used := fr.used + |fr.free * Span(first, n)|)
  }

  lemma SpanStep(fr: Frames, first: nat, n: nat)
    ensures MarkFree(GiveSpan(fr, first, n), first + n).(used := fr.used) == GiveSpan(fr, first, n + 1)
    ensures MarkUsed(TakeSpan(fr, first, n), first + n) == TakeSpan(fr, first, n + 1)
  {
    assert Span(first, n + 1) == Span(first, n) + {first + n};
    assert first + n !in Span(first, n);
    if first + n in fr.free {
      assert fr.free * Span(first, n + 1) == fr.free * Span(first, n) + {first + n};
    } else {
      assert fr.free * Span(first, n + 1) == fr.free * Span(first, n);
    }
    assert fr.free - Span(first, n) - {first + n} == fr.free - Span(first, n + 1);
    assert fr.free + Span(first, n) + {first + n} == fr.free + Span(first, n + 1);
  }

  lemma SpanEmpty(fr: Frames, first: nat)
    ensures GiveSpan(fr, first, 0) == fr == TakeSpan(fr, first, 0)
  {
    assert fr.free * {} == {};
  }

  /** The counters and the top, before any bit changes. */
  function Announce(fr: Frames, e: E820): Frames {
    if e.kind == 1 then
      fr.(total := fr.total + PageCount(e), highest := if End(e) > fr.highest then End(e) - 1 else fr.highest)
    else
      fr.(total := fr.total + PageCount(e), used := fr.used + PageCount(e))
  }

  /** The net effect of `e820_add_entry`. */
  function AddEntry(fr: Frames, e: E820): Frames {
    if !Accepted(e) then fr
    else if e.kind == 1 then GiveSpan(Announce(fr, e), e.base / PAGE, PageCount(e))
    else TakeSpan(Announce(fr, e), e.base / PAGE, PageCount(e))
  }

  function AddEntries(fr: Frames, es: seq<E820>): Frames {
    if es == [] then fr else AddEntry(AddEntries(fr, es[..|es| - 1]), es[|es| - 1])
  }

  function BitmapBytes(es: seq<E820>): nat
    requires es != []
  {
    ((End(es[|es| - 1]) + PAGE - 1) / PAGE + 7) / 8
  }

  /** The number of bits in the bitmap. */
  function Limit(es: seq<E820>): nat
    requires es != []
  {
    8 * BitmapBytes(es)
  }

  /** The bitmap is set to ones. `foreign` are the pages past it whose bit is clear in the memory that follows. */
  function Blank(es: seq<E820>, foreign: set<nat>): Frames
    requires es != []
  {
    Frames(Limit(es), foreign, 0, 0, 0, false)
  }

  /** The first `n` bits. */
  function Inside(fr: Frames, n: nat): Frames {
    fr.(pages := n, free := set p | p in fr.free && p < n)
  }

  /** `pmm_init`, once the 16 MB check has passed. */
  function Init(es: seq<E820>, foreign: set<nat>): Frames
    requires es != []
  {
    Inside(TakeSpan(AddEntries(Blank(es, foreign), es), 0, LOW_PAGES), Limit(es))
  }

  /** Every page that `pmm_init` touches has a bit. */
  predicate Fits(es: seq<E820>)
    requires es != []
  {
    && LOW_PAGES <= Limit(es)
    && forall e :: e in es && Accepted(e) ==> e.base / PAGE + PageCount(e) <= Limit(es)
  }

  /** The same, but for the extra page of a reserved entry, which may be the first one past the bitmap. A map whose
      last entry ends highest is of this kind. */
  predicate NearlyFits(es: seq<E820>)
    requires es != []
  {
    LOW_PAGES <= Limit(es) && Within(es, Limit(es))
  }

  predicate Within(es: seq<E820>, n: nat) {
    forall e :: e in es && Accepted(e) ==> e.base / PAGE + PageCount(e) <= if e.kind == 1 then n else n + 1
  }

  /** An accepted entry marks page `n`, the first past the bitmap. */
  predicate Overruns(es: seq<E820>, n: nat) {
    exists e :: e in es && Reaches(e, n)
  }

  /** What one entry of the map does, in the words of its fields. */
  lemma EntryAdds(fr: Frames, e: E820)
    ensures var r, pages := AddEntry(fr, e), (e.length + 4095) / 4096;
            if e.kind == 0 || e.kind > 5 || e.length == 0 || (e.size >= 24 && e.acpi3 % 2 == 0) then r == fr
            else if e.kind == 1 then
              && r.total == fr.total + pages && r.used == fr.used && r.pages == fr.pages && r.locked == fr.locked
              && r.highest == (if e.base + e.length > fr.highest then e.base + e.length - 1 else fr.highest)
              && (forall p: nat :: p in r.free <==> p in fr.free || e.base / 4096 <= p < e.base / 4096 + pages)
            else
              && r.total == fr.total + pages + 1 && r.pages == fr.pages && r.locked == fr.locked
              && r.highest == fr.highest && r.used == fr.used + pages + 1 + (|fr.free| - |r.free|)
              && (forall p: nat :: p in r.free <==> p in fr.free && !(e.base / 4096 <= p < e.base / 4096 + pages + 1))
  {
    hide Span;
    if e.kind == 0 || e.kind > 5 || e.length == 0 || (e.size >= 24 && e.acpi3 % 2 == 0) {
    } else if e.kind != 1 {
      SetSizes(fr.free, Covered(e));
    }
  }

  /** The whole of `pmm_init`: the low 8 MB are taken last, whatever the map says. */
  lemma LowTaken(es: seq<E820>, foreign: set<nat>, p: nat)
    requires es != []
    ensures p in Init(es, foreign).free <==>
              2048 <= p < Limit(es) && p in AddEntries(Blank(es, foreign), es).free
    ensures Limit(es) == ((es[|es| - 1].base + es[|es| - 1].length + 4095) / 4096 + 7) / 8 * 8
  {
    hide AddEntries, Span, Limit;
    assert p in Span(0, LOW_PAGES) <==> InSpan(p, 0, LOW_PAGES);
    LimitIs(es);
  }

  lemma LimitIs(es: seq<E820>)
    requires es != []
    ensures Limit(es) == ((es[|es| - 1].base + es[|es| - 1].length + 4095) / 4096 + 7) / 8 * 8
  {
  }

  // ----- Searching and allocating -----

  /** `pmm_find_page` from page `p` on; `None` is the NULL return of the loop. */
  function FindFrom(fr: Frames, p: nat): (r: Option<nat>)
    requires fr.highest >= PAGE
    decreases fr.highest - p * PAGE
  {
    if p in fr.free && p * PAGE < fr.highest then Some(p)
    else if (p + 1) * PAGE >= fr.highest - PAGE then None
    else FindFrom(fr, p + 1)
  }

  /** `pmm_alloc_page`: page 0 and "not found" are the same NULL, and both keep the mutex. */
  function Alloc(fr: Frames): (Frames, Option<nat>)
    requires fr.highest >= PAGE
  {
    match FindFrom(fr, 0)
    case Some(p) =>
      if p == 0 then (fr.(locked := true), None) else (MarkUsed(fr, p), Some(p))
    case None => (fr.(locked := true), None)
  }

  // ----- Theorem: the counters agree with the bitmap -----

  ghost predicate Balanced(fr: Frames) {
    fr.total - fr.used == |fr.free|
  }

  ghost predicate UsableDisjoint(es: seq<E820>) {
    forall i, j :: 0 <= i < j < |es| && Usable(es[i]) && Usable(es[j]) ==> Covered(es[i]) !! Covered(es[j])
  }

  /** After the entries `es`, page `p` is free: some usable entry covers it, and no other entry after that does. */
  ghost predicate FreeAfter(es: seq<E820>, p: nat) {
    exists i :: 0 <= i < |es| && Usable(es[i]) && p in Covered(es[i]) && NotTaken(es, i + 1, |es|, p)
  }

  /** No accepted entry of another type in `[i, j)` covers `p`. */
  ghost predicate NotTaken(es: seq<E820>, i: nat, j: nat, p: nat)
    requires j <= |es|
  {
    forall k :: i <= k < j && Accepted(es[k]) && !Usable(es[k]) ==> p !in Covered(es[k])
  }

  /** Two usable entries cover `p`, with no entry of another type between them that does. */
  ghost predicate Twice(es: seq<E820>, i: nat, j: nat, p: nat) {
    && i < j < |es| && Usable(es[i]) && Usable(es[j]) && p in Covered(es[i]) && p in Covered(es[j])
    && NotTaken(es, i + 1, j, p)
  }

  ghost predicate CoveredTwice(es: seq<E820>) {
    exists i, j, p :: Twice(es, i, j, p)
  }

  /** How many pages the usable entries count a second time while they are still free. */
  ghost function Recounted(es: seq<E820>): nat {
    if es == [] then 0
    else Recounted(es[..|es| - 1]) + if Usable(es[|es| - 1]) then |FreeAgain(es[..|es| - 1], es[|es| - 1])| else 0
  }

  /** The pages of `last` that are free after `init`. */
  ghost function FreeAgain(init: seq<E820>, last: E820): set<nat> {
    set p | p in Covered(last) && FreeAfter(init, p)
  }

  lemma SetSizes<T>(a: set<T>, c: set<T>)
    ensures |a + c| == |a| + |c| - |a * c| && |a - c| == |a| - |a * c|
  {
    assert a == (a - c) + (a * c);
  }

  lemma FreeAfterStep(es: seq<E820>, p: nat)
    requires es != []
    ensures var init, last := es[..|es| - 1], es[|es| - 1];
            FreeAfter(es, p) <==>
              if Usable(last) then p in Covered(last) || FreeAfter(init, p)
              else FreeAfter(init, p) && (Accepted(last) ==> p !in Covered(last))
  {
    hide Span, Covered;
    var init, last := es[..|es| - 1], es[|es| - 1];
    if FreeAfter(es, p) {
      var i :| 0 <= i < |es| && Usable(es[i]) && p in Covered(es[i]) && NotTaken(es, i + 1, |es|, p);
      if i < |init| {
        assert init[i] == es[i] && NotTaken(init, i + 1, |init|, p);
      }
    }
    if FreeAfter(init, p) && !(Accepted(last) && !Usable(last) && p in Covered(last)) {
      var i :| 0 <= i < |init| && Usable(init[i]) && p in Covered(init[i]) && NotTaken(init, i + 1, |init|, p);
      forall k | i + 1 <= k < |es| && Accepted(es[k]) && !Usable(es[k]) ensures p !in Covered(es[k]) {
        assert k < |init| ==> es[k] == init[k];
      }
      assert es[i] == init[i] && NotTaken(es, i + 1, |es|, p);
    }
    if Usable(last) && p in Covered(last) {
      assert NotTaken(es, |es|, |es|, p);
    }
  }

  /** The free pages, from the entries alone. */
  lemma {:induction false} FreeAfterIff(fr: Frames, es: seq<E820>, p: nat)
    requires fr.free == {}
    ensures p in AddEntries(fr, es).free <==> FreeAfter(es, p)
  {
    if es != [] {
      FreeAfterIff(fr, es[..|es| - 1], p);
      FreeAfterStep(es, p);
      hide FreeAfter;
    }
  }

  lemma {:induction false} DoubleCounted(fr: Frames, es: seq<E820>)
    requires fr.free == {} && fr.total == fr.used
    ensures var r := AddEntries(fr, es); r.total - r.used == |r.free| + Recounted(es)
  {
    if es != [] {
      hide Span, FreeAfter, FreeAgain;
      var init, last := es[..|es| - 1], es[|es| - 1];
      DoubleCounted(fr, init);
      FreeAgainIs(fr, init, last);
      SetSizes(AddEntries(fr, init).free, Covered(last));
      CoveredSize(last);
    }
  }

  lemma CoveredSize(e: E820)
    ensures |Covered(e)| == PageCount(e)
  {
  }

  lemma FreeAgainIs(fr: Frames, init: seq<E820>, last: E820)
    requires fr.free == {}
    ensures AddEntries(fr, init).free * Covered(last) == FreeAgain(init, last)
  {
    hide Span, FreeAfter, AddEntries, Covered;
    forall p ensures p in AddEntries(fr, init).free <==> FreeAfter(init, p) {
      FreeAfterIff(fr, init, p);
    }
  }

  /** Nothing is counted twice if and only if no page is covered twice. */
  lemma {:induction false} RecountedIff(es: seq<E820>)
    ensures Recounted(es) == 0 <==> !CoveredTwice(es)
  {
    hide Recounted, CoveredTwice, FreeAgain;
    if es == [] {
      NothingTwice(es);
    } else {
      RecountedIff(es[..|es| - 1]);
      RecountedStep(es);
      TwiceStep(es);
    }
  }

  lemma NothingTwice(es: seq<E820>)
    requires es == []
    ensures Recounted(es) == 0 && !CoveredTwice(es)
  {
  }

  lemma TwiceStep(es: seq<E820>)
    requires es != []
    ensures var init, last := es[..|es| - 1], es[|es| - 1];
            CoveredTwice(es) <==> CoveredTwice(init) || (Usable(last) && FreeAgain(init, last) != {})
  {
    hide Span, Covered;
    var init, last := es[..|es| - 1], es[|es| - 1];
    assert forall k :: 0 <= k < |init| ==> es[k] == init[k];
    if CoveredTwice(init) {
      var i, j, p :| Twice(init, i, j, p);
      assert Twice(es, i, j, p);
    }
    if Usable(last) && FreeAgain(init, last) != {} {
      var p :| p in FreeAgain(init, last);
      var i :| 0 <= i < |init| && Usable(init[i]) && p in Covered(init[i]) && NotTaken(init, i + 1, |init|, p);
      assert Twice(es, i, |es| - 1, p);
    }
    if CoveredTwice(es) {
      var i: nat, j: nat, p: nat :| Twice(es, i, j, p);
      if j < |init| {
        assert Twice(init, i, j, p);
      } else {
        assert NotTaken(init, i + 1, |init|, p);
        assert p in FreeAgain(init, last);
      }
    }
  }

  lemma RecountedStep(es: seq<E820>)
    requires es != []
    ensures Recounted(es) == Recounted(es[..|es| - 1]) + if Usable(es[|es| - 1])
            then |FreeAgain(es[..|es| - 1], es[|es| - 1])| else 0
  {
  }

  lemma NothingRecounted(es: seq<E820>)
    requires UsableDisjoint(es)
    ensures Recounted(es) == 0
  {
    RecountedIff(es);
  }

  lemma LowPagesBalance(fr: Frames)
    ensures |fr.free| == |fr.free - Span(0, LOW_PAGES)| + |fr.free * Span(0, LOW_PAGES)|
  {
    assert fr.free == (fr.free - Span(0, LOW_PAGES)) + (fr.free * Span(0, LOW_PAGES));
  }

  /** What the memory past the bitmap can change: if its first bit is clear and an entry overruns, that bit is set
      and counted once. */
  lemma {:induction false} AddForeign(fr: Frames, foreign: set<nat>, es: seq<E820>, n: nat)
    requires fr.free == {} && Within(es, n) && forall p :: p in foreign ==> p >= n
    ensures var a, b := AddEntries(fr, es), AddEntries(fr.(free := foreign), es);
            var hit := Overruns(es, n) && n in foreign;
            && (forall p :: p in a.free ==> p < n)
            && b == WithForeign(a, foreign, n, hit)
  {
    if es != [] {
      var init, last := es[..|es| - 1], es[|es| - 1];
      assert last in es && (forall e :: e in init ==> e in es) && forall e :: e in es ==> e in init || e == last;
      AddForeign(fr, foreign, init, n);
      AddForeignStep(AddEntries(fr, init), foreign, last, n, Overruns(init, n) && n in foreign);
      assert Overruns(es, n) <==> Overruns(init, n) || Reaches(last, n);
    }
  }

  /** The frames with the foreign pages; `hit` if the first of them was taken and counted. */
  function WithForeign(a: Frames, foreign: set<nat>, n: nat, hit: bool): Frames {
    a.(free := a.free + Left(foreign, n, hit), used := a.used + if hit then 1 else 0)
  }

  function Left(foreign: set<nat>, n: nat, hit: bool): set<nat> {
    if hit then foreign - {n} else foreign
  }

  predicate Reaches(e: E820, n: nat) {
    Accepted(e) && e.kind != 1 && e.base / PAGE + PageCount(e) > n
  }

  lemma AddForeignStep(a: Frames, foreign: set<nat>, e: E820, n: nat, hit: bool)
    requires (forall p :: p in foreign ==> p >= n) && (forall p :: p in a.free ==> p < n) && (hit ==> n in foreign)
    requires Accepted(e) ==> e.base / PAGE + PageCount(e) <= if e.kind == 1 then n else n + 1
    ensures forall p :: p in AddEntry(a, e).free ==> p < n
    ensures AddEntry(WithForeign(a, foreign, n, hit), e) ==
            WithForeign(AddEntry(a, e), foreign, n, hit || (n in foreign && Reaches(e, n)))
  {
    hide Span;
    if Accepted(e) {
      CoveredBound(e, n);
      if e.kind == 1 {
        GiveForeign(a, foreign, e, n, hit);
      } else {
        TakeForeign(a, foreign, e, n, hit);
      }
    }
  }

  lemma GiveForeign(a: Frames, foreign: set<nat>, e: E820, n: nat, hit: bool)
    requires Accepted(e) && e.kind == 1
    ensures AddEntry(WithForeign(a, foreign, n, hit), e) == WithForeign(AddEntry(a, e), foreign, n, hit)
  {
    hide Span, PageCount;
    var f := Left(foreign, n, hit);
    assert a.free + f + Covered(e) == a.free + Covered(e) + f;
  }

  lemma TakeForeign(a: Frames, foreign: set<nat>, e: E820, n: nat, hit: bool)
    requires (forall p :: p in foreign ==> p >= n) && (forall p :: p in a.free ==> p < n) && (hit ==> n in foreign)
    requires Accepted(e) && e.kind != 1 && (forall p :: p in Covered(e) ==> p <= n)
             && (n in Covered(e) <==> Reaches(e, n))
    ensures AddEntry(WithForeign(a, foreign, n, hit), e) ==
            WithForeign(AddEntry(a, e), foreign, n, hit || (n in foreign && Reaches(e, n)))
  {
    hide Span, PageCount, Reaches, Left;
    TakeLeft(a.free, foreign, Covered(e), n, hit, Reaches(e, n));
  }

  lemma TakeLeft(free: set<nat>, foreign: set<nat>, c: set<nat>, n: nat, hit: bool, reach: bool)
    requires (forall p :: p in free ==> p < n) && (forall p :: p in foreign ==> p >= n) && (hit ==> n in foreign)
    requires (forall p :: p in c ==> p <= n) && (reach <==> n in c)
    ensures var hit' := hit || (n in foreign && reach);
            && (free + Left(foreign, n, hit)) - c == (free - c) + Left(foreign, n, hit')
            && |(free + Left(foreign, n, hit)) * c| + (if hit then 1 else 0) == |free * c| + if hit' then 1 else 0
  {
    TakeBoth(free, Left(foreign, n, hit), c, n, reach);
    assert reach ==> Left(foreign, n, hit) - {n} == Left(foreign, n, hit || (n in foreign && reach));
  }

  lemma CoveredBound(e: E820, n: nat)
    requires e.base / PAGE + PageCount(e) <= if e.kind == 1 then n else n + 1
    requires Accepted(e)
    ensures forall p :: p in Covered(e) ==> p < (if e.kind == 1 then n else n + 1)
    ensures n in Covered(e) <==> e.base / PAGE + PageCount(e) > n
  {
    hide Span;
    assert forall p :: p in Covered(e) <==> InSpan(p, e.base / PAGE, PageCount(e));
  }

  /** Taking the pages `c` from a free set with foreign pages `f`. */
  lemma TakeBoth(free: set<nat>, f: set<nat>, c: set<nat>, n: nat, reach: bool)
    requires (forall p :: p in free ==> p < n) && (forall p :: p in f ==> p >= n)
    requires (forall p :: p in c ==> p <= n) && (reach <==> n in c)
    ensures (free + f) - c == (free - c) + (if reach then f - {n} else f)
    ensures |(free + f) * c| == |free * c| + if reach && n in f then 1 else 0
  {
    if reach && n in f {
      assert (free + f) * c == free * c + {n};
    } else {
      assert (free + f) * c == free * c;
    }
  }

  /** One if a reserved entry marks the page past the bitmap and finds its bit clear. */
  function Extra(es: seq<E820>, foreign: set<nat>): nat
    requires es != []
  {
    if Overruns(es, Limit(es)) && Limit(es) in foreign then 1 else 0
  }

  /** `pmm_init` with the memory past the bitmap: only the count of used pages can differ. */
  lemma InitForeign(es: seq<E820>, foreign: set<nat>)
    requires es != [] && NearlyFits(es) && forall p :: p in foreign ==> p >= Limit(es)
    ensures Init(es, foreign) == Init(es, {}).(used := Init(es, {}).used + Extra(es, foreign))
    ensures Init(es, {}) == TakeSpan(AddEntries(Blank(es, {}), es), 0, LOW_PAGES)
    ensures forall p :: p in Init(es, {}).free ==> p < Limit(es)
  {
    hide AddEntries, Overruns, Span, TakeSpan, Inside;
    var n := Limit(es);
    AddForeign(Blank(es, {}), foreign, es, n);
    AddEntriesFrame(Blank(es, {}), es);
    assert Blank(es, {}).(free := foreign) == Blank(es, foreign);
    var a := AddEntries(Blank(es, {}), es);
    InsideLow(a, foreign, n, Overruns(es, n) && n in foreign);
    InsideLow(a, {}, n, false);
    assert WithForeign(a, {}, n, false) == a;
  }

  lemma InsideLow(a: Frames, foreign: set<nat>, n: nat, hit: bool)
    requires (forall p :: p in foreign ==> p >= n) && (forall p :: p in a.free ==> p < n) && LOW_PAGES <= n
             && a.pages == n
    ensures var b := WithForeign(a, foreign, n, hit);
            var x := TakeSpan(a, 0, LOW_PAGES);
            && Inside(TakeSpan(b, 0, LOW_PAGES), n) == x.(used := x.used + if hit then 1 else 0)
            && (forall p :: p in x.free ==> p < n)
  {
    hide Span;
    var low := Span(0, LOW_PAGES);
    assert forall p :: p in low <==> InSpan(p, 0, LOW_PAGES);
    var f := Left(foreign, n, hit);
    assert (a.free + f) * low == a.free * low;
    assert (set p | p in (a.free + f) - low && p < n) == a.free - low;
  }

  /** The counters agree with the bitmap if and only if the pages counted twice are as many as the one marked past the
      bitmap. Without such a page: if and only if no page is covered by two usable entries with no other entry between
      them that takes it. With disjoint usable entries: if and only if there is no such page. */
  lemma InitBalanced(es: seq<E820>, foreign: set<nat>)
    requires es != [] && NearlyFits(es) && forall p :: p in foreign ==> p >= Limit(es)
    ensures var r := Init(es, foreign);
            && r.total - r.used == |r.free| + Recounted(es) - Extra(es, foreign)
            && (Balanced(r) <==> Recounted(es) == Extra(es, foreign))
            && (Extra(es, foreign) == 0 ==> (Balanced(r) <==> !CoveredTwice(es)))
            && (UsableDisjoint(es) ==> (Balanced(r) <==> Extra(es, foreign) == 0))
  {
    hide Span, CoveredTwice, UsableDisjoint, Recounted;
    InitForeign(es, foreign);
    DoubleCounted(Blank(es, {}), es);
    LowPagesBalance(AddEntries(Blank(es, {}), es));
    RecountedIff(es);
    if UsableDisjoint(es) {
      NothingRecounted(es);
    }
  }

  /** The extra page lies past the bitmap exactly for an accepted entry that is not usable and whose own pages end
      with the last bit. */
  lemma FitsUnlessTailed(es: seq<E820>)
    requires es != [] && NearlyFits(es)
    ensures Fits(es) <==> !Overruns(es, Limit(es))
    ensures Overruns(es, Limit(es)) <==>
            exists e :: e in es && Accepted(e) && e.kind != 1 && e.base / PAGE + (e.length + 4095) / 4096 == Limit(es)
  {
    var n := Limit(es);
    if !Fits(es) {
      var e :| e in es && Accepted(e) && e.base / PAGE + PageCount(e) > n;
      assert Reaches(e, n);
    }
    if Overruns(es, n) {
      var e :| e in es && Reaches(e, n);
      assert e.base / PAGE + (e.length + 4095) / 4096 == n;
    }
    if e :| e in es && Accepted(e) && e.kind != 1 && e.base / PAGE + (e.length + 4095) / 4096 == n {
      assert Reaches(e, n);
    }
  }

  /** The last entry of a map, if it starts on a page and is not usable, overruns exactly if it ends with a byte of
      the bitmap: one time in eight. */
  lemma LastEntryOverruns(es: seq<E820>)
    requires es != [] && NearlyFits(es) && Accepted(es[|es| - 1]) && es[|es| - 1].kind != 1
             && es[|es| - 1].base % PAGE == 0
    ensures var last := es[|es| - 1];
            last.base / PAGE + PageCount(last) > Limit(es) <==> (End(last) + PAGE - 1) / PAGE % 8 == 0
  {
    var last := es[|es| - 1];
    assert (End(last) + PAGE - 1) / PAGE == last.base / PAGE + (last.length + 4095) / 4096;
  }

  /** A map of 16 MB and a reserved tail of eight pages: disjoint, nearly fitting, and one page short in the count. */
  lemma ReservedTailOverruns()
    ensures var es := [E820(20, 0, 0x100_0000, 1, 0), E820(20, 0x100_0000, 0x8000, 2, 0)];
            && NearlyFits(es) && !Fits(es) && UsableDisjoint(es) && Limit(es) == 4104
            && var r := Init(es, {4104}); r.total - r.used == |r.free| - 1
  {
    var a, b := E820(20, 0, 0x100_0000, 1, 0), E820(20, 0x100_0000, 0x8000, 2, 0);
    var es := [a, b];
    assert es[1] == b && Limit(es) == 4104;
    assert PageCount(a) == 4096 && PageCount(b) == 9;
    assert b in es && Reaches(b, 4104);
    assert UsableDisjoint(es);
    hide Span;
    InitBalanced(es, {4104});
    NothingRecounted(es);
  }

  /** Listing a usable entry twice makes the counters promise frames that do not exist. */
  lemma OverlapUnbalances(e: E820)
    requires Usable(e) && NearlyFits([e, e])
    ensures var r := Init([e, e], {}); r.total - r.used > |r.free|
  {
    var es := [e, e];
    InitBalanced(es, {});
    assert InSpan(e.base / PAGE, e.base / PAGE, PageCount(e));
    assert NotTaken(es, 1, 1, e.base / PAGE);
    assert Twice(es, 0, 1, e.base / PAGE);
    RecountedIff(es);
  }

  /** One step of the allocator keeps the balance; a freed page must have been taken. */
  lemma StepsBalanced(fr: Frames, p: nat)
    requires Balanced(fr)
    ensures Balanced(MarkUsed(fr, p)) && Balanced(MarkFree(fr, p))
    ensures fr.highest >= PAGE ==> Balanced(Alloc(fr).0)
  {
  }

  // ----- Theorem: what highest_usable_address means -----

  /** `highest + 1` is the largest end of an accepted usable entry, and every free page starts
      at or below `highest`. */
  lemma {:induction false} HighestIsLargestEnd(fr: Frames, es: seq<E820>)
    requires fr.highest == 0 && fr.free == {}
    ensures var r := AddEntries(fr, es);
            && (forall e :: e in es && Usable(e) ==> End(e) <= r.highest + 1)
            && ((exists e :: e in es && Usable(e)) ==> exists e :: e in es && Usable(e) && End(e) == r.highest + 1)
            && (!(exists e :: e in es && Usable(e)) ==> r.highest == 0)
            && (forall p :: p in r.free ==> p * PAGE <= r.highest)
  {
    if es != [] {
      var init, last := es[..|es| - 1], es[|es| - 1];
      HighestIsLargestEnd(fr, init);
      assert es == init + [last];
      var before, r := AddEntries(fr, init), AddEntry(AddEntries(fr, init), last);
      assert AddEntries(fr, es) == r;
      if Usable(last) {
        assert End(last) <= r.highest + 1;
        forall p | p in r.free ensures p * PAGE <= r.highest {
          if p in Covered(last) {
            assert InSpan(p, last.base / PAGE, PageCount(last));
          }
        }
        if End(last) > before.highest {
          assert last in es && Usable(last) && End(last) == r.highest + 1;
        } else {
          assert before.highest > 0;
          var e :| e in init && Usable(e) && End(e) == before.highest + 1;
          assert e in es;
        }
      } else {
        assert r.highest == before.highest && r.free <= before.free;
        if e :| e in es && Usable(e) {
          assert e in init;
          var e' :| e' in init && Usable(e') && End(e') == before.highest + 1;
          assert e' in es;
        }
      }
    }
  }

  // ----- Theorem: the allocation margin -----

  /** The free pages that `pmm_find_page` can return. */
  ghost function Reachable(fr: Frames): set<nat> {
    set p | p in fr.free && p > 0 && (p + 1) * PAGE < fr.highest
  }

  /** The invariant `pmm_init` sets up: page 0 is taken and no free page starts above the top. */
  ghost predicate Ready(fr: Frames) {
    && fr.highest >= PAGE
    && 0 !in fr.free
    && forall p :: p in fr.free ==> p * PAGE <= fr.highest && p < fr.pages
  }

  /** The search returns the lowest reachable free page, and fails only if there is none. */
  lemma {:induction false} FindIsLowest(fr: Frames, p: nat)
    requires Ready(fr)
    ensures var r := FindFrom(fr, p);
            match r
            case Some(q) => q >= p && q in fr.free && (q == p || q in Reachable(fr))
                            && forall k :: k in fr.free && p <= k && (k == p ==> k * PAGE < fr.highest) ==> q <= k
            case None => forall k :: k in Reachable(fr) ==> k < p
    decreases fr.highest - p * PAGE
  {
    if p in fr.free && p * PAGE < fr.highest {
    } else if (p + 1) * PAGE >= fr.highest - PAGE {
      forall k | k in Reachable(fr) ensures k < p {
        assert (k + 1) * PAGE < fr.highest;
      }
    } else {
      FindIsLowest(fr, p + 1);
    }
  }

  lemma AllocTakesLowest(fr: Frames)
    requires Ready(fr)
    ensures var (fr', r) := Alloc(fr);
            match r
            case Some(q) =>
              && q in Reachable(fr) && q in fr.free && (forall k :: k in fr.free ==> q <= k)
              && fr' == fr.(free := fr.free - {q}, used := fr.used + 1)
              && Ready(fr') && Reachable(fr') == Reachable(fr) - {q}
            case None => Reachable(fr) == {} && fr' == fr.(locked := true)
  {
    FindIsLowest(fr, 0);
  }

  /** At most one free page is out of reach, or two when the top of memory is one byte into a page. */
  lemma UnreachableFew(fr: Frames)
    requires Ready(fr)
    ensures |Reachable(fr)| >= |fr.free| - (if fr.highest % PAGE == 0 then 2 else 1)
  {
    var t := fr.highest / PAGE;
    var rest := fr.free - Reachable(fr);
    assert fr.free == Reachable(fr) + rest;
    var few := if fr.highest % PAGE == 0 then {t, t - 1} else {t};
    forall p | p in rest ensures p in few {
      assert (p + 1) * PAGE >= fr.highest && p * PAGE <= fr.highest;
    }
    SubsetSize(rest, few);
  }

  lemma SubsetSize<T>(a: set<T>, b: set<T>)
    requires a <= b
    ensures |a| <= |b|
  {
    assert b == a + (b - a);
  }

  /** `n` successive calls of `pmm_alloc_page`, stopping at the first failure. */
  function AllocMany(fr: Frames, n: nat): (Frames, seq<nat>)
    requires fr.highest >= PAGE
    decreases n
  {
    if n == 0 then (fr, [])
    else
      var (fr', r) := Alloc(fr);
      match r
      case None => (fr', [])
      case Some(p) => var (fr'', ps) := AllocMany(fr', n - 1); (fr'', [p] + ps)
  }

  /** Distinct, ascending pages of `before`, and what is left of it. */
  ghost predicate TakenInOrder(before: set<nat>, after: set<nat>, ps: seq<nat>) {
    && (forall i :: 0 <= i < |ps| ==> ps[i] in before)
    && (forall i, j :: 0 <= i < j < |ps| ==> ps[i] < ps[j])
    && after == before - (set p | p in ps)
  }

  lemma TakenFirst(before: set<nat>, after: set<nat>, q: nat, ps: seq<nat>)
    requires q in before && (forall k :: k in before ==> q <= k) && TakenInOrder(before - {q}, after, ps)
    ensures TakenInOrder(before, after, [q] + ps)
  {
    var all := [q] + ps;
    assert forall i :: 1 <= i < |all| ==> all[i] == ps[i - 1];
    assert (set p | p in all) == {q} + (set p | p in ps);
  }

  /** `n` calls succeed exactly when `n` pages are reachable; they return distinct, ascending
      pages that were free, and take those pages only. */
  lemma {:induction false} AllocManyExact(fr: Frames, n: nat)
    requires Ready(fr)
    ensures var (fr', ps) := AllocMany(fr, n);
            (|ps| == n <==> n <= |Reachable(fr)|) && TakenInOrder(fr.free, fr'.free, ps)
    decreases n
  {
    hide Alloc, Reachable, TakenInOrder;
    if n > 0 {
      AllocTakesLowest(fr);
      var (fr1, r) := Alloc(fr);
      if r.Some? {
        AllocManyExact(fr1, n - 1);
        var (fr2, ps) := AllocMany(fr1, n - 1);
        TakenFirst(fr.free, fr2.free, r.value, ps);
      } else {
        TakenNone(fr.free);
      }
    } else {
      TakenNone(fr.free);
    }
  }

  lemma TakenNone(before: set<nat>)
    ensures TakenInOrder(before, before, [])
  {
  }

  /** The two topmost pages are free and the top of usable memory is one byte into the upper one. */
  ghost predicate TopSplit(fr: Frames) {
    fr.highest % PAGE == 0 && fr.highest / PAGE in fr.free && fr.highest / PAGE - 1 in fr.free
  }

  /** The test `total_pages - used_pages > n` is enough for `n` allocations, whatever `n` is, if and only if not both
      topmost pages are free with the top one byte into the upper one. */
  lemma AllocationMargin(fr: Frames)
    requires Ready(fr) && Balanced(fr)
    ensures !TopSplit(fr) <==> forall n: nat :: fr.total - fr.used > n ==> |AllocMany(fr, n).1| == n
  {
    hide AllocMany, FindFrom, Alloc;
    var t := fr.highest / PAGE;
    var rest := fr.free - Reachable(fr);
    assert fr.free == Reachable(fr) + rest;
    if TopSplit(fr) {
      assert {t, t - 1} <= rest;
      SubsetSize({t, t - 1}, rest);
      var n := |fr.free| - 1;
      AllocManyExact(fr, n);
      assert fr.total - fr.used > n && |AllocMany(fr, n).1| != n;
    } else {
      MarginEnough(fr);
      forall n: nat | fr.total - fr.used > n ensures |AllocMany(fr, n).1| == n {
        AllocManyExact(fr, n);
      }
    }
  }

  lemma MarginEnough(fr: Frames)
    requires Ready(fr) && !TopSplit(fr)
    ensures |Reachable(fr)| >= |fr.free| - 1
  {
    var t := fr.highest / PAGE;
    var rest := fr.free - Reachable(fr);
    assert fr.free == Reachable(fr) + rest;
    var one := if fr.highest % PAGE == 0 && t !in fr.free then {t - 1} else {t};
    forall p | p in rest ensures p in one {
      assert (p + 1) * PAGE >= fr.highest && p * PAGE <= fr.highest;
    }
    SubsetSize(rest, one);
  }

  /** A map with such a top: one usable entry of 4097 pages and a byte. The test passes for 2049 pages, and 2048 can
      be had. */
  lemma MarginNeedsAlignedTop()
    ensures var es := [E820(20, 0, 4097 * 4096 + 1, 1, 0)];
            && NearlyFits(es) && es != []
            && var fr := Init(es, {});
               Ready(fr) && Balanced(fr) && fr.total - fr.used > 2049 && |AllocMany(fr, 2049).1| < 2049
  {
    hide AllocMany, Span, Recounted;
    var e := E820(20, 0, 4097 * 4096 + 1, 1, 0);
    var es := [e];
    InitBalanced(es, {});
    NothingRecounted(es);
    InitForeign(es, {});
    var a := AddEntries(Blank(es, {}), es);
    assert es[..0] == [] && AddEntries(Blank(es, {}), []) == Blank(es, {});
    assert a == AddEntry(Blank(es, {}), e);
    var fr := Init(es, {});
    assert fr.highest == 4097 * 4096 && PageCount(e) == 4098;
    assert forall p :: p in fr.free <==> 2048 <= p < 4098 by {
      assert forall p :: p in Span(0, 4098) <==> InSpan(p, 0, 4098);
      assert forall p :: p in Span(0, LOW_PAGES) <==> InSpan(p, 0, LOW_PAGES);
    }
    InitReady(es, {});
    assert fr.free == Span(2048, 2050) by { assert forall p :: p in Span(2048, 2050) <==> InSpan(p, 2048, 2050); }
    assert Reachable(fr) == Span(2048, 2048) by { assert forall p :: p in Span(2048, 2048) <==> InSpan(p, 2048, 2048); }
    assert fr.total - fr.used == 2050;
    AllocManyExact(fr, 2049);
    AllocManyAtMost(fr, 2049);
  }

  lemma {:induction false} AllocManyAtMost(fr: Frames, n: nat)
    requires fr.highest >= PAGE
    ensures |AllocMany(fr, n).1| <= n
    decreases n
  {
    if n > 0 {
      var (fr', r) := Alloc(fr);
      if r.Some? {
        AllocManyAtMost(fr', n - 1);
      }
    }
  }

  /** `pmm_init` establishes what the search relies on. */
  lemma InitReady(es: seq<E820>, foreign: set<nat>)
    requires es != [] && NearlyFits(es) && (forall p :: p in foreign ==> p >= Limit(es))
             && Init(es, foreign).highest >= PAGE
    ensures Ready(Init(es, foreign)) && !Init(es, foreign).locked
    ensures forall p :: p in Init(es, foreign).free ==> p >= LOW_PAGES
  {
    hide AddEntries, Inside, Span, Overruns;
    InitForeign(es, foreign);
    HighestIsLargestEnd(Blank(es, {}), es);
    AddEntriesFrame(Blank(es, {}), es);
    assert forall p :: p in Span(0, LOW_PAGES) <==> InSpan(p, 0, LOW_PAGES);
    assert InSpan(0, 0, LOW_PAGES);
  }

  lemma {:induction false} AddEntriesFrame(fr: Frames, es: seq<E820>)
    ensures AddEntries(fr, es).pages == fr.pages && AddEntries(fr, es).locked == fr.locked
  {
    if es != [] {
      AddEntriesFrame(fr, es[..|es| - 1]);
    }
  }

  // ----- Theorem: conservation over every run -----

  /** A caller allocates, or frees a page it owns. */
  datatype Op = Take | Give(p: nat)

  /** The allocator and the pages handed out, after a run; a `Give` of a page that is not owned
      is not a legal call and ends the run. */
  function Run(fr: Frames, owned: set<nat>, ops: seq<Op>): (Frames, set<nat>)
    requires fr.highest >= PAGE
    decreases |ops|
  {
    if ops == [] then (fr, owned)
    else match ops[0]
      case Take =>
        var (fr', r) := Alloc(fr);
        if r.Some? then Run(fr', owned + {r.value}, ops[1..]) else (fr', owned)
      case Give(p) =>
        if p in owned then Run(MarkFree(fr, p), owned - {p}, ops[1..]) else (fr, owned)
  }

  /** Pages that were handed out: real frames, none of them free. */
  ghost predicate HandedOut(fr: Frames, owned: set<nat>) {
    && owned !! fr.free
    && forall p :: p in owned ==> 0 < p < fr.pages && p * PAGE <= fr.highest
  }

  ghost predicate Sound(fr: Frames, owned: set<nat>) {
    Ready(fr) && Balanced(fr) && HandedOut(fr, owned)
  }

  lemma TakeSound(fr: Frames, owned: set<nat>)
    requires Sound(fr, owned)
    ensures var (fr', r) := Alloc(fr);
            match r
            case Some(p) => Sound(fr', owned + {p}) && owned + {p} + fr'.free == owned + fr.free
            case None => Sound(fr', owned) && fr'.free == fr.free
  {
    AllocTakesLowest(fr);
  }

  lemma GiveSound(fr: Frames, owned: set<nat>, p: nat)
    requires Sound(fr, owned) && p in owned
    ensures Sound(MarkFree(fr, p), owned - {p})
    ensures owned - {p} + MarkFree(fr, p).free == owned + fr.free
  {
  }

  /** No run creates, loses or hands out a frame twice, and the counters keep agreeing. */
  lemma {:induction false} RunConserves(fr: Frames, owned: set<nat>, ops: seq<Op>)
    requires Sound(fr, owned)
    ensures var (fr', owned') := Run(fr, owned, ops);
            Sound(fr', owned') && owned' + fr'.free == owned + fr.free
    decreases |ops|
  {
    if ops != [] {
      match ops[0]
      case Take =>
        TakeSound(fr, owned);
        var (fr', r) := Alloc(fr);
        if r.Some? {
          RunConserves(fr', owned + {r.value}, ops[1..]);
        }
      case Give(p) =>
        if p in owned {
          GiveSound(fr, owned, p);
          RunConserves(MarkFree(fr, p), owned - {p}, ops[1..]);
        }
    }
  }
}
