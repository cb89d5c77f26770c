/** The locks are taken in the order heap, vmm, pmm (kernel/src/mm/mm.c, vmm.c, pmm.c): as long as no allocation has
    found the bitmap empty and no table lies outside the window, no interleaving deadlocks, and the calls that are under
    way can all be completed. */
module LockOrder {
  import opened Concurrency

  /** Every CPU holds just the locks that its code runs under, and every lock taken is held by somebody. */
  ghost predicate Clean(s: State) {
    && (forall c :: c in s.cpus ==> s.cpus[c].held == Needs(s.cpus[c].pc) && s.cpus[c].pc != Hang)
    && (forall l :: l in s.taken ==> exists c :: c in s.cpus && l in s.cpus[c].held)
  }

  /** CPU `c` waits for a lock that is taken. */
  predicate Waits(s: State, c: nat)
    requires c in s.cpus
  {
    s.cpus[c].pc.Acquire? && s.cpus[c].pc.l in s.taken
  }

  ghost predicate AllIdle(s: State) {
    forall c :: c in s.cpus ==> s.cpus[c].pc == Idle
  }

  // ----- What keeps a state clean -----

  /** Steps that make it impossible to go on: no frame is found, or a table lies outside the window. */
  predicate Fails(s: State, c: nat, choice: Choice) {
    c in s.cpus && ((s.cpus[c].pc.FindFrame? && choice == NotFound) || (s.cpus[c].pc.Descend? && choice == Outside))
  }

  ghost predicate NoneFails(s: State, schedule: seq<(nat, Choice)>)
    decreases |schedule|
  {
    schedule != [] ==>
      !Fails(s, schedule[0].0, schedule[0].1) && NoneFails(Step(s, schedule[0].0, schedule[0].1), schedule[1..])
  }

  /** What one step does to its CPU's locks. */
  ghost predicate Moves(s: State, s': State, c: nat)
    requires c in s.cpus
  {
    && s'.cpus.Keys == s.cpus.Keys && (forall d :: d in s.cpus && d != c ==> s'.cpus[d] == s.cpus[d])
    && s'.cpus[c].held == Needs(s'.cpus[c].pc) && s'.cpus[c].pc != Hang
    && s'.taken == s.taken - s.cpus[c].held + s'.cpus[c].held
  }

  /** A step that takes and releases nothing. */
  lemma GotoMoves(s: State, s': State, c: nat, pc: Pc)
    requires c in s.cpus && s.cpus[c].held == Needs(s.cpus[c].pc) <= s.taken && Needs(pc) == Needs(s.cpus[c].pc)
             && pc != Hang
    requires s'.cpus == s.cpus[c := s.cpus[c].(pc := pc)] && s'.taken == s.taken
    ensures Moves(s, s', c)
  {
    hide Needs;
  }

  lemma AcquireMoves(s: State, c: nat, l: Lock, tested: bool, next: Pc)
    requires c in s.cpus && s.cpus[c].pc == Acquire(l, tested, next) && Shape(s.cpus[c].pc)
    requires s.cpus[c].held == Needs(s.cpus[c].pc) <= s.taken
    ensures Moves(s, StepAcquire(s, c, l, tested, next), c)
  {
    NextNeeds(l, next);
    hide Needs, Shape;
  }

  lemma NextNeeds(l: Lock, next: Pc)
    requires Shape(Acquire(l, false, next))
    ensures l in Needs(next) && next != Hang && forall b :: Needs(Acquire(l, b, next)) == Needs(next) - {l}
  {
  }

  lemma ReleaseMoves(s: State, c: nat, l: Lock, next: Pc)
    requires c in s.cpus && s.cpus[c].pc == Release(l, next) && Shape(s.cpus[c].pc)
    requires s.cpus[c].held == Needs(s.cpus[c].pc) <= s.taken
    ensures Moves(s, StepRelease(s, c, l, next), c)
  {
    LastNeeds(l, next);
    hide Needs, Shape;
  }

  lemma LastNeeds(l: Lock, next: Pc)
    requires Shape(Release(l, next))
    ensures l !in Needs(next) && next != Hang && Needs(Release(l, next)) == Needs(next) + {l}
  {
    assert Needs(Idle) == {};
  }

  lemma IdleMoves(s: State, c: nat, choice: Choice)
    requires c in s.cpus && s.cpus[c] == Cpu(Idle, {})
    ensures Moves(s, StepIdle(s, c, choice), c)
  {
    assert Needs(FindFrame(Bare)) == {PmmLock} && Needs(Idle) == {};
    match choice
    case CallFree(f) => assert Needs(ClearFrame(f, Idle)) == {PmmLock};
    case CallMalloc(n) => assert Needs(Check(n)) == {HeapLock};
    case CallKfree(ptr) =>
      if ptr in s.live {
        assert Needs(FreeLoop(ptr, s.live[ptr], 0)) == {VmmLock};
      }
    case _ =>
  }

  lemma FrameMoves(s: State, c: nat, choice: Choice)
    requires c in s.cpus && s.cpus[c].held == Needs(s.cpus[c].pc) <= s.taken && !Fails(s, c, choice)
    requires s.cpus[c].pc.FindFrame? || s.cpus[c].pc.MarkFrame? || s.cpus[c].pc.ClearFrame?
    ensures Moves(s, Step(s, c, choice), c)
  {
    match s.cpus[c].pc
    case FindFrame(use) =>
      if choice.Found? && choice.f !in s.used {
        GotoMoves(s, Step(s, c, choice), c, MarkFrame(use, choice.f));
      }
    case MarkFrame(use, f) =>
      MarkNeeds(use, f);
    case ClearFrame(f, next) =>
      assert Needs(Release(PmmLock, next)) == Needs(next) + {PmmLock};
      hide Mark, Drop;
  }

  lemma MarkNeeds(use: Use, f: nat)
    ensures Needs(Release(PmmLock, AfterMark(use, f))) == Needs(MarkFrame(use, f))
  {
    match use
    case Bare => assert Needs(AfterMark(use, f)) == {};
    case _ => assert Needs(AfterMark(use, f)) == {VmmLock, HeapLock};
  }

  /** The locks of the places in `vmm_alloc` and `vmm_free`. */
  lemma AllocNeeds(ptr: nat, n: nat, i: nat, f: nat, k: nat)
    ensures Needs(Acquire(PmmLock, false, FindFrame(Table(ptr, n, i, f, k)))) == {VmmLock, HeapLock}
    ensures Needs(Acquire(PmmLock, false, FindFrame(Backing(ptr, n, i)))) == {VmmLock, HeapLock}
    ensures Needs(Descend(ptr, n, i, f, k)) == Needs(MapPage(ptr, n, i, f)) == Needs(Loop(ptr, n, i)) ==
            {VmmLock, HeapLock}
    ensures Needs(Release(VmmLock, Finish(ptr, n))) == {VmmLock, HeapLock}
    ensures Needs(Acquire(VmmLock, false, Loop(ptr, n, i))) == Needs(Probe(n, ptr, i)) == Needs(Check(n)) == {HeapLock}
    ensures Needs(Release(HeapLock, Idle)) == Needs(Finish(ptr, n)) == {HeapLock}
  {
    assert Needs(Finish(ptr, n)) == {HeapLock} && Needs(Idle) == {};
    assert Needs(FindFrame(Table(ptr, n, i, f, k))) == Needs(FindFrame(Backing(ptr, n, i))) ==
        {PmmLock, VmmLock, HeapLock};
    assert Needs(Loop(ptr, n, i)) == {VmmLock, HeapLock};
  }

  lemma FreeNeeds(ptr: nat, n: nat, i: nat, f: nat)
    ensures Needs(FreeLoop(ptr, n, i)) == Needs(Unmap(ptr, n, i)) == Needs(Release(VmmLock, Idle)) == {VmmLock}
    ensures Needs(Acquire(PmmLock, false, ClearFrame(f, Unmap(ptr, n, i)))) == {VmmLock}
  {
    assert Needs(Idle) == {} && Needs(Unmap(ptr, n, i)) == {VmmLock};
    assert Needs(ClearFrame(f, Unmap(ptr, n, i))) == {VmmLock, PmmLock};
  }

  lemma MapMoves(s: State, c: nat, choice: Choice)
    requires c in s.cpus && s.cpus[c].held == Needs(s.cpus[c].pc) <= s.taken && !Fails(s, c, choice)
    requires s.cpus[c].pc.Descend? || s.cpus[c].pc.MapPage?
    ensures Moves(s, Step(s, c, choice), c)
  {
    hide Needs, Moves;
    match s.cpus[c].pc
    case Descend(ptr, n, i, f, k) =>
      AllocNeeds(ptr, n, i, f, k);
      GotoMoves(s, Step(s, c, choice), c, Step(s, c, choice).cpus[c].pc);
    case MapPage(ptr, n, i, f) =>
      AllocNeeds(ptr, n, i, f, 0);
      AllocNeeds(ptr, n, i + 1, f, 0);
      GotoMoves(s, Step(s, c, choice), c, Loop(ptr, n, i + 1));
  }

  lemma FreeMoves(s: State, c: nat, choice: Choice)
    requires c in s.cpus && s.cpus[c].held == Needs(s.cpus[c].pc) <= s.taken
             && (s.cpus[c].pc.FreeLoop? || s.cpus[c].pc.Unmap?)
    ensures Moves(s, Step(s, c, choice), c)
  {
    hide Needs, Moves, Drop;
    match s.cpus[c].pc
    case FreeLoop(ptr, n, i) =>
      FreeNeeds(ptr, n, i, if ptr + i in s.pages then s.pages[ptr + i] else 0);
      FreeNeeds(ptr, n, i + 1, 0);
      GotoMoves(s, Step(s, c, choice), c, Step(s, c, choice).cpus[c].pc);
    case Unmap(ptr, n, i) =>
      FreeNeeds(ptr, n, i, 0);
      FreeNeeds(ptr, n, i + 1, 0);
      GotoMoves(s, Step(s, c, choice), c, FreeLoop(ptr, n, i + 1));
  }

  lemma ScanMoves(s: State, c: nat, choice: Choice)
    requires c in s.cpus && s.cpus[c].held == Needs(s.cpus[c].pc) <= s.taken
             && (s.cpus[c].pc.Check? || s.cpus[c].pc.Probe?)
    ensures Moves(s, Step(s, c, choice), c)
  {
    hide Needs, Moves;
    match s.cpus[c].pc
    case Check(n) =>
      AllocNeeds(HEAP_START, n, 0, 0, 0);
      GotoMoves(s, Step(s, c, choice), c, Step(s, c, choice).cpus[c].pc);
    case Probe(n, ptr, i) =>
      AllocNeeds(ptr, n, i, 0, 0);
      AllocNeeds(ptr, n, i + 1, 0, 0);
      AllocNeeds(ptr + 1, n, 0, 0, 0);
      AllocNeeds(ptr, n, 0, 0, 0);
      GotoMoves(s, Step(s, c, choice), c, Step(s, c, choice).cpus[c].pc);
  }

  lemma BuildMoves(s: State, c: nat, choice: Choice)
    requires c in s.cpus && s.cpus[c].held == Needs(s.cpus[c].pc) <= s.taken
             && (s.cpus[c].pc.Loop? || s.cpus[c].pc.Finish?)
    ensures Moves(s, Step(s, c, choice), c)
  {
    hide Needs, Moves, Mark;
    match s.cpus[c].pc
    case Loop(ptr, n, i) =>
      AllocNeeds(ptr, n, i, 0, 0);
      GotoMoves(s, Step(s, c, choice), c, Step(s, c, choice).cpus[c].pc);
    case Finish(ptr, n) =>
      AllocNeeds(ptr, n, 0, 0, 0);
      GotoMoves(s, Step(s, c, choice), c, Release(HeapLock, Idle));
  }

  lemma StepMoves(s: State, c: nat, choice: Choice)
    requires Inv(s) && Clean(s) && c in s.cpus && !Fails(s, c, choice)
    ensures Moves(s, Step(s, c, choice), c)
  {
    assert s.cpus[c].held == Needs(s.cpus[c].pc) <= s.taken && s.cpus[c].pc != Hang && Shape(s.cpus[c].pc) by {
      LocksFacts(s.cpus, s.taken, c);
      HeldTaken(s, c);
      hide Inv;
    }
    hide Inv, Clean, Moves, Shape, StepIdle, StepAcquire, StepRelease;
    match s.cpus[c].pc
    case Idle =>
      assert Needs(Idle) == {};
      IdleMoves(s, c, choice);
    case Acquire(l, tested, next) => AcquireMoves(s, c, l, tested, next);
    case Release(l, next) => ReleaseMoves(s, c, l, next);
    case FindFrame(_) => FrameMoves(s, c, choice);
    case MarkFrame(_, _) => FrameMoves(s, c, choice);
    case ClearFrame(_, _) => FrameMoves(s, c, choice);
    case Check(_) => ScanMoves(s, c, choice);
    case Probe(_, _, _) => ScanMoves(s, c, choice);
    case Loop(_, _, _) => BuildMoves(s, c, choice);
    case Finish(_, _) => BuildMoves(s, c, choice);
    case FreeLoop(_, _, _) => FreeMoves(s, c, choice);
    case Unmap(_, _, _) => FreeMoves(s, c, choice);
    case _ => MapMoves(s, c, choice);
  }

  lemma HeldTaken(s: State, c: nat)
    requires Inv(s) && c in s.cpus
    ensures s.cpus[c].held <= s.taken && forall d :: d in s.cpus && d != c ==> s.cpus[c].held !! s.cpus[d].held
  {
    hide FramesOk, LiveOk, AllHands, AllClaims, Needs, Shape;
  }

  lemma StepClean(s: State, c: nat, choice: Choice)
    requires Inv(s) && Clean(s) && !Fails(s, c, choice)
    ensures Clean(Step(s, c, choice))
  {
    if c in s.cpus {
      StepMoves(s, c, choice);
      HeldTaken(s, c);
      hide Step, Inv, Needs, Fails;
      var s' := Step(s, c, choice);
      forall l | l in s'.taken ensures exists d :: d in s'.cpus && l in s'.cpus[d].held {
        if l in s'.cpus[c].held {
        } else {
          var d :| d in s.cpus && l in s.cpus[d].held;
          assert d != c && s'.cpus[d] == s.cpus[d];
        }
      }
    }
  }

  lemma {:induction false} RunClean(s: State, schedule: seq<(nat, Choice)>)
    requires Inv(s) && Clean(s) && NoneFails(s, schedule)
    ensures Inv(Run(s, schedule)) && Clean(Run(s, schedule))
    decreases |schedule|
  {
    hide Inv, Clean, Step, Fails;
    if schedule != [] {
      StepKeeps(s, schedule[0].0, schedule[0].1);
      StepClean(s, schedule[0].0, schedule[0].1);
      RunClean(Step(s, schedule[0].0, schedule[0].1), schedule[1..]);
    }
  }

  // ----- The order -----

  /** The locks that the code at `pc` may still take. */
  function Future(pc: Pc): set<Lock> {
    match pc
    case Acquire(l, _, next) => {l} + Future(next)
    case Release(_, next) => Future(next)
    case FindFrame(use) => if use.Bare? then {} else {PmmLock}
    case MarkFrame(use, _) => if use.Bare? then {} else {PmmLock}
    case Check(_) => {VmmLock, PmmLock}
    case Probe(_, _, _) => {VmmLock, PmmLock}
    case ClearFrame(_, next) => Future(next)
    case Idle => {}
    case Hang => {}
    case Finish(_, _) => {}
    case _ => {PmmLock}
  }

  /** Whoever holds a lock takes only later ones. */
  lemma HeldBefore(pc: Pc)
    requires Shape(pc)
    ensures PmmLock in Needs(pc) ==> Future(pc) <= {PmmLock} && !pc.Acquire?
    ensures VmmLock in Needs(pc) ==> Future(pc) <= {PmmLock}
    ensures HeapLock in Needs(pc) ==> Future(pc) <= {VmmLock, PmmLock}
  {
    assert Future(Idle) == {} && Needs(Idle) == {};
    assert Future(Release(HeapLock, Idle)) == {} && Needs(Release(HeapLock, Idle)) == {HeapLock};
    match pc
    case Release(l, next) =>
      assert Future(pc) == Future(next) <= {PmmLock};
    case ClearFrame(f, next) =>
      assert Future(pc) == Future(next) <= {PmmLock};
    case Acquire(l, tested, next) =>
      assert PmmLock !in Needs(pc);
      assert next.FindFrame? || next.Loop? || next.FreeLoop? ==> Future(next) <= {PmmLock};
      assert next.ClearFrame? ==> Future(next) == Future(next.next) <= {PmmLock};
    case _ =>
  }

  lemma IdleHolds(s: State, c: nat, l: Lock)
    requires Clean(s) && c in s.cpus && l in s.cpus[c].held
    ensures s.cpus[c].pc != Idle
  {
    assert Needs(Idle) == {};
  }

  /** A CPU in a call all of whose further locks are free or its own. */
  ghost predicate CanFinish(s: State, c: nat) {
    c in s.cpus && s.cpus[c].pc != Idle && forall l :: l in Future(s.cpus[c].pc) && l in s.taken ==> l in s.cpus[c].held
  }

  lemma SomeCanFinish(s: State)
    requires Inv(s) && Clean(s) && !AllIdle(s)
    ensures exists c :: CanFinish(s, c)
  {
    var c := Next(s);
    LocksFacts(s.cpus, s.taken, c);
    HeldBefore(s.cpus[c].pc);
    hide Inv, Needs, Future, Shape;
    assert CanFinish(s, c) by {
      forall l | l in Future(s.cpus[c].pc) && l in s.taken ensures l in s.cpus[c].held {
        assert l == PmmLock || l == VmmLock || l == HeapLock;
      }
    }
  }

  /** The CPU with the last lock in the order that is taken; if none is, any CPU in a call. */
  lemma Next(s: State) returns (c: nat)
    requires Inv(s) && Clean(s) && !AllIdle(s)
    ensures c in s.cpus && s.cpus[c].pc != Idle && s.cpus[c].held == Needs(s.cpus[c].pc)
    ensures PmmLock in s.taken ==> PmmLock in s.cpus[c].held
    ensures PmmLock !in s.taken && VmmLock in s.taken ==> VmmLock in s.cpus[c].held
    ensures PmmLock !in s.taken && VmmLock !in s.taken && HeapLock in s.taken ==> HeapLock in s.cpus[c].held
  {
    hide Inv, Needs;
    if PmmLock in s.taken {
      c :| c in s.cpus && PmmLock in s.cpus[c].held;
      IdleHolds(s, c, PmmLock);
    } else if VmmLock in s.taken {
      c :| c in s.cpus && VmmLock in s.cpus[c].held;
      IdleHolds(s, c, VmmLock);
    } else if HeapLock in s.taken {
      c :| c in s.cpus && HeapLock in s.cpus[c].held;
      IdleHolds(s, c, HeapLock);
    } else {
      c :| c in s.cpus && s.cpus[c].pc != Idle;
    }
  }

  /** No deadlock: as long as a call is under way, some CPU in a call does not wait for a lock. */
  lemma NoDeadlock(s: State)
    requires Inv(s) && Clean(s) && !AllIdle(s)
    ensures exists c :: c in s.cpus && s.cpus[c].pc != Idle && !Waits(s, c)
  {
    SomeCanFinish(s);
    var c :| CanFinish(s, c);
    LocksFacts(s.cpus, s.taken, c);
    hide Inv, CanFinish;
    if Waits(s, c) {
      assert CanFinish(s, c);
      WaitsNot(s, c);
    }
  }

  lemma WaitsNot(s: State, c: nat)
    requires CanFinish(s, c) && s.cpus[c].held == Needs(s.cpus[c].pc) && Shape(s.cpus[c].pc)
    ensures !Waits(s, c)
  {
    if s.cpus[c].pc.Acquire? {
      NextNeeds(s.cpus[c].pc.l, s.cpus[c].pc.next);
      hide Needs, Shape;
    }
  }

  // ----- Every call can be completed -----

  function Left(n: nat, i: nat): nat {
    if i <= n then n - i else 0
  }

  /** A bound on the steps that a CPU at `pc` still needs, if it runs alone, finds every frame and misses no table; all
      mapped pages lie below `m`. */
  function Work(m: nat, pc: Pc): nat {
    match pc
    case Idle => 0
    case Hang => 0
    case Acquire(_, tested, next) => Work(m, next) + if tested then 1 else 2
    case Release(_, next) => Work(m, next) + 1
    case FindFrame(use) => if use.Bare? then 3 else 20 * Left(use.n, use.i + 1) + 15
    case MarkFrame(use, _) => if use.Bare? then 2 else 20 * Left(use.n, use.i + 1) + 14
    case Descend(_, n, i, _, _) => 20 * Left(n, i + 1) + 12
    case MapPage(_, n, i, _) => 20 * Left(n, i + 1) + 11
    case Loop(_, n, i) => 20 * Left(n, i) + 10
    case Finish(_, _) => 2
    case Check(n) => Left(m, HEAP_START) * (n + 1) + 21 * n + 14
    case Probe(n, ptr, i) => Left(m, ptr) * (n + 1) + Left(n, i) + 20 * n + 13
    case FreeLoop(_, n, i) => 10 * Left(n, i) + 5
    case Unmap(_, n, i) => 10 * Left(n, i + 1) + 6
    case ClearFrame(_, next) => Work(m, next) + 2
  }

  /** The search is under way or still to come. */
  predicate Scans(pc: Pc) {
    pc.Check? || pc.Probe? || (pc.Acquire? && pc.next.Check?)
  }

  ghost predicate Below(s: State, m: nat) {
    forall p :: p in s.pages ==> p < m
  }

  /** A step of CPU `c` that brings it nearer to the end of its call. */
  ghost predicate Nearer(s: State, s': State, c: nat, m: nat)
    requires c in s.cpus
  {
    && c in s'.cpus && Work(m, s'.cpus[c].pc) < Work(m, s.cpus[c].pc) && Future(s'.cpus[c].pc) <= Future(s.cpus[c].pc)
    && (Scans(s'.cpus[c].pc) ==> Scans(s.cpus[c].pc) && s'.pages == s.pages)
  }

  lemma FreshFrame(used: set<nat>) returns (f: nat)
    ensures f !in used
  {
    f := 0;
    var rest := used;
    while f in used
      invariant forall g :: g in rest ==> g in used
      invariant forall g :: g in used && g >= f ==> g in rest
      decreases rest
    {
      rest := rest - {f};
      f := f + 1;
    }
  }

  lemma FrameNearer(s: State, c: nat, m: nat) returns (choice: Choice)
    requires c in s.cpus && (s.cpus[c].pc.FindFrame? || s.cpus[c].pc.MarkFrame? || s.cpus[c].pc.ClearFrame?)
             && Shape(s.cpus[c].pc)
    ensures !Fails(s, c, choice) && Nearer(s, Step(s, c, choice), c, m)
  {
    choice := Yes;
    match s.cpus[c].pc
    case FindFrame(use) =>
      var f := FreshFrame(s.used);
      choice := Found(f);
      assert Step(s, c, choice) == Goto(s, c, MarkFrame(use, f));
    case MarkFrame(use, f) =>
      assert Step(s, c, choice).cpus[c].pc == Release(PmmLock, AfterMark(use, f));
      assert Future(AfterMark(use, f)) == if use.Bare? then {} else {PmmLock};
      assert Work(m, AfterMark(use, f)) == if use.Bare? then 0 else 20 * Left(use.n, use.i + 1) + 12;
    case ClearFrame(f, next) =>
      assert Step(s, c, choice).cpus[c].pc == Release(PmmLock, next);
  }

  lemma LockNearer(s: State, c: nat, m: nat)
    requires c in s.cpus && Shape(s.cpus[c].pc)
    requires (s.cpus[c].pc.Acquire? && s.cpus[c].pc.l !in s.taken) || s.cpus[c].pc.Release?
    ensures Nearer(s, Step(s, c, Yes), c, m)
  {
    match s.cpus[c].pc
    case Acquire(l, tested, next) =>
      assert !tested ==> Step(s, c, Yes).cpus[c].pc == Acquire(l, true, next);
      assert tested ==> Step(s, c, Yes).cpus[c].pc == next;
    case Release(l, next) =>
      assert Step(s, c, Yes).cpus[c].pc == next;
  }

  lemma CheckNearer(s: State, c: nat, m: nat)
    requires c in s.cpus && s.cpus[c].pc.Check? && Shape(s.cpus[c].pc)
    ensures Nearer(s, Step(s, c, Yes), c, m)
  {
    assert Step(s, c, Yes).cpus[c].pc == Probe(s.cpus[c].pc.n, HEAP_START, 0);
  }

  /** What the search does next, and how much is left then. */
  lemma ProbeWork(m: nat, n: nat, ptr: nat, i: nat, mapped: bool)
    requires i < n && (mapped ==> ptr + i < m)
    ensures mapped ==> Work(m, Probe(n, ptr + 1, 0)) < Work(m, Probe(n, ptr, i))
    ensures i + 1 < n ==> Work(m, Probe(n, ptr, i + 1)) < Work(m, Probe(n, ptr, i))
    ensures Work(m, Acquire(VmmLock, false, Loop(ptr, n, 0))) < Work(m, Probe(n, ptr, i))
  {
    if mapped {
      assert Left(m, ptr) == Left(m, ptr + 1) + 1;
      assert Left(m, ptr) * (n + 1) == Left(m, ptr + 1) * (n + 1) + (n + 1);
    }
    assert Work(m, Loop(ptr, n, 0)) == 20 * n + 10;
  }

  lemma ProbeNearer(s: State, c: nat, m: nat)
    requires c in s.cpus && s.cpus[c].pc.Probe? && Shape(s.cpus[c].pc) && Below(s, m)
    ensures Nearer(s, Step(s, c, Yes), c, m)
  {
    var n, ptr, i := s.cpus[c].pc.n, s.cpus[c].pc.ptr, s.cpus[c].pc.i;
    ProbeWork(m, n, ptr, i, ptr + i in s.pages);
    assert Future(Loop(ptr, n, 0)) == {PmmLock};
    hide Work;
    assert Step(s, c, Yes).cpus[c].pc ==
           if ptr + i in s.pages then Probe(n, ptr + 1, 0)
           else if i + 1 >= n then Acquire(VmmLock, false, Loop(ptr, n, 0)) else Probe(n, ptr, i + 1);
  }

  lemma BuildNearer(s: State, c: nat, m: nat)
    requires c in s.cpus && Shape(s.cpus[c].pc)
    requires s.cpus[c].pc.Descend? || s.cpus[c].pc.MapPage? || s.cpus[c].pc.Loop? || s.cpus[c].pc.Finish?
    ensures Nearer(s, Step(s, c, No), c, m)
  {
    hide Mark;
    match s.cpus[c].pc
    case Descend(ptr, n, i, f, k) => assert Step(s, c, No).cpus[c].pc == MapPage(ptr, n, i, f);
    case MapPage(ptr, n, i, f) => assert Step(s, c, No).cpus[c].pc == Loop(ptr, n, i + 1);
    case Loop(ptr, n, i) =>
      if i < n {
        var find := FindFrame(Backing(ptr, n, i));
        assert Step(s, c, No).cpus[c].pc == Acquire(PmmLock, false, find);
        assert Work(m, find) == 20 * Left(n, i + 1) + 15 && Left(n, i) == Left(n, i + 1) + 1
            && Future(find) == {PmmLock};
      } else {
        assert Step(s, c, No).cpus[c].pc == Release(VmmLock, Finish(ptr, n));
        assert Work(m, Finish(ptr, n)) == 2 && Future(Finish(ptr, n)) == {};
      }
    case Finish(ptr, n) =>
      assert Step(s, c, No).cpus[c].pc == Release(HeapLock, Idle);
      assert Work(m, Idle) == 0 && Future(Idle) == {};
  }

  lemma FreeNearer(s: State, c: nat, m: nat)
    requires c in s.cpus && Shape(s.cpus[c].pc) && (s.cpus[c].pc.FreeLoop? || s.cpus[c].pc.Unmap?)
    ensures Nearer(s, Step(s, c, Yes), c, m)
  {
    hide Drop;
    assert Work(m, Idle) == 0 && Future(Idle) == {};
    match s.cpus[c].pc
    case FreeLoop(ptr, n, i) =>
      if i >= n {
        assert Step(s, c, Yes).cpus[c].pc == Release(VmmLock, Idle);
      } else if ptr + i in s.pages {
        var unmap := Unmap(ptr, n, i);
        var clear := ClearFrame(s.pages[ptr + i], unmap);
        assert Step(s, c, Yes).cpus[c].pc == Acquire(PmmLock, false, clear);
        assert Work(m, unmap) == 10 * Left(n, i + 1) + 6 && Future(unmap) == {PmmLock};
        assert Work(m, clear) == Work(m, unmap) + 2 && Future(clear) == {PmmLock};
      } else {
        assert Step(s, c, Yes).cpus[c].pc == FreeLoop(ptr, n, i + 1);
      }
    case Unmap(ptr, n, i) => assert Step(s, c, Yes).cpus[c].pc == FreeLoop(ptr, n, i + 1);
  }

  lemma StepNearer(s: State, c: nat, m: nat) returns (choice: Choice)
    requires Inv(s) && Clean(s) && CanFinish(s, c) && (Scans(s.cpus[c].pc) ==> Below(s, m))
    ensures !Fails(s, c, choice) && Nearer(s, Step(s, c, choice), c, m)
  {
    LocksFacts(s.cpus, s.taken, c);
    WaitsNot(s, c);
    assert s.cpus[c].pc != Idle && s.cpus[c].pc != Hang;
    hide Inv, Clean, CanFinish, Shape, Nearer, Step, Needs, Below;
    choice := Yes;
    match s.cpus[c].pc
    case Acquire(_, _, _) => LockNearer(s, c, m);
    case Release(_, _) => LockNearer(s, c, m);
    case FindFrame(_) => choice := FrameNearer(s, c, m);
    case MarkFrame(_, _) => choice := FrameNearer(s, c, m);
    case ClearFrame(_, _) => choice := FrameNearer(s, c, m);
    case Check(_) => CheckNearer(s, c, m);
    case Probe(_, _, _) => ProbeNearer(s, c, m);
    case FreeLoop(_, _, _) => FreeNearer(s, c, m);
    case Unmap(_, _, _) => FreeNearer(s, c, m);
    case _ =>
      choice := No;
      BuildNearer(s, c, m);
  }

  /** After its step the CPU can still finish. */
  lemma StillFinishes(s: State, c: nat, choice: Choice, m: nat)
    requires Inv(s) && Clean(s) && CanFinish(s, c) && !Fails(s, c, choice) && Nearer(s, Step(s, c, choice), c, m)
    ensures Step(s, c, choice).cpus[c].pc != Idle ==> CanFinish(Step(s, c, choice), c)
  {
    StepMoves(s, c, choice);
    hide Inv, Clean, Step, Needs, Work, Future, Fails;
  }

  /** Only CPU `c` is somewhere else, and it is idle. */
  ghost predicate Finished(s: State, e: State, c: nat) {
    && e.cpus.Keys == s.cpus.Keys && c in e.cpus && e.cpus[c].pc == Idle
    && forall d :: d in s.cpus && d != c ==> e.cpus[d] == s.cpus[d]
  }

  /** A CPU that can finish completes its call on its own. */
  lemma {:induction false} RunAlone(s: State, c: nat, m: nat) returns (schedule: seq<(nat, Choice)>)
    requires Inv(s) && Clean(s) && CanFinish(s, c) && (Scans(s.cpus[c].pc) ==> Below(s, m))
    ensures NoneFails(s, schedule) && Finished(s, Run(s, schedule), c)
    decreases Work(m, s.cpus[c].pc)
  {
    var choice := StepNearer(s, c, m);
    var s' := Step(s, c, choice);
    StepKeeps(s, c, choice);
    StepClean(s, c, choice);
    StepMoves(s, c, choice);
    StillFinishes(s, c, choice, m);
    hide Inv, Clean, Step, Needs, Work, Future, Fails, CanFinish, Scans;
    var rest := [];
    if s'.cpus[c].pc != Idle {
      rest := RunAlone(s', c, m);
    }
    schedule := [(c, choice)] + rest;
    assert schedule[0] == (c, choice) && schedule[1..] == rest;
    assert NoneFails(s', rest) && Finished(s', Run(s', rest), c);
  }

  ghost function Calling(s: State): set<nat> {
    set c | c in s.cpus && s.cpus[c].pc != Idle
  }

  lemma PagesBound(pages: map<nat, nat>) returns (m: nat)
    ensures forall p :: p in pages ==> p < m
  {
    m := 0;
    var rest := pages.Keys;
    while rest != {}
      invariant rest <= pages.Keys && forall p :: p in pages && p !in rest ==> p < m
      decreases rest
    {
      var p :| p in rest;
      m := if p < m then m else p + 1;
      rest := rest - {p};
    }
  }

  lemma {:induction false} RunAppend(s: State, a: seq<(nat, Choice)>, b: seq<(nat, Choice)>)
    ensures Run(s, a + b) == Run(Run(s, a), b)
    ensures NoneFails(s, a) && NoneFails(Run(s, a), b) ==> NoneFails(s, a + b)
    decreases |a|
  {
    hide Step, Fails;
    if a == [] {
      assert a + b == b;
    } else {
      assert (a + b)[0] == a[0] && (a + b)[1..] == a[1..] + b;
      RunAppend(Step(s, a[0].0, a[0].1), a[1..], b);
    }
  }

  lemma FewerCalling(s: State, e: State, c: nat)
    requires Finished(s, e, c) && c in s.cpus && s.cpus[c].pc != Idle
    ensures |Calling(e)| < |Calling(s)|
  {
    assert Calling(e) == Calling(s) - {c};
  }

  lemma CanFinishFacts(s: State, c: nat)
    requires CanFinish(s, c)
    ensures c in s.cpus && s.cpus[c].pc != Idle
  {
  }

  /** One call more is completed. */
  lemma CompleteOne(s: State) returns (schedule: seq<(nat, Choice)>)
    requires Inv(s) && Clean(s) && !AllIdle(s)
    ensures NoneFails(s, schedule) && Inv(Run(s, schedule)) && Clean(Run(s, schedule))
    ensures |Calling(Run(s, schedule))| < |Calling(s)|
  {
    hide Inv, Clean, CanFinish, AllIdle, Finished, Run, Scans, NoneFails, Calling;
    SomeCanFinish(s);
    var c :| CanFinish(s, c);
    CanFinishFacts(s, c);
    var m := PagesBound(s.pages);
    schedule := RunAlone(s, c, m);
    RunClean(s, schedule);
    FewerCalling(s, Run(s, schedule), c);
  }

  /** From a clean state some schedule completes every call that is under way. */
  lemma {:induction false} CompleteAll(s: State) returns (schedule: seq<(nat, Choice)>)
    requires Inv(s) && Clean(s)
    ensures NoneFails(s, schedule) && AllIdle(Run(s, schedule))
    decreases |Calling(s)|
  {
    hide Inv, Clean, AllIdle, Calling;
    schedule := [];
    if !AllIdle(s) {
      var first := CompleteOne(s);
      var rest := CompleteAll(Run(s, first));
      RunAppend(s, first, rest);
      schedule := first + rest;
    }
  }

  lemma InitialClean(s: State)
    requires Initial(s)
    ensures Clean(s)
  {
    assert Needs(Idle) == {};
  }

  /** Deadlock freedom. After any interleaving in which no allocation found the bitmap empty and no table lay outside
      the window, a CPU in a call does not wait for a lock, if there is any in a call, and all calls can be
      completed. */
  lemma CallsComplete(s: State, schedule: seq<(nat, Choice)>)
    requires Initial(s) && NoneFails(s, schedule)
    ensures var e := Run(s, schedule);
            && (!AllIdle(e) ==> exists c :: c in e.cpus && e.cpus[c].pc != Idle && !Waits(e, c))
            && exists more :: NoneFails(e, more) && AllIdle(Run(e, more))
  {
    InitialInv(s);
    InitialClean(s);
    RunClean(s, schedule);
    hide Inv, Clean, Run;
    var e := Run(s, schedule);
    if !AllIdle(e) {
      NoDeadlock(e);
    }
    var more := CompleteAll(e);
    assert NoneFails(e, more) && AllIdle(Run(e, more));
  }
}
