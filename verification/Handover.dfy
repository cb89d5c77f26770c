/** What the calls achieve, in any interleaving: `kmalloc` that is not refused hands out a block of mapped pages,
    `pmm_alloc_page` a frame, and `kfree` and `pmm_free_page` give the frames back (kernel/src/mm/mm.c, vmm.c,
    pmm.c). */
module Handover {
  import opened Concurrency

  // ----- What one step changes -----

  /** Only CPU `c` goes on. */
  ghost predicate Only(s: State, s': State, c: nat)
    requires c in s.cpus
  {
    c in s'.cpus && s'.cpus == s.cpus[c := s'.cpus[c]]
  }

  /** The bitmap, the page table and the blocks change in the steps that are there for it, and in no other. */
  ghost predicate Effect(s: State, s': State, c: nat, choice: Choice)
    requires c in s.cpus
  {
    var pc := s.cpus[c].pc;
    && Only(s, s', c)
    && s'.used == (if pc.MarkFrame? then s.used + {pc.f} else if pc.ClearFrame? then s.used - {pc.f} else s.used)
    && s'.pages == (if pc.MapPage? then s.pages[pc.ptr + pc.i := pc.f]
                    else if pc.Unmap? then s.pages - {pc.ptr + pc.i} else s.pages)
    && s'.live == (if pc.Finish? then s.live[pc.ptr := pc.n]
                   else if pc.Idle? && choice.CallKfree? then s.live - {choice.ptr} else s.live)
  }

  lemma GotoEffect(s: State, s': State, c: nat, choice: Choice, pc: Pc)
    requires c in s.cpus && s' == Goto(s, c, pc).(who := s'.who, owner := s'.owner)
    requires var at := s.cpus[c].pc; !at.MarkFrame? && !at.ClearFrame? && !at.MapPage? && !at.Unmap? && !at.Finish?
    requires !(s.cpus[c].pc.Idle? && choice.CallKfree?)
    ensures Effect(s, s', c, choice)
  {
  }

  lemma SameEffect(s: State, c: nat, choice: Choice)
    requires c in s.cpus && (s.cpus[c].pc.Idle? || s.cpus[c].pc.FindFrame? || s.cpus[c].pc.Hang?)
    requires s.cpus[c].pc.Idle? && choice.CallKfree? ==> choice.ptr !in s.live
    ensures Effect(s, s, c, choice)
  {
    assert s.cpus[c := s.cpus[c]] == s.cpus;
    if choice.CallKfree? && choice.ptr !in s.live {
      assert s.live - {choice.ptr} == s.live;
    }
  }

  lemma IdleEffect(s: State, c: nat, choice: Choice)
    requires c in s.cpus && s.cpus[c].pc == Idle
    ensures Effect(s, StepIdle(s, c, choice), c, choice)
  {
    hide Effect, Mark;
    var s' := StepIdle(s, c, choice);
    if choice.CallKfree? && choice.ptr in s.live {
      KfreeEffect(s, c, choice.ptr);
    } else if s' == s {
      SameEffect(s, c, choice);
    } else {
      GotoEffect(s, s', c, choice, s'.cpus[c].pc);
    }
  }

  lemma KfreeEffect(s: State, c: nat, ptr: nat)
    requires c in s.cpus && s.cpus[c].pc == Idle && ptr in s.live
    ensures Effect(s, StepIdle(s, c, CallKfree(ptr)), c, CallKfree(ptr))
  {
    hide Mark;
  }

  lemma FindEffect(s: State, c: nat, choice: Choice)
    requires c in s.cpus && s.cpus[c].pc.FindFrame?
    ensures Effect(s, StepFind(s, c, s.cpus[c].pc.use, choice), c, choice)
  {
    hide Effect, Mark;
    var s' := StepFind(s, c, s.cpus[c].pc.use, choice);
    if s' == s {
      SameEffect(s, c, choice);
    } else {
      GotoEffect(s, s', c, choice, s'.cpus[c].pc);
    }
  }

  lemma LockEffect(s: State, c: nat, choice: Choice)
    requires c in s.cpus && (s.cpus[c].pc.Acquire? || s.cpus[c].pc.Release?)
    ensures Effect(s, Step(s, c, choice), c, choice)
  {
  }

  lemma FrameEffect(s: State, c: nat, choice: Choice)
    requires c in s.cpus && (s.cpus[c].pc.MarkFrame? || s.cpus[c].pc.ClearFrame?)
    ensures Effect(s, Step(s, c, choice), c, choice)
  {
    hide Mark, Drop, AfterMark;
  }

  lemma PageEffect(s: State, c: nat, choice: Choice)
    requires c in s.cpus && (s.cpus[c].pc.MapPage? || s.cpus[c].pc.Unmap? || s.cpus[c].pc.Finish?)
    ensures Effect(s, Step(s, c, choice), c, choice)
  {
    hide Mark;
  }

  /** The steps that only go on. */
  predicate Plain(pc: Pc) {
    pc.Descend? || pc.Check? || pc.Probe? || pc.Loop? || pc.FreeLoop?
  }

  lemma ScanGoes(s: State, c: nat, choice: Choice)
    requires c in s.cpus && (s.cpus[c].pc.Check? || s.cpus[c].pc.Probe?)
    ensures var s' := Step(s, c, choice); c in s'.cpus && s' == Goto(s, c, s'.cpus[c].pc)
  {
  }

  lemma BuildGoes(s: State, c: nat, choice: Choice)
    requires c in s.cpus && (s.cpus[c].pc.Descend? || s.cpus[c].pc.Loop?)
    ensures var s' := Step(s, c, choice); c in s'.cpus && s' == Goto(s, c, s'.cpus[c].pc)
  {
  }

  lemma FreeGoes(s: State, c: nat, choice: Choice)
    requires c in s.cpus && s.cpus[c].pc.FreeLoop?
    ensures var s' := Step(s, c, choice); c in s'.cpus && s' == Goto(s, c, s'.cpus[c].pc)
  {
  }

  lemma PlainGoes(s: State, c: nat, choice: Choice)
    requires c in s.cpus && Plain(s.cpus[c].pc)
    ensures var s' := Step(s, c, choice); c in s'.cpus && s' == Goto(s, c, s'.cpus[c].pc)
  {
    hide Step, Goto;
    match s.cpus[c].pc
    case Check(_) => ScanGoes(s, c, choice);
    case Probe(_, _, _) => ScanGoes(s, c, choice);
    case FreeLoop(_, _, _) => FreeGoes(s, c, choice);
    case _ => BuildGoes(s, c, choice);
  }

  lemma PlainEffect(s: State, c: nat, choice: Choice)
    requires c in s.cpus && Plain(s.cpus[c].pc)
    ensures Effect(s, Step(s, c, choice), c, choice)
  {
    hide Effect, Step;
    PlainGoes(s, c, choice);
    var s' := Step(s, c, choice);
    GotoEffect(s, s', c, choice, s'.cpus[c].pc);
  }

  lemma StepEffect(s: State, c: nat, choice: Choice)
    requires c in s.cpus
    ensures Effect(s, Step(s, c, choice), c, choice)
  {
    hide Effect, StepIdle, StepFind, StepMark, StepMap, StepFinish, StepClear, StepUnmap, StepAcquire, StepRelease;
    hide StepDescend, StepProbe;
    match s.cpus[c].pc
    case Idle => IdleEffect(s, c, choice);
    case FindFrame(_) => FindEffect(s, c, choice);
    case Acquire(_, _, _) => LockEffect(s, c, choice);
    case Release(_, _) => LockEffect(s, c, choice);
    case MarkFrame(_, _) => FrameEffect(s, c, choice);
    case ClearFrame(_, _) => FrameEffect(s, c, choice);
    case MapPage(_, _, _, _) => PageEffect(s, c, choice);
    case Unmap(_, _, _) => PageEffect(s, c, choice);
    case Finish(_, _) => PageEffect(s, c, choice);
    case Hang => SameEffect(s, c, choice);
    case _ => PlainEffect(s, c, choice);
  }

  // ----- What is recorded of blocks and pages -----

  /** A page recorded as part of a live block is; no block is empty. */
  ghost predicate Recorded(live: map<nat, nat>, who: map<nat, Who>) {
    && (forall a :: a in live ==> live[a] > 0)
    && (forall p :: p in who && who[p].Live? ==> who[p].ptr in live && who[p].ptr <= p < who[p].ptr + live[who[p].ptr])
  }

  /** A frame recorded as that of a page is, and the page is not about to lose it. */
  ghost predicate Backed(pages: map<nat, nat>, owner: map<nat, Owner>, who: map<nat, Who>) {
    forall f :: f in owner && owner[f].ByPage? ==>
      owner[f].p in pages && pages[owner[f].p] == f && owner[f].p in who && !who[owner[f].p].Cleared?
  }

  /** No range that is being built is empty. */
  ghost predicate BuildsSome(cpus: Cpus) {
    forall c :: c in cpus ==> ClaimOf(cpus[c].pc).Build? ==> ClaimOf(cpus[c].pc).n > 0
  }

  ghost predicate Ledger(s: State) {
    Recorded(s.live, s.who) && Backed(s.pages, s.owner, s.who) && BuildsSome(s.cpus)
  }

  lemma InitialLedger(s: State)
    requires Initial(s)
    ensures Ledger(s)
  {
  }

  /** Marking pages that belong to no live block as something else than cleared. */
  lemma MarkRecorded(live: map<nat, nat>, who: map<nat, Who>, ptr: nat, n: nat, w: Who)
    requires Recorded(live, who) && !w.Live?
    ensures Recorded(live, Mark(who, ptr, n, w))
  {
  }

  lemma MarkBacked(pages: map<nat, nat>, owner: map<nat, Owner>, who: map<nat, Who>, ptr: nat, n: nat, w: Who)
    requires Backed(pages, owner, who) && !w.Cleared?
    ensures Backed(pages, owner, Mark(who, ptr, n, w))
  {
  }

  lemma PcSome(cpus: Cpus, c: nat, cpu: Cpu)
    requires BuildsSome(cpus) && (ClaimOf(cpu.pc).Build? ==> ClaimOf(cpu.pc).n > 0)
    ensures BuildsSome(cpus[c := cpu])
  {
    hide ClaimOf;
  }

  lemma IdleLedger(s: State, c: nat, choice: Choice)
    requires Inv(s) && Ledger(s) && c in s.cpus && s.cpus[c].pc == Idle
    ensures Ledger(StepIdle(s, c, choice))
  {
    hide Inv, Ledger;
    match choice
    case CallAlloc =>
      assert ClaimOf(FindFrame(Bare)) == NoClaim;
      PlainGoto(s, c, Acquire(PmmLock, false, FindFrame(Bare)));
    case CallFree(f) =>
      assert ClaimOf(ClearFrame(f, Idle)) == NoClaim;
      PlainGoto(s, c, Acquire(PmmLock, false, ClearFrame(f, Idle)));
    case CallMalloc(n) =>
      assert ClaimOf(Check(n)) == NoClaim;
      PlainGoto(s, c, Acquire(HeapLock, false, Check(n)));
    case CallKfree(ptr) =>
      if ptr in s.live {
        KfreeStepLedger(s, c, ptr);
      }
    case _ =>
  }

  lemma KfreeStepLedger(s: State, c: nat, ptr: nat)
    requires Inv(s) && Ledger(s) && c in s.cpus && s.cpus[c].pc == Idle && ptr in s.live
    ensures Ledger(StepIdle(s, c, CallKfree(ptr)))
  {
    var next := Acquire(VmmLock, false, FreeLoop(ptr, s.live[ptr], 0));
    assert ClaimOf(next) == ClaimOf(FreeLoop(ptr, s.live[ptr], 0)) == Tear(ptr, s.live[ptr], 0, false);
    KfreeLedger(s, ptr, Dying(c));
    hide Inv, Mark, ClaimOf, Recorded, Backed;
    PcSome(s.cpus, c, s.cpus[c].(pc := next));
  }

  lemma KfreeLedger(s: State, ptr: nat, w: Who)
    requires Inv(s) && Ledger(s) && ptr in s.live && w.Dying?
    ensures Recorded(s.live - {ptr}, Mark(s.who, ptr, s.live[ptr], w))
    ensures Backed(s.pages, s.owner, Mark(s.who, ptr, s.live[ptr], w))
  {
    hide Inv, BuildsSome;
    MarkBacked(s.pages, s.owner, s.who, ptr, s.live[ptr], w);
  }

  lemma FindLedger(s: State, c: nat, choice: Choice)
    requires Ledger(s) && c in s.cpus && s.cpus[c].pc.FindFrame?
    ensures Ledger(StepFind(s, c, s.cpus[c].pc.use, choice))
  {
    var use := s.cpus[c].pc.use;
    assert ClaimOf(s.cpus[c].pc) == ClaimOfUse(use);
    if choice == NotFound && use.Backing? {
      LeakLedger(s, c, use.ptr, use.n, use.i);
    } else if choice.Found? && choice.f !in s.used {
      assert ClaimOf(MarkFrame(use, choice.f)) == ClaimOfUse(use);
      hide ClaimOf, Recorded, Backed, BuildsSome, Ledger;
      PlainGoto(s, c, MarkFrame(use, choice.f));
    } else {
      assert ClaimOf(Idle) == NoClaim && ClaimOf(Hang) == NoClaim;
      hide ClaimOf, Recorded, Backed, BuildsSome, Ledger;
      PlainGoto(s, c, Idle);
      PlainGoto(s, c, Hang);
    }
  }

  lemma PlainGoto(s: State, c: nat, pc: Pc)
    requires Ledger(s) && c in s.cpus && (ClaimOf(pc).Build? ==> ClaimOf(pc).n > 0)
    ensures Ledger(Goto(s, c, pc))
  {
    hide ClaimOf, Recorded, Backed;
    PcSome(s.cpus, c, s.cpus[c].(pc := pc));
  }

  lemma LeakLedger(s: State, c: nat, ptr: nat, n: nat, i: nat)
    requires Ledger(s) && c in s.cpus
    ensures Ledger(StepFind(s, c, Backing(ptr, n, i), NotFound))
  {
    var pc := Release(VmmLock, Release(HeapLock, Idle));
    assert ClaimOf(pc) == ClaimOf(Release(HeapLock, Idle)) == ClaimOf(Idle) == NoClaim;
    hide Mark, Recorded, Backed, ClaimOf;
    MarkRecorded(s.live, s.who, ptr, i, Leaked);
    MarkBacked(s.pages, s.owner, s.who, ptr, i, Leaked);
    PcSome(s.cpus, c, s.cpus[c].(pc := pc));
  }

  lemma MarkFrameLedger(s: State, c: nat, use: Use, f: nat)
    requires Inv(s) && Ledger(s) && c in s.cpus && s.cpus[c].pc == MarkFrame(use, f)
    ensures Ledger(StepMark(s, c, use, f))
  {
    MoverFacts(s, c);
    var s' := StepMark(s, c, use, f);
    assert f in Chosen(s.cpus[c].pc);
    assert ClaimOf(s.cpus[c].pc) == ClaimOfUse(use) == ClaimOf(AfterMark(use, f));
    assert ClaimOf(s'.cpus[c].pc) == ClaimOf(AfterMark(use, f));
    hide Inv, ClaimOf, Recorded, LocksOk, AllHands, AllClaims, ClaimOk;
    PcSome(s.cpus, c, s'.cpus[c]);
  }

  lemma MapLedger(s: State, c: nat)
    requires Inv(s) && Ledger(s) && c in s.cpus && s.cpus[c].pc.MapPage?
    ensures var pc := s.cpus[c].pc; Ledger(StepMap(s, c, pc.ptr, pc.n, pc.i, pc.f))
  {
    var pc := s.cpus[c].pc;
    NotMappedYet(s, c);
    var next := Loop(pc.ptr, pc.n, pc.i + 1);
    assert ClaimOf(next) == Build(pc.ptr, pc.n, pc.i + 1) && ClaimOf(pc) == Build(pc.ptr, pc.n, pc.i);
    hide Inv, ClaimOf;
    PcSome(s.cpus, c, s.cpus[c].(pc := next));
    hide BuildsSome;
    MapRecords(s.pages, s.live, s.owner, s.who, pc.ptr + pc.i, pc.f, Making(c));
    hide Recorded, Backed;
  }

  lemma NotMappedYet(s: State, c: nat)
    requires Inv(s) && c in s.cpus && s.cpus[c].pc.MapPage?
    ensures s.cpus[c].pc.ptr + s.cpus[c].pc.i !in s.pages && s.cpus[c].pc.ptr + s.cpus[c].pc.i !in s.who
  {
    var pc := s.cpus[c].pc;
    MoverFacts(s, c);
    hide Inv, LocksOk, AllHands, AllClaims, HandsOk, LiveOk;
    assert NoneMapped(s.pages, pc.ptr + pc.i, pc.ptr + pc.n) && pc.i < pc.n;
  }

  lemma MapRecords(pages: map<nat, nat>, live: map<nat, nat>, owner: map<nat, Owner>, who: map<nat, Who>, p: nat,
                   f: nat,
                   w: Who)
    requires Recorded(live, who) && Backed(pages, owner, who) && p !in pages && p !in who && !w.Live? && !w.Cleared?
    ensures Recorded(live, who[p := w]) && Backed(pages[p := f], owner[f := ByPage(p)], who[p := w])
  {
  }

  lemma FinishLedger(s: State, c: nat)
    requires Inv(s) && Ledger(s) && c in s.cpus && s.cpus[c].pc.Finish?
    ensures var pc := s.cpus[c].pc; pc.ptr !in s.live && pc.n > 0 && Ledger(StepFinish(s, c, pc.ptr, pc.n))
  {
    var pc := s.cpus[c].pc;
    MoverFacts(s, c);
    assert ClaimOf(pc) == Build(pc.ptr, pc.n, pc.n) && AllAre(s.who, pc.ptr, pc.ptr + pc.n, Making(c));
    assert pc.n > 0;
    var s' := StepFinish(s, c, pc.ptr, pc.n);
    assert ClaimOf(s'.cpus[c].pc) == ClaimOf(Idle) == NoClaim;
    PcSome(s.cpus, c, s'.cpus[c]);
    hide Inv, ClaimOf, LocksOk, AllHands, AllClaims, HandsOk, ClaimOk, BuildsSome, FramesOk;
    MarkBacked(s.pages, s.owner, s.who, pc.ptr, pc.n, Live(pc.ptr));
    NotLiveYet(s.live, s.who, pc.ptr, pc.n, c);
    FinishRecorded(s.live, s.who, pc.ptr, pc.n, c);
  }

  lemma NotLiveYet(live: map<nat, nat>, who: map<nat, Who>, ptr: nat, n: nat, c: nat)
    requires Recorded(live, who) && LiveOk(live, who) && AllAre(who, ptr, ptr + n, Making(c)) && n > 0
    ensures ptr !in live
  {
    assert who[ptr] == Making(c);
  }

  lemma FinishRecorded(live: map<nat, nat>, who: map<nat, Who>, ptr: nat, n: nat, c: nat)
    requires Recorded(live, who) && ptr !in live && AllAre(who, ptr, ptr + n, Making(c)) && n > 0
    ensures Recorded(live[ptr := n], Mark(who, ptr, n, Live(ptr)))
  {
  }

  lemma ClearLedger(s: State, c: nat, f: nat, next: Pc)
    requires Inv(s) && Ledger(s) && c in s.cpus && s.cpus[c].pc == ClearFrame(f, next)
    ensures Ledger(StepClear(s, c, f, next))
    ensures f in s.owner && f in s.used
            && (next.Unmap? ==> next.ptr + next.i in s.pages && s.pages[next.ptr + next.i] == f)
  {
    ClearFacts(s, c, f, next);
    assert ClaimOf(Release(PmmLock, next)) == ClaimOf(next) && !ClaimOf(next).Build?;
    hide Inv, ClaimOf;
    PcSome(s.cpus, c, s.cpus[c].(pc := Release(PmmLock, next)));
    hide BuildsSome;
    if next.Unmap? {
      MarkRecorded(s.live, s.who, next.ptr + next.i, 1, Cleared(c));
      DroppedBacked(s.pages, s.owner, s.who, f, next.ptr + next.i, Cleared(c));
    } else {
      DropBacked(s.pages, s.owner, s.who, f);
    }
    hide Recorded, Mark, Drop;
  }

  lemma ClearFacts(s: State, c: nat, f: nat, next: Pc)
    requires Inv(s) && c in s.cpus && s.cpus[c].pc == ClearFrame(f, next)
    ensures (next.Idle? || next.Unmap?) && f in s.owner && f in s.used
            && (next.Unmap? ==> s.owner[f] == ByPage(next.ptr + next.i))
  {
    MoverFacts(s, c);
    hide Inv, LocksOk, AllHands, AllClaims, ClaimOk, LiveOk;
    assert Clearing(s.cpus[c].pc) == s.cpus[c].pc;
  }

  lemma DropBacked(pages: map<nat, nat>, owner: map<nat, Owner>, who: map<nat, Who>, f: nat)
    requires Backed(pages, owner, who)
    ensures Backed(pages, Drop(owner, f), who)
  {
  }

  lemma DroppedBacked(pages: map<nat, nat>, owner: map<nat, Owner>, who: map<nat, Who>, f: nat, p: nat, w: Who)
    requires Backed(pages, owner, who) && f in owner && owner[f] == ByPage(p)
    ensures Backed(pages, Drop(owner, f), Mark(who, p, 1, w))
  {
  }

  lemma UnmapLedger(s: State, c: nat)
    requires Inv(s) && Ledger(s) && c in s.cpus && s.cpus[c].pc.Unmap?
    ensures var pc := s.cpus[c].pc; Ledger(StepUnmap(s, c, pc.ptr, pc.n, pc.i))
    ensures var p := s.cpus[c].pc.ptr + s.cpus[c].pc.i; p in s.pages && p in s.who && s.who[p] == Cleared(c)
  {
    var pc := s.cpus[c].pc;
    MoverFacts(s, c);
    assert ClaimOf(pc) == Tear(pc.ptr, pc.n, pc.i, true);
    assert AllAre(s.who, pc.ptr + pc.i, pc.ptr + pc.i + 1, Cleared(c));
    var s' := StepUnmap(s, c, pc.ptr, pc.n, pc.i);
    assert !ClaimOf(s'.cpus[c].pc).Build?;
    PcSome(s.cpus, c, s'.cpus[c]);
    hide Inv, ClaimOf, LocksOk, AllHands, AllClaims, ClaimOk, BuildsSome, LiveOk, HandsOk;
    assert s.who[pc.ptr + pc.i] == Cleared(c);
  }

  lemma LockLedger(s: State, c: nat, choice: Choice)
    requires Ledger(s) && c in s.cpus && (s.cpus[c].pc.Acquire? || s.cpus[c].pc.Release?)
    ensures Ledger(Step(s, c, choice))
  {
    SameClaim(s, c, choice);
    LockKeeps(s, c, choice);
    hide ClaimOf, Step, Recorded, Backed;
    PcSome(s.cpus, c, Step(s, c, choice).cpus[c]);
  }

  lemma LockKeeps(s: State, c: nat, choice: Choice)
    requires c in s.cpus && (s.cpus[c].pc.Acquire? || s.cpus[c].pc.Release?)
    ensures var s' := Step(s, c, choice);
            && s'.live == s.live && s'.who == s.who && s'.pages == s.pages && s'.owner == s.owner
            && c in s'.cpus && s'.cpus == s.cpus[c := s'.cpus[c]]
  {
  }

  lemma SameClaim(s: State, c: nat, choice: Choice)
    requires c in s.cpus && (s.cpus[c].pc.Acquire? || s.cpus[c].pc.Release?)
    ensures c in Step(s, c, choice).cpus && ClaimOf(Step(s, c, choice).cpus[c].pc) == ClaimOf(s.cpus[c].pc)
  {
    var pc := s.cpus[c].pc;
    assert pc.Acquire? ==>
      ClaimOf(Acquire(pc.l, pc.l !in s.taken, pc.next)) == ClaimOf(Acquire(pc.l, false, pc.next)) == ClaimOf(pc.next);
    assert ClaimOf(pc) == ClaimOf(pc.next);
    hide ClaimOf;
  }

  lemma ScanClaim(s: State, c: nat, choice: Choice)
    requires c in s.cpus && Shape(s.cpus[c].pc) && (s.cpus[c].pc.Check? || s.cpus[c].pc.Probe?)
    ensures var claim := ClaimOf(Step(s, c, choice).cpus[c].pc); claim.Build? ==> claim.n > 0
  {
    var pc := s.cpus[c].pc;
    assert pc.Probe? ==> ClaimOf(Loop(pc.ptr, pc.n, 0)) == Build(pc.ptr, pc.n, 0);
    assert ClaimOf(Release(HeapLock, Idle)) == ClaimOf(Idle) == NoClaim;
    hide ClaimOf;
    if pc.Probe? && !(pc.ptr + pc.i in s.pages) && pc.i + 1 >= pc.n {
      LoopClaim(pc.ptr, pc.n, 0);
    }
    ScanNone(HEAP_START, pc.n, 0);
    if pc.Probe? {
      ScanNone(pc.ptr + 1, pc.n, 0);
      ScanNone(pc.ptr, pc.n, pc.i + 1);
    }
  }

  lemma ScanNone(ptr: nat, n: nat, i: nat)
    ensures !ClaimOf(Probe(n, ptr, i)).Build? && !ClaimOf(Release(HeapLock, Idle)).Build?
  {
    assert ClaimOf(Idle) == NoClaim;
  }

  lemma LoopClaim(ptr: nat, n: nat, i: nat)
    ensures ClaimOf(Acquire(VmmLock, false, Loop(ptr, n, i))) == Build(ptr, n, i)
  {
    assert ClaimOf(Loop(ptr, n, i)) == Build(ptr, n, i);
  }

  lemma BuildClaim(s: State, c: nat, choice: Choice)
    requires c in s.cpus && (s.cpus[c].pc.Descend? || s.cpus[c].pc.Loop?)
    ensures var claim, pc := ClaimOf(Step(s, c, choice).cpus[c].pc), s.cpus[c].pc;
            ClaimOf(pc).Build? && ClaimOf(pc).n == pc.n && (claim.Build? ==> claim.n == pc.n)
  {
    var pc := s.cpus[c].pc;
    if pc.Descend? {
      assert ClaimOf(FindFrame(Table(pc.ptr, pc.n, pc.i, pc.f, pc.k))) == Build(pc.ptr, pc.n, pc.i);
    } else {
      assert ClaimOf(FindFrame(Backing(pc.ptr, pc.n, pc.i))) == Build(pc.ptr, pc.n, pc.i);
      assert ClaimOf(Finish(pc.ptr, pc.n)) == Build(pc.ptr, pc.n, pc.n);
    }
  }

  lemma FreeClaim(s: State, c: nat, choice: Choice)
    requires c in s.cpus && s.cpus[c].pc.FreeLoop?
    ensures !ClaimOf(Step(s, c, choice).cpus[c].pc).Build?
  {
    var pc := s.cpus[c].pc;
    if pc.i < pc.n && pc.ptr + pc.i in s.pages {
      assert ClaimOf(ClearFrame(s.pages[pc.ptr + pc.i], Unmap(pc.ptr, pc.n, pc.i))) == Tear(pc.ptr, pc.n, pc.i, false);
    }
    assert ClaimOf(Idle) == NoClaim;
  }

  lemma PlainLedger(s: State, c: nat, choice: Choice)
    requires Ledger(s) && c in s.cpus && Shape(s.cpus[c].pc) && Plain(s.cpus[c].pc)
    ensures Ledger(Step(s, c, choice))
  {
    PlainGoes(s, c, choice);
    if s.cpus[c].pc.Check? || s.cpus[c].pc.Probe? {
      ScanClaim(s, c, choice);
    } else if s.cpus[c].pc.FreeLoop? {
      FreeClaim(s, c, choice);
    } else {
      BuildClaim(s, c, choice);
    }
    hide Step, ClaimOf, Recorded, Backed, Goto;
    PlainGoto(s, c, Step(s, c, choice).cpus[c].pc);
  }

  lemma LocksAt(s: State, c: nat)
    requires Inv(s) && c in s.cpus
    ensures Shape(s.cpus[c].pc)
  {
    LocksFacts(s.cpus, s.taken, c);
  }

  lemma StepLedger(s: State, c: nat, choice: Choice)
    requires Inv(s) && Ledger(s)
    ensures Ledger(Step(s, c, choice))
  {
    hide Inv, Ledger, StepIdle, StepFind, StepMark, StepMap, StepFinish, StepClear, StepUnmap, StepAcquire, StepRelease;
    hide StepDescend, StepProbe;
    if c in s.cpus {
      match s.cpus[c].pc
      case Idle => IdleLedger(s, c, choice);
      case FindFrame(use) => FindLedger(s, c, choice);
      case MarkFrame(use, f) => MarkFrameLedger(s, c, use, f);
      case MapPage(_, _, _, _) => MapLedger(s, c);
      case Finish(_, _) => FinishLedger(s, c);
      case ClearFrame(f, next) => ClearLedger(s, c, f, next);
      case Unmap(_, _, _) => UnmapLedger(s, c);
      case Hang =>
      case Acquire(_, _, _) => LockLedger(s, c, choice);
      case Release(_, _) => LockLedger(s, c, choice);
      case _ =>
        LocksAt(s, c);
        PlainLedger(s, c, choice);
    }
  }

  lemma {:induction false} RunLedger(s: State, schedule: seq<(nat, Choice)>)
    requires Inv(s) && Ledger(s)
    ensures Inv(Run(s, schedule)) && Ledger(Run(s, schedule))
    decreases |schedule|
  {
    hide Inv, Ledger, Step;
    if schedule != [] {
      StepKeeps(s, schedule[0].0, schedule[0].1);
      StepLedger(s, schedule[0].0, schedule[0].1);
      RunLedger(Step(s, schedule[0].0, schedule[0].1), schedule[1..]);
    }
  }

  /** In every interleaving from the start the pages recorded as live are just those of the blocks handed out. */
  lemma LivePagesIff(s: State, schedule: seq<(nat, Choice)>, a: nat, p: nat)
    requires Initial(s)
    ensures var e := Run(s, schedule); InBlock(e, a, p) <==> p in e.who && e.who[p] == Live(a)
  {
    InitialInv(s);
    InitialLedger(s);
    RunLedger(s, schedule);
    hide Run, LocksOk, FramesOk, AllHands, AllClaims, Backed, BuildsSome;
  }

  // ----- Calls -----

  lemma OthersStay(s: State, c: nat, choice: Choice, d: nat)
    requires d in s.cpus && d != c
    ensures d in Step(s, c, choice).cpus && Step(s, c, choice).cpus[d] == s.cpus[d]
  {
    if c in s.cpus {
      StepEffect(s, c, choice);
      hide Step;
    }
  }

  // ----- kmalloc -----

  /** The size in pages that the CPU is allocating in `kmalloc`, before the block is handed out; 0 elsewhere. */
  function SizeOf(pc: Pc): nat {
    match pc
    case Acquire(_, _, next) => SizeOf(next)
    case Release(_, next) => SizeOf(next)
    case FindFrame(use) => if use.Bare? then 0 else use.n
    case MarkFrame(use, _) => if use.Bare? then 0 else use.n
    case Descend(_, n, _, _, _) => n
    case MapPage(_, n, _, _) => n
    case Check(n) => n
    case Probe(n, _, _) => n
    case Loop(_, n, _) => n
    case Finish(_, n) => n
    case _ => 0
  }

  /** The choices with which a call of this CPU is refused. */
  predicate Refuses(s: State, c: nat, choice: Choice) {
    c in s.cpus &&
    match s.cpus[c].pc
    case FindFrame(_) => choice == NotFound
    case Descend(_, _, _, _, _) => choice == Outside
    case Check(_) => choice != Yes
    case _ => false
  }

  ghost predicate NeverRefused(s: State, schedule: seq<(nat, Choice)>, c: nat)
    decreases |schedule|
  {
    schedule != [] ==>
      && (schedule[0].0 == c ==> !Refuses(s, c, schedule[0].1))
      && NeverRefused(Step(s, schedule[0].0, schedule[0].1), schedule[1..], c)
  }

  /** From `s` to `s'` a block of `n` pages is handed out: mapped pages on different frames that are marked used. */
  ghost predicate NewBlock(s: State, s': State, n: nat) {
    exists ptr :: ptr !in s.live && s'.live == s.live[ptr := n] && OnFrames(s', ptr, n)
  }

  ghost predicate OnFrames(s: State, ptr: nat, n: nat) {
    && (forall p :: ptr <= p < ptr + n ==> p in s.pages && s.pages[p] in s.used)
    && (forall p, q :: ptr <= p < q < ptr + n ==> s.pages[p] != s.pages[q])
  }

  /** Some step of CPU `c` in the run hands out a block. */
  ghost predicate HandsOut(s: State, schedule: seq<(nat, Choice)>, c: nat, n: nat)
    decreases |schedule|
  {
    schedule != [] &&
    var s' := Step(s, schedule[0].0, schedule[0].1);
    (schedule[0].0 == c && NewBlock(s, s', n)) || HandsOut(s', schedule[1..], c, n)
  }

  lemma SizeStep(s: State, c: nat, choice: Choice)
    requires c in s.cpus && Shape(s.cpus[c].pc) && SizeOf(s.cpus[c].pc) > 0 && !Refuses(s, c, choice)
             && !s.cpus[c].pc.Finish?
    ensures c in Step(s, c, choice).cpus && SizeOf(Step(s, c, choice).cpus[c].pc) == SizeOf(s.cpus[c].pc)
  {
    var pc := s.cpus[c].pc;
    StepEffect(s, c, choice);
    if pc.Acquire? || pc.Release? {
      SizeOfLock(s, c, choice);
    } else if pc.FindFrame? || pc.MarkFrame? {
      SizeOfFrame(s, c, choice);
    } else if pc.Check? || pc.Probe? {
      SizeOfScan(s, c, choice);
    } else {
      SizeOfBuild(s, c, choice);
    }
  }

  lemma SizeOfLock(s: State, c: nat, choice: Choice)
    requires c in s.cpus && (s.cpus[c].pc.Acquire? || s.cpus[c].pc.Release?)
    ensures c in Step(s, c, choice).cpus && SizeOf(Step(s, c, choice).cpus[c].pc) == SizeOf(s.cpus[c].pc)
  {
    var pc := s.cpus[c].pc;
    assert pc.Acquire? ==>
      SizeOf(Acquire(pc.l, pc.l !in s.taken, pc.next)) == SizeOf(Acquire(pc.l, false, pc.next)) == SizeOf(pc.next);
    assert SizeOf(pc) == SizeOf(pc.next);
    hide SizeOf;
  }

  lemma SizeOfFrame(s: State, c: nat, choice: Choice)
    requires c in s.cpus && (s.cpus[c].pc.FindFrame? || s.cpus[c].pc.MarkFrame?) && SizeOf(s.cpus[c].pc) > 0
             && !Refuses(s, c, choice)
    ensures c in Step(s, c, choice).cpus && SizeOf(Step(s, c, choice).cpus[c].pc) == SizeOf(s.cpus[c].pc)
  {
    var pc := s.cpus[c].pc;
    if pc.MarkFrame? {
      assert SizeOf(Release(PmmLock, AfterMark(pc.use, pc.f))) == SizeOf(AfterMark(pc.use, pc.f)) == pc.use.n;
      assert Step(s, c, choice).cpus[c].pc == Release(PmmLock, AfterMark(pc.use, pc.f));
    }
  }

  lemma SizeOfScan(s: State, c: nat, choice: Choice)
    requires c in s.cpus && (s.cpus[c].pc.Check? || s.cpus[c].pc.Probe?) && !Refuses(s, c, choice)
    ensures c in Step(s, c, choice).cpus && SizeOf(Step(s, c, choice).cpus[c].pc) == SizeOf(s.cpus[c].pc)
  {
    var pc := s.cpus[c].pc;
    assert pc.Probe? ==> SizeOf(Loop(pc.ptr, pc.n, 0)) == pc.n;
  }

  lemma SizeOfBuild(s: State, c: nat, choice: Choice)
    requires c in s.cpus && (s.cpus[c].pc.Descend? || s.cpus[c].pc.Loop? || s.cpus[c].pc.MapPage?)
             && !Refuses(s, c, choice)
    ensures c in Step(s, c, choice).cpus && SizeOf(Step(s, c, choice).cpus[c].pc) == SizeOf(s.cpus[c].pc)
  {
    var pc := s.cpus[c].pc;
    if pc.Loop? {
      assert SizeOf(FindFrame(Backing(pc.ptr, pc.n, pc.i))) == pc.n && SizeOf(Finish(pc.ptr, pc.n)) == pc.n;
    } else if pc.Descend? {
      assert SizeOf(FindFrame(Table(pc.ptr, pc.n, pc.i, pc.f, pc.k))) == pc.n;
    }
  }

  lemma FinishHandsOut(s: State, c: nat, choice: Choice)
    requires Inv(s) && Ledger(s) && c in s.cpus && s.cpus[c].pc.Finish?
    ensures NewBlock(s, Step(s, c, choice), s.cpus[c].pc.n)
  {
    var pc := s.cpus[c].pc;
    FinishLedger(s, c);
    MoverFacts(s, c);
    assert AllAre(s.who, pc.ptr, pc.ptr + pc.n, Making(c));
    hide Inv, Ledger, LocksOk, AllHands, AllClaims, HandsOk, ClaimOk, LiveOk, Mark;
    assert OnFrames(s, pc.ptr, pc.n);
    var s' := Step(s, c, choice);
    assert s'.pages == s.pages && s'.used == s.used;
    assert OnFrames(s', pc.ptr, pc.n);
  }

  /** `kmalloc` in any interleaving: a CPU that allocates `n` pages and comes back from the call without a refusal has
      handed out a block of `n` pages. */
  lemma {:induction false} MallocHandsOut(s: State, schedule: seq<(nat, Choice)>, c: nat)
    requires Inv(s) && Ledger(s) && c in s.cpus && SizeOf(s.cpus[c].pc) > 0 && NeverRefused(s, schedule, c)
    requires c in Run(s, schedule).cpus && Run(s, schedule).cpus[c].pc == Idle
    ensures HandsOut(s, schedule, c, SizeOf(s.cpus[c].pc))
    decreases |schedule|
  {
    hide Inv, Ledger, Step, NewBlock, Refuses, Shape;
    if schedule != [] {
      var d, choice := schedule[0].0, schedule[0].1;
      var s' := Step(s, d, choice);
      StepKeeps(s, d, choice);
      StepLedger(s, d, choice);
      if d != c {
        OthersStay(s, d, choice, c);
        MallocHandsOut(s', schedule[1..], c);
      } else if s.cpus[c].pc.Finish? {
        FinishHandsOut(s, c, choice);
      } else {
        LocksAt(s, c);
        SizeStep(s, c, choice);
        MallocHandsOut(s', schedule[1..], c);
      }
    }
  }

  lemma MallocStarts(s: State, c: nat, n: nat)
    requires c in s.cpus && s.cpus[c].pc == Idle && n > 0
    ensures c in Step(s, c, CallMalloc(n)).cpus && SizeOf(Step(s, c, CallMalloc(n)).cpus[c].pc) == n
  {
    assert SizeOf(Check(n)) == n;
  }

  /** A block stays handed out until some CPU calls `kfree` on it. */
  lemma BlockStays(s: State, c: nat, choice: Choice, a: nat)
    requires Inv(s) && Ledger(s) && a in s.live
    ensures var s' := Step(s, c, choice);
            if c in s.cpus && s.cpus[c].pc == Idle && choice == CallKfree(a) then s'.live == s.live - {a}
            else a in s'.live && s'.live[a] == s.live[a]
  {
    if c in s.cpus {
      StepEffect(s, c, choice);
      if s.cpus[c].pc.Finish? {
        FinishLedger(s, c);
      }
    }
    hide Inv, Ledger, Step, StepFinish;
  }

  // ----- pmm_alloc_page -----

  /** The CPU is in a call of `pmm_alloc_page`, before the frame is marked. */
  predicate Asking(pc: Pc) {
    match pc
    case Acquire(_, _, next) => next == FindFrame(Bare)
    case FindFrame(use) => use == Bare
    case MarkFrame(use, _) => use == Bare
    case _ => false
  }

  ghost predicate NewFrame(s: State, s': State, c: nat) {
    exists f :: f !in s.used && s'.used == s.used + {f} && f in s'.owner && s'.owner[f] == ByCpu(c)
  }

  /** Some step of CPU `c` takes a frame that was free and records it as its own. */
  ghost predicate Takes(s: State, schedule: seq<(nat, Choice)>, c: nat)
    decreases |schedule|
  {
    schedule != [] &&
    var s' := Step(s, schedule[0].0, schedule[0].1);
    (schedule[0].0 == c && NewFrame(s, s', c)) || Takes(s', schedule[1..], c)
  }

  lemma AskStep(s: State, c: nat, choice: Choice)
    requires Inv(s) && c in s.cpus && Asking(s.cpus[c].pc) && !Refuses(s, c, choice)
    ensures c in Step(s, c, choice).cpus
    ensures var s' := Step(s, c, choice);
            Asking(s'.cpus[c].pc) || NewFrame(s, s', c)
  {
    if s.cpus[c].pc.MarkFrame? {
      ChosenFree(s, c);
      hide Inv, AfterMark;
      assert Step(s, c, choice).used == s.used + {s.cpus[c].pc.f};
    }
    hide Inv, NewFrame;
  }

  lemma ChosenFree(s: State, c: nat)
    requires Inv(s) && c in s.cpus && s.cpus[c].pc.MarkFrame?
    ensures s.cpus[c].pc.f !in s.used
  {
    MoverFacts(s, c);
    hide Inv, LocksOk, FramesOk, LiveOk, AllHands, AllClaims, ClaimOk;
    assert s.cpus[c].pc.f in Chosen(s.cpus[c].pc);
  }

  /** `pmm_alloc_page` that comes back without a refusal has taken a frame for its caller. */
  lemma {:induction false} AllocTakes(s: State, schedule: seq<(nat, Choice)>, c: nat)
    requires Inv(s) && c in s.cpus && Asking(s.cpus[c].pc) && NeverRefused(s, schedule, c)
    requires c in Run(s, schedule).cpus && Run(s, schedule).cpus[c].pc == Idle
    ensures Takes(s, schedule, c)
    decreases |schedule|
  {
    hide Inv, Step, Refuses;
    if schedule != [] {
      var d, choice := schedule[0].0, schedule[0].1;
      StepKeeps(s, d, choice);
      if d != c {
        OthersStay(s, d, choice, c);
        AllocTakes(Step(s, d, choice), schedule[1..], c);
      } else {
        AskStep(s, c, choice);
        if Asking(Step(s, d, choice).cpus[c].pc) {
          AllocTakes(Step(s, d, choice), schedule[1..], c);
        }
      }
    }
  }

  // ----- Tables -----

  /** The CPU asks for the frame of a table that `vmm_map_page` misses at page `i` of its range. */
  predicate AskingTable(pc: Pc) {
    match pc
    case Acquire(_, _, next) => next.FindFrame? && next.use.Table?
    case FindFrame(use) => use.Table?
    case MarkFrame(use, _) => use.Table?
    case _ => false
  }

  ghost predicate NewTable(s: State, s': State) {
    exists f :: f !in s.used && s'.used == s.used + {f} && f in s'.owner && s'.owner[f] == ByTables
  }

  /** Some step of CPU `c` takes a frame that was free and records it as a table. */
  ghost predicate TakesTable(s: State, schedule: seq<(nat, Choice)>, c: nat)
    decreases |schedule|
  {
    schedule != [] &&
    var s' := Step(s, schedule[0].0, schedule[0].1);
    (schedule[0].0 == c && NewTable(s, s')) || TakesTable(s', schedule[1..], c)
  }

  lemma AskTableStep(s: State, c: nat, choice: Choice)
    requires Inv(s) && c in s.cpus && AskingTable(s.cpus[c].pc) && !Refuses(s, c, choice)
    ensures c in Step(s, c, choice).cpus
    ensures var s' := Step(s, c, choice); AskingTable(s'.cpus[c].pc) || NewTable(s, s')
  {
    if s.cpus[c].pc.MarkFrame? {
      ChosenFree(s, c);
      hide Inv, AfterMark;
      assert Step(s, c, choice).used == s.used + {s.cpus[c].pc.f};
    }
    hide Inv, NewTable;
  }

  /** `vmm_map_page` that goes on after a missing table has taken a frame for it. */
  lemma {:induction false} TableTaken(s: State, schedule: seq<(nat, Choice)>, c: nat)
    requires Inv(s) && c in s.cpus && AskingTable(s.cpus[c].pc) && NeverRefused(s, schedule, c)
    requires c in Run(s, schedule).cpus && !AskingTable(Run(s, schedule).cpus[c].pc)
    ensures TakesTable(s, schedule, c)
    decreases |schedule|
  {
    hide Inv, Step, Refuses, AskingTable, NewTable;
    if schedule != [] {
      var d, choice := schedule[0].0, schedule[0].1;
      StepKeeps(s, d, choice);
      if d != c {
        OthersStay(s, d, choice, c);
        TableTaken(Step(s, d, choice), schedule[1..], c);
      } else {
        AskTableStep(s, c, choice);
        if AskingTable(Step(s, d, choice).cpus[c].pc) {
          TableTaken(Step(s, d, choice), schedule[1..], c);
        }
      }
    }
  }

  /** It asks for one wherever one is missing, up to three times a page. */
  lemma MissingTableAsks(s: State, c: nat)
    requires c in s.cpus && s.cpus[c].pc.Descend?
    ensures c in Step(s, c, Yes).cpus && (AskingTable(Step(s, c, Yes).cpus[c].pc) <==> s.cpus[c].pc.k < 3)
  {
  }

  // ----- Calls that fail -----

  /** The counter test refuses: nothing changes, and the heap lock is given back. */
  lemma RefusedAtOnce(s: State, c: nat)
    requires c in s.cpus && s.cpus[c].pc.Check?
    ensures var e := Run(s, [(c, No), (c, Yes)]);
            && c in e.cpus && e.cpus[c] == Cpu(Idle, s.cpus[c].held - {HeapLock}) && e.taken == s.taken - {HeapLock}
            && e.used == s.used && e.pages == s.pages && e.live == s.live
  {
    var s1 := Step(s, c, No);
    assert s1 == Goto(s, c, Release(HeapLock, Idle));
    RunTwo(s, c, No, Yes);
  }

  lemma RunTwo(s: State, c: nat, x: Choice, y: Choice)
    ensures Run(s, [(c, x), (c, y)]) == Step(Step(s, c, x), c, y)
  {
    hide Step;
    var es := [(c, x), (c, y)];
    assert es[1..] == [(c, y)] && [(c, y)][1..] == [];
    assert Run(Step(s, c, x), [(c, y)]) == Run(Step(Step(s, c, x), c, y), []);
  }

  lemma RunThree(s: State, c: nat, x: Choice, y: Choice, z: Choice)
    ensures Run(s, [(c, x), (c, y), (c, z)]) == Step(Step(Step(s, c, x), c, y), c, z)
  {
    hide Step;
    RunTwo(Step(s, c, x), c, y, z);
    var es := [(c, x), (c, y), (c, z)];
    assert es[1..] == [(c, y), (c, z)];
  }

  /** No frame for a page in the middle of a range: the call ends with the frame mutex held, the other locks given back,
      and the pages mapped so far still there. */
  lemma NullEndsCall(s: State, c: nat)
    requires c in s.cpus && s.cpus[c].pc.FindFrame? && s.cpus[c].pc.use.Backing?
    ensures var e := Run(s, [(c, NotFound), (c, Yes), (c, Yes)]);
            && c in e.cpus && e.cpus[c] == Cpu(Idle, s.cpus[c].held - {VmmLock} - {HeapLock})
            && e.taken == s.taken - {VmmLock} - {HeapLock}
            && e.used == s.used && e.pages == s.pages && e.live == s.live
  {
    hide Mark;
    var s1 := Step(s, c, NotFound);
    assert s1.cpus == s.cpus[c := s.cpus[c].(pc := Release(VmmLock, Release(HeapLock, Idle)))];
    RunThree(s, c, NotFound, Yes, Yes);
    assert Step(s1, c, Yes).cpus[c].pc == Release(HeapLock, Idle);
  }

  /** No frame for a table, or one outside the window: the CPU stops for ever and keeps its locks. */
  lemma TableNullHangs(s: State, c: nat)
    requires c in s.cpus && s.cpus[c].pc.FindFrame? && s.cpus[c].pc.use.Table?
    ensures var s' := Step(s, c, NotFound);
            c in s'.cpus && s'.cpus[c] == Cpu(Hang, s.cpus[c].held) && s'.taken == s.taken
  {
  }

  lemma OutsideHangs(s: State, c: nat)
    requires c in s.cpus && s.cpus[c].pc.Descend? && s.cpus[c].pc.k > 0
    ensures var s' := Step(s, c, Outside);
            c in s'.cpus && s'.cpus[c] == Cpu(Hang, s.cpus[c].held) && s'.taken == s.taken
  {
  }

  lemma {:induction false} HangsForEver(s: State, schedule: seq<(nat, Choice)>, c: nat)
    requires c in s.cpus && s.cpus[c].pc == Hang
    ensures c in Run(s, schedule).cpus && Run(s, schedule).cpus[c] == s.cpus[c]
    decreases |schedule|
  {
    if schedule != [] {
      var d, choice := schedule[0].0, schedule[0].1;
      if d != c {
        OthersStay(s, d, choice, c);
      } else {
        assert Step(s, c, choice) == s;
      }
      hide Step;
      HangsForEver(Step(s, d, choice), schedule[1..], c);
    }
  }

  // ----- kfree and pmm_free_page -----

  /** Some step of CPU `c` gives the frame back. */
  ghost predicate Releases(s: State, schedule: seq<(nat, Choice)>, c: nat, f: nat)
    decreases |schedule|
  {
    schedule != [] &&
    var s' := Step(s, schedule[0].0, schedule[0].1);
    (schedule[0].0 == c && f in s.used && s'.used == s.used - {f}) || Releases(s', schedule[1..], c, f)
  }

  /** Some step of CPU `c` takes the page out of the table. */
  ghost predicate Unmaps(s: State, schedule: seq<(nat, Choice)>, c: nat, p: nat)
    decreases |schedule|
  {
    schedule != [] &&
    var s' := Step(s, schedule[0].0, schedule[0].1);
    (schedule[0].0 == c && p in s.pages && s'.pages == s.pages - {p}) || Unmaps(s', schedule[1..], c, p)
  }

  /** The CPU is in a call of `pmm_free_page` for the frame `f`, before the bit is cleared. */
  predicate Returning(pc: Pc, f: nat) {
    pc == ClearFrame(f, Idle) || (pc.Acquire? && pc.next == ClearFrame(f, Idle))
  }

  lemma {:induction false} FreeReleases(s: State, schedule: seq<(nat, Choice)>, c: nat, f: nat)
    requires Inv(s) && Ledger(s) && c in s.cpus && Returning(s.cpus[c].pc, f)
    requires c in Run(s, schedule).cpus && Run(s, schedule).cpus[c].pc == Idle
    ensures Releases(s, schedule, c, f)
    decreases |schedule|
  {
    hide Inv, Ledger;
    if schedule != [] {
      var d, choice := schedule[0].0, schedule[0].1;
      var s' := Step(s, d, choice);
      StepKeeps(s, d, choice);
      StepLedger(s, d, choice);
      if d != c {
        OthersStay(s, d, choice, c);
        hide Step;
        FreeReleases(s', schedule[1..], c, f);
      } else if s.cpus[c].pc == ClearFrame(f, Idle) {
        ClearLedger(s, c, f, Idle);
      } else {
        assert Returning(s'.cpus[c].pc, f);
        hide Step;
        FreeReleases(s', schedule[1..], c, f);
      }
    }
  }

  /** The page `p` waits for CPU `c` to take it down. */
  ghost predicate Awaits(s: State, c: nat, p: nat) {
    p in s.who && s.who[p] == Dying(c) && p in s.pages
  }

  /** What a step of another CPU leaves of it. */
  lemma OtherLeaves(s: State, d: nat, choice: Choice, c: nat, p: nat)
    requires Inv(s) && Ledger(s) && c != d && p in s.pages && p in s.who
             && (s.who[p] == Dying(c) || s.who[p] == Cleared(c))
    ensures var s' := Step(s, d, choice); p in s'.pages && s'.pages[p] == s.pages[p]
  {
    if d in s.cpus {
      StepEffect(s, d, choice);
      if s.cpus[d].pc.MapPage? {
        NotMappedYet(s, d);
      } else if s.cpus[d].pc.Unmap? {
        UnmapLedger(s, d);
      }
      hide Inv, Ledger, Step, StepUnmap;
    }
  }

  /** A step of `kfree` at page `i` of `n`: it goes on there, it gives the frame of the page back, or it takes the page
      out of the table and goes on to the next one. */
  ghost predicate TearGoes(s: State, s': State, c: nat, ptr: nat, n: nat, i: nat, cleared: bool) {
    && c in s'.cpus
    && (|| (ClaimOf(s'.cpus[c].pc) == Tear(ptr, n, i, cleared) && s'.pages == s.pages)
        || (!cleared && ClaimOf(s'.cpus[c].pc) == Tear(ptr, n, i, true) && s'.pages == s.pages
            && ptr + i in s.pages && s.pages[ptr + i] in s.used && s'.used == s.used - {s.pages[ptr + i]})
        || (cleared && ClaimOf(s'.cpus[c].pc) == Tear(ptr, n, i + 1, false)
            && ptr + i in s.pages && s'.pages == s.pages - {ptr + i}))
  }

  lemma TearStep(s: State, c: nat, choice: Choice, ptr: nat, n: nat, i: nat, cleared: bool)
    requires Inv(s) && Ledger(s) && c in s.cpus && ClaimOf(s.cpus[c].pc) == Tear(ptr, n, i, cleared) && i < n
    ensures TearGoes(s, Step(s, c, choice), c, ptr, n, i, cleared)
  {
    var pc := s.cpus[c].pc;
    TearPc(pc);
    if pc.ClearFrame? {
      TearClear(s, c, choice, ptr, n, i, cleared);
    } else if pc.Unmap? {
      TearUnmap(s, c, choice);
    } else {
      StepEffect(s, c, choice);
      if pc.FreeLoop? {
        PageStillThere(s, c, ptr, n, i);
        TearLoop(s, c, choice);
      } else {
        SameClaim(s, c, choice);
      }
      hide Inv, Ledger, Step, ClaimOf;
    }
  }

  lemma TearPc(pc: Pc)
    requires ClaimOf(pc).Tear?
    ensures pc.Acquire? || pc.Release? || pc.FreeLoop? || pc.ClearFrame? || pc.Unmap?
    ensures pc.FreeLoop? ==> ClaimOf(pc) == Tear(pc.ptr, pc.n, pc.i, false)
    ensures pc.Unmap? ==> ClaimOf(pc) == Tear(pc.ptr, pc.n, pc.i, true)
    ensures pc.ClearFrame? ==> pc.next.Unmap? && ClaimOf(pc) == Tear(pc.next.ptr, pc.next.n, pc.next.i, false)
                               && ClaimOf(pc.next) == Tear(pc.next.ptr, pc.next.n, pc.next.i, true)
  {
  }

  lemma TearLoop(s: State, c: nat, choice: Choice)
    requires c in s.cpus && s.cpus[c].pc.FreeLoop?
    requires var pc := s.cpus[c].pc; pc.i < pc.n && pc.ptr + pc.i in s.pages
    ensures c in Step(s, c, choice).cpus && ClaimOf(Step(s, c, choice).cpus[c].pc) == ClaimOf(s.cpus[c].pc)
  {
    var pc := s.cpus[c].pc;
    var clear := ClearFrame(s.pages[pc.ptr + pc.i], Unmap(pc.ptr, pc.n, pc.i));
    assert ClaimOf(clear) == Tear(pc.ptr, pc.n, pc.i, false) == ClaimOf(pc);
    assert Step(s, c, choice).cpus[c].pc == Acquire(PmmLock, false, clear);
  }

  lemma TearClear(s: State, c: nat, choice: Choice, ptr: nat, n: nat, i: nat, cleared: bool)
    requires Inv(s) && Ledger(s) && c in s.cpus && ClaimOf(s.cpus[c].pc) == Tear(ptr, n, i, cleared)
             && s.cpus[c].pc.ClearFrame?
    ensures TearGoes(s, Step(s, c, choice), c, ptr, n, i, cleared)
  {
    hide Inv, Ledger, Step, ClaimOf, StepClear;
    var pc := s.cpus[c].pc;
    TearPc(pc);
    StepEffect(s, c, choice);
    ClearLedger(s, c, pc.f, pc.next);
    ClearGoes(s, c, choice);
  }

  lemma ClearGoes(s: State, c: nat, choice: Choice)
    requires c in s.cpus && s.cpus[c].pc.ClearFrame?
    ensures c in Step(s, c, choice).cpus && ClaimOf(Step(s, c, choice).cpus[c].pc) == ClaimOf(s.cpus[c].pc.next)
  {
    hide Mark, Drop;
    assert Step(s, c, choice).cpus[c].pc == Release(PmmLock, s.cpus[c].pc.next);
  }

  lemma TearUnmap(s: State, c: nat, choice: Choice)
    requires Inv(s) && Ledger(s) && c in s.cpus && s.cpus[c].pc.Unmap?
    ensures var pc := s.cpus[c].pc; TearGoes(s, Step(s, c, choice), c, pc.ptr, pc.n, pc.i, true)
  {
    hide Inv, Ledger, Step, ClaimOf, StepUnmap;
    StepEffect(s, c, choice);
    UnmapLedger(s, c);
    UnmapGoes(s, c, choice);
  }

  lemma UnmapGoes(s: State, c: nat, choice: Choice)
    requires c in s.cpus && s.cpus[c].pc.Unmap?
    ensures var pc := s.cpus[c].pc;
            c in Step(s, c, choice).cpus && ClaimOf(Step(s, c, choice).cpus[c].pc) ==
                Tear(pc.ptr, pc.n, pc.i + 1, false)
  {
    hide Drop;
  }

  lemma PageStillThere(s: State, c: nat, ptr: nat, n: nat, j: nat)
    requires Inv(s) && c in s.cpus && ClaimOf(s.cpus[c].pc).Tear? && j < n
    requires var claim := ClaimOf(s.cpus[c].pc); claim.ptr == ptr && claim.n == n && if claim.cleared then claim.i < j
             else claim.i <= j
    ensures Awaits(s, c, ptr + j)
  {
    MoverFacts(s, c);
    hide Inv, LocksOk, LiveOk, AllHands, AllClaims, HandsOk, ClaimOf;
    var claim := ClaimOf(s.cpus[c].pc);
    if claim.cleared {
      assert AllAre(s.who, ptr + claim.i + 1, ptr + n, Dying(c));
    } else {
      assert AllAre(s.who, ptr + claim.i, ptr + n, Dying(c));
    }
  }

  /** Page `j` of the block is still to be taken down. */
  ghost predicate Ahead(s: State, c: nat, ptr: nat, n: nat, j: nat) {
    && c in s.cpus && ClaimOf(s.cpus[c].pc).Tear?
    && var claim := ClaimOf(s.cpus[c].pc);
       claim.ptr == ptr && claim.n == n && j < n && if claim.cleared then claim.i < j else claim.i <= j
  }

  lemma AheadStep(s: State, d: nat, choice: Choice, c: nat, ptr: nat, n: nat, j: nat)
    requires Inv(s) && Ledger(s) && Ahead(s, c, ptr, n, j)
    ensures ptr + j in s.pages
    ensures var s' := Step(s, d, choice);
            || (d == c && s.pages[ptr + j] in s.used && s'.used == s.used - {s.pages[ptr + j]})
            || (Ahead(s', c, ptr, n, j) && ptr + j in s'.pages && s'.pages[ptr + j] == s.pages[ptr + j])
  {
    hide Inv, Ledger, Step, ClaimOf, TearGoes;
    PageStillThere(s, c, ptr, n, j);
    if d != c {
      hide Ahead;
      AheadOther(s, d, choice, c, ptr, n, j);
    } else {
      var claim := ClaimOf(s.cpus[c].pc);
      TearStep(s, c, choice, ptr, n, claim.i, claim.cleared);
      hide Ahead;
      TornPast(s, Step(s, c, choice), c, ptr, n, j);
    }
  }

  lemma AheadOther(s: State, d: nat, choice: Choice, c: nat, ptr: nat, n: nat, j: nat)
    requires Inv(s) && Ledger(s) && Ahead(s, c, ptr, n, j) && d != c && Awaits(s, c, ptr + j)
    ensures var s' := Step(s, d, choice);
            Ahead(s', c, ptr, n, j) && ptr + j in s'.pages && s'.pages[ptr + j] == s.pages[ptr + j]
  {
    hide Inv, Ledger, Step, ClaimOf;
    OthersStay(s, d, choice, c);
    OtherLeaves(s, d, choice, c, ptr + j);
  }

  lemma TornPast(s: State, s': State, c: nat, ptr: nat, n: nat, j: nat)
    requires Ahead(s, c, ptr, n, j) && ptr + j in s.pages
    requires var claim := ClaimOf(s.cpus[c].pc); TearGoes(s, s', c, ptr, n, claim.i, claim.cleared)
    ensures || (s.pages[ptr + j] in s.used && s'.used == s.used - {s.pages[ptr + j]})
            || (Ahead(s', c, ptr, n, j) && ptr + j in s'.pages && s'.pages[ptr + j] == s.pages[ptr + j])
  {
    hide ClaimOf;
  }

  lemma AheadBusy(s: State, c: nat, ptr: nat, n: nat, j: nat)
    requires Ahead(s, c, ptr, n, j)
    ensures s.cpus[c].pc != Idle
  {
  }

  lemma ReleasesFirst(s: State, schedule: seq<(nat, Choice)>, c: nat, f: nat)
    requires schedule != []
    ensures var s' := Step(s, schedule[0].0, schedule[0].1);
            (schedule[0].0 == c && f in s.used && s'.used == s.used - {f}) || Releases(s', schedule[1..], c, f) ==>
              Releases(s, schedule, c, f)
  {
    hide Step;
  }

  lemma RunFirst(s: State, schedule: seq<(nat, Choice)>)
    ensures Run(s, schedule) == if schedule == [] then s else Run(Step(s, schedule[0].0, schedule[0].1), schedule[1..])
  {
    hide Step;
  }

  /** `kfree` in any interleaving: when the call is over, the frame of each page of the block was given back. */
  lemma {:induction false} KfreeReleases(s: State, schedule: seq<(nat, Choice)>, c: nat, ptr: nat, n: nat, j: nat)
    requires Inv(s) && Ledger(s) && Ahead(s, c, ptr, n, j)
    requires c in Run(s, schedule).cpus && Run(s, schedule).cpus[c].pc == Idle
    ensures ptr + j in s.pages && Releases(s, schedule, c, s.pages[ptr + j])
    decreases |schedule|
  {
    AheadBusy(s, c, ptr, n, j);
    hide Inv, Ledger, Step, Run, Releases, Ahead;
    RunFirst(s, schedule);
    if schedule != [] {
      var d, choice := schedule[0].0, schedule[0].1;
      var s' := Step(s, d, choice);
      AheadStep(s, d, choice, c, ptr, n, j);
      ReleasesFirst(s, schedule, c, s.pages[ptr + j]);
      if Ahead(s', c, ptr, n, j) && ptr + j in s'.pages && s'.pages[ptr + j] == s.pages[ptr + j] {
        StepKeeps(s, d, choice);
        StepLedger(s, d, choice);
        KfreeReleases(s', schedule[1..], c, ptr, n, j);
      }
    }
  }

  /** Page `j` is not yet out of the table. */
  ghost predicate Left(s: State, c: nat, ptr: nat, n: nat, j: nat) {
    && c in s.cpus && ClaimOf(s.cpus[c].pc).Tear?
    && var claim := ClaimOf(s.cpus[c].pc); claim.ptr == ptr && claim.n == n && claim.i <= j < n
  }

  lemma LeftStep(s: State, d: nat, choice: Choice, c: nat, ptr: nat, n: nat, j: nat)
    requires Inv(s) && Ledger(s) && Left(s, c, ptr, n, j)
    ensures s.cpus[c].pc != Idle
    ensures var s' := Step(s, d, choice);
            || (d == c && ptr + j in s.pages && s'.pages == s.pages - {ptr + j})
            || Left(s', c, ptr, n, j)
  {
    var claim := ClaimOf(s.cpus[c].pc);
    assert ClaimOf(Idle) == NoClaim;
    if d != c {
      OthersStay(s, d, choice, c);
    } else {
      TearStep(s, c, choice, ptr, n, claim.i, claim.cleared);
    }
    hide Inv, Ledger, Step, ClaimOf;
  }

  lemma UnmapsFirst(s: State, schedule: seq<(nat, Choice)>, c: nat, p: nat)
    requires schedule != []
    ensures var s' := Step(s, schedule[0].0, schedule[0].1);
            (schedule[0].0 == c && p in s.pages && s'.pages == s.pages - {p}) || Unmaps(s', schedule[1..], c, p) ==>
              Unmaps(s, schedule, c, p)
  {
    hide Step;
  }

  /** And the page is in the table no more. */
  lemma {:induction false} KfreeUnmaps(s: State, schedule: seq<(nat, Choice)>, c: nat, ptr: nat, n: nat, j: nat)
    requires Inv(s) && Ledger(s) && Left(s, c, ptr, n, j)
    requires c in Run(s, schedule).cpus && Run(s, schedule).cpus[c].pc == Idle
    ensures Unmaps(s, schedule, c, ptr + j)
    decreases |schedule|
  {
    hide Inv, Ledger, Step, Run, Unmaps, Left;
    RunFirst(s, schedule);
    if schedule == [] {
      LeftStep(s, c, Yes, c, ptr, n, j);
    } else {
      var d, choice := schedule[0].0, schedule[0].1;
      var s' := Step(s, d, choice);
      LeftStep(s, d, choice, c, ptr, n, j);
      UnmapsFirst(s, schedule, c, ptr + j);
      if Left(s', c, ptr, n, j) {
        StepKeeps(s, d, choice);
        StepLedger(s, d, choice);
        KfreeUnmaps(s', schedule[1..], c, ptr, n, j);
      }
    }
  }

  /** A call of `kfree` takes over the whole block at once. */
  lemma KfreeStarts(s: State, c: nat, ptr: nat)
    requires c in s.cpus && s.cpus[c].pc == Idle && ptr in s.live
    ensures var s' := Step(s, c, CallKfree(ptr));
            && s'.live == s.live - {ptr} && s'.pages == s.pages
            && forall j :: 0 <= j < s.live[ptr] ==>
                 Ahead(s', c, ptr, s.live[ptr], j) && Left(s', c, ptr, s.live[ptr], j)
  {
    assert ClaimOf(FreeLoop(ptr, s.live[ptr], 0)) == Tear(ptr, s.live[ptr], 0, false);
    hide Mark;
  }

  // ----- Whole calls, in any interleaving from the start -----

  lemma StartState(s0: State, before: seq<(nat, Choice)>, c: nat, choice: Choice)
    requires Initial(s0)
    ensures Inv(Run(s0, before)) && Ledger(Run(s0, before))
    ensures var s := Step(Run(s0, before), c, choice); Inv(s) && Ledger(s)
  {
    InitialInv(s0);
    InitialLedger(s0);
    RunLedger(s0, before);
    hide Inv, Ledger, Run, Step;
    StepKeeps(Run(s0, before), c, choice);
    StepLedger(Run(s0, before), c, choice);
  }

  /** `kmalloc`: the call that comes back without a refusal has handed out a block of `n` pages. */
  lemma MallocCall(s0: State, before: seq<(nat, Choice)>, c: nat, n: nat, after: seq<(nat, Choice)>)
    requires Initial(s0) && n > 0 && c in Run(s0, before).cpus && Run(s0, before).cpus[c].pc == Idle
    requires var s := Step(Run(s0, before), c, CallMalloc(n));
             NeverRefused(s, after, c) && c in Run(s, after).cpus && Run(s, after).cpus[c].pc == Idle
    ensures HandsOut(Step(Run(s0, before), c, CallMalloc(n)), after, c, n)
  {
    hide Inv, Ledger, Run, Step, HandsOut, NeverRefused;
    StartState(s0, before, c, CallMalloc(n));
    MallocStarts(Run(s0, before), c, n);
    MallocHandsOut(Step(Run(s0, before), c, CallMalloc(n)), after, c);
  }

  /** `kfree`: the block is gone at once, and when the call is over, the frame of each of its pages was given back and
      the page taken out of the table. */
  lemma KfreeCall(s0: State, before: seq<(nat, Choice)>, c: nat, ptr: nat, after: seq<(nat, Choice)>)
    requires Initial(s0) && c in Run(s0, before).cpus && Run(s0, before).cpus[c].pc == Idle
             && ptr in Run(s0, before).live
    requires var s := Step(Run(s0, before), c, CallKfree(ptr));
             c in Run(s, after).cpus && Run(s, after).cpus[c].pc == Idle
    ensures var e := Run(s0, before);
            var s := Step(e, c, CallKfree(ptr));
            && s.live == e.live - {ptr} && s.pages == e.pages
            && forall p :: ptr <= p < ptr + e.live[ptr] ==>
                 p in e.pages && Releases(s, after, c, e.pages[p]) && Unmaps(s, after, c, p)
  {
    hide Inv, Ledger, Run, Step, Releases, Unmaps, Ahead, Left;
    var e := Run(s0, before);
    var s := Step(e, c, CallKfree(ptr));
    StartState(s0, before, c, CallKfree(ptr));
    KfreeStarts(e, c, ptr);
    forall p | ptr <= p < ptr + e.live[ptr]
      ensures p in e.pages && Releases(s, after, c, e.pages[p]) && Unmaps(s, after, c, p)
    {
      var j := p - ptr;
      KfreeReleases(s, after, c, ptr, e.live[ptr], j);
      KfreeUnmaps(s, after, c, ptr, e.live[ptr], j);
    }
  }

  lemma CallStarts(s: State, c: nat, f: nat)
    requires c in s.cpus && s.cpus[c].pc == Idle
    ensures c in Step(s, c, CallAlloc).cpus && Asking(Step(s, c, CallAlloc).cpus[c].pc)
    ensures f in s.owner && s.owner[f] == ByCpu(c) ==>
              c in Step(s, c, CallFree(f)).cpus && Returning(Step(s, c, CallFree(f)).cpus[c].pc, f)
  {
  }

  /** `pmm_alloc_page`: the call that comes back without a refusal has taken a frame for its caller. */
  lemma AllocCall(s0: State, before: seq<(nat, Choice)>, c: nat, after: seq<(nat, Choice)>)
    requires Initial(s0) && c in Run(s0, before).cpus && Run(s0, before).cpus[c].pc == Idle
    requires var s := Step(Run(s0, before), c, CallAlloc);
             NeverRefused(s, after, c) && c in Run(s, after).cpus && Run(s, after).cpus[c].pc == Idle
    ensures Takes(Step(Run(s0, before), c, CallAlloc), after, c)
  {
    hide Inv, Ledger, Run, Step, Takes, NeverRefused, Asking;
    StartState(s0, before, c, CallAlloc);
    CallStarts(Run(s0, before), c, 0);
    AllocTakes(Step(Run(s0, before), c, CallAlloc), after, c);
  }

  /** `pmm_free_page`: when the call is over, the frame was given back. */
  lemma FreeCall(s0: State, before: seq<(nat, Choice)>, c: nat, f: nat, after: seq<(nat, Choice)>)
    requires Initial(s0) && c in Run(s0, before).cpus && Run(s0, before).cpus[c].pc == Idle
    requires f in Run(s0, before).owner && Run(s0, before).owner[f] == ByCpu(c)
    requires var s := Step(Run(s0, before), c, CallFree(f)); c in Run(s, after).cpus && Run(s, after).cpus[c].pc == Idle
    ensures Releases(Step(Run(s0, before), c, CallFree(f)), after, c, f)
  {
    hide Inv, Ledger, Run, Step, Releases, Returning;
    StartState(s0, before, c, CallFree(f));
    CallStarts(Run(s0, before), c, f);
    FreeReleases(Step(Run(s0, before), c, CallFree(f)), after, c, f);
  }
}
