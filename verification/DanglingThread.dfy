/** `create_thread` in process 0 (kernel/src/sys/sched.c) when the stack of the new thread cannot be allocated: the
    thread is freed and its slot keeps the pointer, which a later scan of `find_idle` follows. */
module DanglingThread {
  import opened Context
  import opened Scheduler
  import opened KernelThreads
  import opened Turns

  // ----- The call -----

  /** The whole call: `thread` and `stack` are what the allocator returns for them. */
  function CallIn(entry: nat, thread: nat, stack: nat): seq<Event> {
    [Create(entry), Next(thread), Next(0), Next(0), Next(stack)] + Nexts(6, 0)
  }

  lemma {:induction false} NothingLeft(s: State, n: nat, given: nat)
    requires s.build == Nobody
    ensures Run(s, Nexts(n, given)) == s
  {
    if n > 0 {
      assert Nexts(n, given)[0] == Next(given) && Nexts(n, given)[1..] == Nexts(n - 1, given);
      NothingLeft(s, n - 1, given);
    }
  }

  /** The call from statement `k` on: the slot holds the thread. */
  ghost predicate Going(s: State, z: State, k: nat)
    requires |s.procs| > 0
  {
    var slot := SlotAt(z.procs, 0, Chosen(s));
    && z.pid == s.pid && z.tid == s.tid && |z.procs| == |s.procs| && |z.procs[0].threads| == |s.procs[0].threads|
    && z.build.Building? && z.build.pid == 0 && z.build.tid == Chosen(s) && z.build.stage == k
    && z.build.ownerPid == s.pid && z.build.ownerTid == s.tid
    && slot.Held? && |slot.thread.ctx| == CONTEXT
  }

  lemma GoingNext(s: State, z: State, k: nat, given: nat)
    requires CanCreate(s) && Going(s, z, k) && 1 <= k <= 8 && (k == 3 ==> given != 0)
    ensures Going(s, Step(z, Next(given)), k + 1)
  {
    hide FindThread;
    assert Step(z, Next(given)) == Advance(z, z.build, given);
  }

  lemma {:induction false} GoingRun(s: State, z: State, k: nat)
    requires CanCreate(s) && Going(s, z, k) && 4 <= k <= 9
    ensures var e := Run(z, Nexts(10 - k, 0)); e.build == Nobody && SlotAt(e.procs, 0, Chosen(s)).Held?
    decreases 9 - k
  {
    var es := Nexts(10 - k, 0);
    assert es[0] == Next(0) && es[1..] == Nexts(9 - k, 0);
    if k <= 8 {
      GoingNext(s, z, k, 0);
      hide Going, Step, SlotAt, FindThread;
      GoingRun(s, Step(z, Next(0)), k + 1);
    } else {
      assert Run(Step(z, Next(0)), es[1..]) == Step(z, Next(0));
      assert Step(z, Next(0)) == z.(build := Nobody);
    }
  }

  lemma RunFront(s: State, a: Event, rest: seq<Event>)
    ensures Run(s, [a] + rest) == Run(Step(s, a), rest)
  {
    assert ([a] + rest)[1..] == rest;
  }

  /** The state before the statement that asks for the stack. */
  function BeforeStack(s: State, entry: nat, thread: nat): State {
    Step(Step(Step(Step(s, Create(entry)), Next(thread)), Next(0)), Next(0))
  }

  lemma CallSteps(s: State, entry: nat, thread: nat, stack: nat)
    ensures Run(s, CallIn(entry, thread, stack)) == Run(Step(BeforeStack(s, entry, thread), Next(stack)), Nexts(6, 0))
  {
    hide Step, Nexts;
    var rest := Nexts(6, 0);
    assert CallIn(entry, thread, stack) == [Create(entry)]
        + ([Next(thread)] + ([Next(0)] + ([Next(0)] + ([Next(stack)] + rest))));
    RunFront(s, Create(entry), [Next(thread)] + ([Next(0)] + ([Next(0)] + ([Next(stack)] + rest))));
    RunFront(Step(s, Create(entry)), Next(thread), [Next(0)] + ([Next(0)] + ([Next(stack)] + rest)));
    RunFront(Step(Step(s, Create(entry)), Next(thread)), Next(0), [Next(0)] + ([Next(stack)] + rest));
    RunFront(Step(Step(Step(s, Create(entry)), Next(thread)), Next(0)), Next(0), [Next(stack)] + rest);
    RunFront(BeforeStack(s, entry, thread), Next(stack), rest);
  }

  lemma PutTwice(procs: Procs, p: nat, t: nat, slot: Slot)
    ensures forall other :: Put(Put(procs, p, t, slot), p, t, other) == Put(procs, p, t, other)
  {
    if p < |procs| && t < |procs[p].threads| {
      forall other ensures Put(Put(procs, p, t, slot), p, t, other) == Put(procs, p, t, other) {
        assert procs[p].threads[t := slot][t := other] == procs[p].threads[t := other];
      }
    }
  }

  lemma SetsOnlySlot(s: State, z: State, k: nat)
    requires CanCreate(s) && Going(s, z, k) && 1 <= k <= 2
    ensures forall other :: Put(Step(z, Next(0)).procs, 0, Chosen(s), other) == Put(z.procs, 0, Chosen(s), other)
  {
    hide FindThread, Put, SlotAt;
    forall slot {
      PutTwice(z.procs, 0, Chosen(s), slot);
    }
  }

  lemma CallStarts(s: State, entry: nat, thread: nat)
    requires CanCreate(s) && s.pid == 0 && thread != 0
    ensures Going(s, BeforeStack(s, entry, thread), 3)
    ensures var z := BeforeStack(s, entry, thread);
            forall slot :: Put(z.procs, 0, Chosen(s), slot) == Put(s.procs, 0, Chosen(s), slot)
  {
    var a := Step(s, Create(entry));
    var b := Step(a, Next(thread));
    hide FindThread;
    assert a == s.(build := Building(0, Chosen(s), 0, s.tid, 0, entry, 0));
    assert b == s.(procs := Put(s.procs, 0, Chosen(s), Held(Thread(Zeros(), Unused))), build := a.build.(stage := 1));
    assert Going(s, b, 1);
    GoingNext(s, b, 1, 0);
    GoingNext(s, Step(b, Next(0)), 2, 0);
    PutTwice(s.procs, 0, Chosen(s), Held(Thread(Zeros(), Unused)));
    SetsOnlySlot(s, b, 1);
    SetsOnlySlot(s, Step(b, Next(0)), 2);
  }

  lemma NoThread(s: State, entry: nat)
    requires CanCreate(s) && s.pid == 0
    ensures Step(BeforeStack(s, entry, 0), Next(0)) == s.(procs := Put(s.procs, 0, Chosen(s), Empty))
    ensures forall stack :: Step(BeforeStack(s, entry, 0), Next(stack)) == BeforeStack(s, entry, 0)
  {
    var a := Step(s, Create(entry));
    hide FindThread;
    assert a == s.(build := Building(0, Chosen(s), 0, s.tid, 0, entry, 0));
    assert Step(a, Next(0)) == s.(procs := Put(s.procs, 0, Chosen(s), Empty), build := Nobody);
  }

  /** A call in process 0 leaves its slot dangling if and only if it got the thread and not the stack. */
  lemma CallDanglesIff(s: State, entry: nat, thread: nat, stack: nat)
    requires CanCreate(s) && s.pid == 0
    ensures var z := Run(s, CallIn(entry, thread, stack));
            && (SlotAt(z.procs, 0, Chosen(s)) == Dangling <==> thread != 0 && stack == 0)
            && (thread != 0 && stack == 0 ==> z == s.(procs := Put(s.procs, 0, Chosen(s), Dangling)))
  {
    hide Run, FindThread;
    CallSteps(s, entry, thread, stack);
    PutOne(s.procs, 0, Chosen(s), Dangling);
    PutOne(s.procs, 0, Chosen(s), Empty);
    var z := BeforeStack(s, entry, thread);
    if thread == 0 {
      NoThread(s, entry);
      NothingLeft(Step(z, Next(stack)), 6, 0);
    } else {
      CallStarts(s, entry, thread);
      if stack == 0 {
        Refused(s, z);
        NothingLeft(Step(z, Next(0)), 6, 0);
        OnlySlots(s, entry, thread);
      } else {
        GoingNext(s, z, 3, stack);
        GoingRun(s, Step(z, Next(stack)), 4);
      }
    }
  }

  lemma Refused(s: State, z: State)
    requires CanCreate(s) && Going(s, z, 3)
    ensures Step(z, Next(0)) == z.(procs := Put(z.procs, 0, Chosen(s), Dangling), build := Nobody)
  {
    hide Put, SlotAt;
  }

  lemma OnlySlots(s: State, entry: nat, thread: nat)
    requires CanCreate(s) && s.pid == 0 && thread != 0
    ensures var z := BeforeStack(s, entry, thread); z == s.(procs := z.procs, build := z.build)
  {
    hide FindThread, Put, SlotAt;
  }

  // ----- What follows -----

  /** The scan from `(pid, tid)` reads slot `(p, t)`: an idle thread in it would be found. */
  ghost predicate Reads(procs: Procs, pid: nat, tid: nat, p: nat, t: nat) {
    forall slot :: Runnable(slot) ==> FindIdle(Put(procs, p, t, slot), pid, tid) == There(p, t)
  }

  /** A rescheduling tick of the run reads slot `t` of process 0. */
  ghost predicate Followed(s: State, es: seq<Event>, t: nat)
    decreases |es|
  {
    es != [] && ((es[0].Timer? && Switching(s) && Reads(Save(s), s.pid, s.tid + 1, 0, t))
                 || Followed(Step(s, es[0]), es[1..], t))
  }

  /** Two tables with the same valid processes and the same idle threads, but perhaps for slot `(p, t)`, which is idle
      in the second. */
  ghost predicate SameIdle(procs: Procs, procs': Procs, p: nat, t: nat) {
    && |procs'| == |procs| && Runnable(SlotAt(procs', p, t))
    && (forall q :: 0 <= q < |procs| ==> procs'[q].valid == procs[q].valid && |procs'[q].threads| == |procs[q].threads|)
    && (forall q, u :: !(q == p && u == t) ==> Runnable(SlotAt(procs', q, u)) == Runnable(SlotAt(procs, q, u)))
  }

  lemma {:induction false} ScanThreadsAlike(a: seq<Slot>, b: seq<Slot>, j: nat, t: int)
    requires |a| == |b| && forall k :: 0 <= k < |a| && k != t ==> Runnable(a[k]) == Runnable(b[k])
    requires 0 <= t < |b| ==> Runnable(b[t])
    ensures ScanThreads(b, j) == t || ScanThreads(b, j) == ScanThreads(a, j)
    ensures 0 <= t < |a| && Runnable(a[t]) ==> ScanThreads(b, j) == ScanThreads(a, j)
    decreases |a| - j
  {
    if j < |a| && !Runnable(b[j]) {
      ScanThreadsAlike(a, b, j + 1, t);
    }
  }

  lemma {:induction false} ScanProcsAlike(a: Procs, b: Procs, i: nat, j: nat, p: nat, t: nat)
    requires SameIdle(a, b, p, t)
    ensures ScanProcs(b, i, j) == There(p, t) || ScanProcs(b, i, j) == ScanProcs(a, i, j)
    ensures Runnable(SlotAt(a, p, t)) ==> ScanProcs(b, i, j) == ScanProcs(a, i, j)
    decreases |a| - i
  {
    if i < |a| {
      forall k | 0 <= k < |a[i].threads|
          ensures !(i == p && k == t) ==> Runnable(a[i].threads[k]) == Runnable(b[i].threads[k]) {
        assert SlotAt(a, i, k) == a[i].threads[k] && SlotAt(b, i, k) == b[i].threads[k];
      }
      assert SlotAt(b, p, t) == b[p].threads[t] && SlotAt(a, p, t) == a[p].threads[t];
      ScanThreadsAlike(a[i].threads, b[i].threads, j, if i == p then t else -1);
      ScanProcsAlike(a, b, i + 1, j, p, t);
    }
  }

  /** The search finds that slot or what it finds without it. */
  lemma FindAlike(a: Procs, b: Procs, pid: nat, tid: nat, p: nat, t: nat)
    requires SameIdle(a, b, p, t)
    ensures FindIdle(b, pid, tid) == There(p, t) || FindIdle(b, pid, tid) == FindIdle(a, pid, tid)
    ensures Runnable(SlotAt(a, p, t)) ==> FindIdle(b, pid, tid) == FindIdle(a, pid, tid)
  {
    ScanProcsAlike(a, b, pid, tid, p, t);
    ScanProcsAlike(a, b, 0, 0, p, t);
    hide ScanProcs;
  }

  /** If it finds the thread that is there, it would find any. */
  lemma FoundReads(procs: Procs, pid: nat, tid: nat, p: nat, t: nat, slot: Slot)
    requires p < |procs| && t < |procs[p].threads| && Runnable(slot)
    requires FindIdle(Put(procs, p, t, slot), pid, tid) == There(p, t)
    ensures Reads(procs, pid, tid, p, t)
  {
    hide FindIdle, Put, SameIdle;
    forall other | Runnable(other) ensures FindIdle(Put(procs, p, t, other), pid, tid) == There(p, t) {
      PutEither(procs, p, t, slot, other);
      FindAlike(Put(procs, p, t, slot), Put(procs, p, t, other), pid, tid, p, t);
    }
  }

  lemma PutEither(procs: Procs, p: nat, t: nat, a: Slot, b: Slot)
    requires p < |procs| && t < |procs[p].threads| && Runnable(a) && Runnable(b)
    ensures SameIdle(Put(procs, p, t, a), Put(procs, p, t, b), p, t) && Runnable(SlotAt(Put(procs, p, t, a), p, t))
  {
    PutOne(procs, p, t, a);
    PutOne(procs, p, t, b);
    hide Put, SlotAt, Runnable;
  }

  lemma PutSame(procs: Procs, p: nat, t: nat, slot: Slot)
    requires p < |procs| && t < |procs[p].threads| && Runnable(slot)
    ensures SameIdle(procs, Put(procs, p, t, slot), p, t)
  {
    PutOne(procs, p, t, slot);
  }

  lemma PutSwap(procs: Procs, p: nat, t: nat, a: Slot, q: nat, u: nat, b: Slot)
    requires !(p == q && t == u)
    ensures Put(Put(procs, p, t, a), q, u, b) == Put(Put(procs, q, u, b), p, t, a)
  {
    if p == q && p < |procs| && t < |procs[p].threads| && u < |procs[p].threads| {
      var ts := procs[p].threads;
      assert ts[t := a][u := b] == ts[u := b][t := a];
    }
  }

  /** `y` is `z` with the idle thread `slot` in slot `t` of process 0, which is not the running one. */
  ghost predicate Shadows(z: State, y: State, t: nat, slot: Slot) {
    && Sound(y) && y.started && Runnable(slot) && !(z.pid == 0 && z.tid == t)
    && 0 < |z.procs| && t < |z.procs[0].threads| && y == z.(procs := Put(z.procs, 0, t, slot))
  }

  lemma ShadowSave(z: State, y: State, t: nat, slot: Slot)
    requires Shadows(z, y, t, slot)
    ensures Save(y) == Put(Save(z), 0, t, slot) && 0 < |Save(z)| && t < |Save(z)[0].threads|
    ensures Sound(y.(ticks := y.ticks + 1)) && Alone(y) == Alone(z)
  {
    TicksKeep(y);
    CountStays(z.procs, t, slot);
    SavedShape(z, t);
    PutSwap(z.procs, 0, t, slot, z.pid, z.tid, Held(Thread(Saved(z.live), Idle)));
    hide Sound, Put, Saved;
  }

  lemma TickIs(s: State)
    requires s.started && Switching(s)
    ensures Tick(s) == Dispatch(s.(ticks := s.ticks + 1), Save(s), FindIdle(Save(s), s.pid, s.tid + 1))
  {
    hide Put, FindIdle;
  }

  /** What the tick of the second does, from the search of the first's table with the thread in it. */
  lemma ShadowTick(z: State, y: State, t: nat, slot: Slot)
    requires Shadows(z, y, t, slot) && Switching(z)
    ensures var procs := Put(Save(z), 0, t, slot);
            var at := FindIdle(procs, z.pid, z.tid + 1);
            && at.There? && SlotAt(procs, at.pid, at.tid).Held? && |SlotAt(procs, at.pid, at.tid).thread.ctx| == CONTEXT
            && Tick(y) == Dispatch(y.(ticks := y.ticks + 1), procs, at) && Tick(y).pid == at.pid
               && Tick(y).tid == at.tid
            && Tick(y).started && Sound(Tick(y))
            && Tick(z) == Dispatch(z.(ticks := z.ticks + 1), Save(z), FindIdle(Save(z), z.pid, z.tid + 1))
  {
    ShadowSave(z, y, t, slot);
    TickIs(y);
    TickIs(z);
    SavedAlike(y);
    ReschedStep(y.(ticks := y.ticks + 1));
    hide Save, Sound, Put, FindIdle, Tick, Resched, Dispatch, OneSlot, SlotAt;
  }

  /** As long as the slot is not read, the two go on alike. */
  lemma ShadowSwitch(z: State, y: State, t: nat, slot: Slot)
    requires Shadows(z, y, t, slot) && Switching(z)
    ensures if Tick(y).pid == 0 && Tick(y).tid == t then Reads(Save(z), z.pid, z.tid + 1, 0, t)
            else Shadows(Tick(z), Tick(y), t, slot)
  {
    hide Save, Sound, Put, FindIdle, Reads, Tick, Resched, Dispatch, OneSlot, SlotAt, Switching;
    var procs := Save(z);
    ShadowTick(z, y, t, slot);
    ShadowSave(z, y, t, slot);
    var at := FindIdle(Put(procs, 0, t, slot), z.pid, z.tid + 1);
    PutSame(procs, 0, t, slot);
    if at == There(0, t) {
      FoundReads(procs, z.pid, z.tid + 1, 0, t, slot);
    } else {
      FindAlike(procs, Put(procs, 0, t, slot), z.pid, z.tid + 1, 0, t);
      hide SameIdle, Runnable;
      DispatchAlike(z.(ticks := z.ticks + 1), y.(ticks := y.ticks + 1), procs, at.pid, at.tid, t, slot);
    }
  }

  lemma SavedAlike(s: State)
    ensures Save(s.(ticks := s.ticks + 1)) == Save(s)
    ensures s.started && Switching(s) ==> Tick(s) == Resched(s.(ticks := s.ticks + 1))
  {
    hide Put, FindIdle;
  }

  lemma SavedShape(z: State, t: nat)
    requires 0 < |z.procs| && t < |z.procs[0].threads|
    ensures 0 < |Save(z)| && t < |Save(z)[0].threads|
  {
  }

  lemma DispatchAlike(z: State, y: State, procs: Procs, p: nat, u: nat, t: nat, slot: Slot)
    requires y == z.(procs := y.procs) && !(p == 0 && u == t) && 0 < |procs| && t < |procs[0].threads|
    requires var s := SlotAt(Put(procs, 0, t, slot), p, u); s.Held? && |s.thread.ctx| == CONTEXT
    ensures var z', y' := Dispatch(z, procs, There(p, u)), Dispatch(y, Put(procs, 0, t, slot), There(p, u));
            y' == z'.(procs := Put(z'.procs, 0, t, slot)) && z'.pid == p && z'.tid == u
            && 0 < |z'.procs| && t < |z'.procs[0].threads|
  {
    var was := SlotAt(procs, p, u);
    PutOne(procs, 0, t, slot);
    PutSwap(procs, 0, t, slot, p, u, Held(was.thread.(status := Busy)));
  }

  lemma ShadowStep(z: State, y: State, e: Event, t: nat, slot: Slot)
    requires Shadows(z, y, t, slot) && (e.Timer? || (e.Compute? && WellFormed(e.r)))
    ensures if e.Timer? && Switching(z) && Step(y, e).pid == 0 && Step(y, e).tid == t
            then Reads(Save(z), z.pid, z.tid + 1, 0, t)
            else Shadows(Step(z, e), Step(y, e), t, slot)
    ensures e.Timer? ==> Switching(z) == Switching(y)
  {
    TickStep(y, e);
    CountStays(z.procs, t, slot);
    TimerStep(z);
    TimerStep(y);
    hide Sound, Put, Reads, Step, Save, SlotAt;
    if e.Timer? && Switching(z) {
      hide Shadows;
      ShadowSwitch(z, y, t, slot);
    } else {
      QuietStep(z, e);
      QuietStep(y, e);
    }
  }

  /** An event that reschedules nothing. */
  lemma QuietStep(s: State, e: Event)
    requires (e.Timer? && !Switching(s)) || e.Compute?
    ensures Step(s, e) == if e.Timer? then s.(ticks := s.ticks + 1) else s.(live := e.r)
  {
    hide Put, FindIdle, Save, Dispatch;
  }

  lemma CountStays(procs: Procs, t: nat, slot: Slot)
    requires |procs| > 0
    ensures Put(procs, 0, t, slot)[0].count == procs[0].count
  {
  }

  lemma {:induction false} ShadowRun(z: State, y: State, es: seq<Event>, t: nat, slot: Slot)
    requires Shadows(z, y, t, slot) && TicksOnly(es) && Dispatched(y, es, 0, t)
    ensures Followed(z, es, t)
    decreases |es|
  {
    hide Shadows, Step, Reads, Switching, Save, Dispatched, Followed;
    assert es != [] && (es[0].Timer? || (es[0].Compute? && WellFormed(es[0].r))) by { DispatchedSome(y, es, t); }
    var e, rest := es[0], es[1..];
    ShadowStep(z, y, e, t, slot);
    if e.Timer? && Switching(z) && Step(y, e).pid == 0 && Step(y, e).tid == t {
      FollowedNow(z, es, t);
    } else {
      NotYet(z, y, e, t, slot);
      DispatchedLater(y, es, t);
      ShadowRun(Step(z, e), Step(y, e), rest, t, slot);
      FollowedLater(z, es, t);
    }
  }

  lemma DispatchedSome(y: State, es: seq<Event>, t: nat)
    requires Dispatched(y, es, 0, t)
    ensures es != []
  {
  }

  lemma DispatchedLater(y: State, es: seq<Event>, t: nat)
    requires Dispatched(y, es, 0, t) && es != [] && !(Step(y, es[0]).pid == 0 && Step(y, es[0]).tid == t)
    ensures Dispatched(Step(y, es[0]), es[1..], 0, t)
  {
    hide Step;
  }

  lemma FollowedNow(z: State, es: seq<Event>, t: nat)
    requires es != [] && es[0].Timer? && Switching(z) && Reads(Save(z), z.pid, z.tid + 1, 0, t)
    ensures Followed(z, es, t)
  {
    hide Step, Reads, Switching, Save;
  }

  lemma FollowedLater(z: State, es: seq<Event>, t: nat)
    requires es != [] && Followed(Step(z, es[0]), es[1..], t)
    ensures Followed(z, es, t)
  {
    hide Step, Reads, Switching, Save;
  }

  lemma NotYet(z: State, y: State, e: Event, t: nat, slot: Slot)
    requires Shadows(Step(z, e), Step(y, e), t, slot)
    ensures !(Step(y, e).pid == 0 && Step(y, e).tid == t)
  {
    hide Step, Sound;
  }

  lemma ShadowOf(s: State, t: nat, slot: Slot)
    requires Inv(s) && s.build == Nobody && CanCreate(s) && t == Chosen(s) && slot == Held(Thread(Saved(s.live), Idle))
    ensures var y := s.(procs := Put(s.procs, 0, t, slot)); Inv(y) && Sound(y) && Live(SlotAt(y.procs, 0, t))
    ensures s.pid == 0 && (s.started ==> s.tid != t)
  {
    SavedWhole(s.live);
    SavedOk(s.live);
    PutOne(s.procs, 0, t, slot);
    hide Put, Saved, Segmented;
    SlotChange(s, Put(s.procs, 0, t, slot), t, slot, Nobody);
    if s.started {
      assert IsBusy(SlotAt(s.procs, s.pid, s.tid));
    }
  }

  /** After such a call the pointer to the freed thread is followed: within 36 ticks a scan of `find_idle` reads the
      slot, whatever the running threads do. */
  lemma DanglingFollowed(s: State, entry: nat, thread: nat, es: seq<Event>)
    requires Inv(s) && s.started && CanCreate(s) && thread != 0 && TicksOnly(es)
    requires SeveralThreads(s) && TimersIn(es) >= 36
    ensures Followed(Run(s, CallIn(entry, thread, 0)), es, Chosen(s))
  {
    var z, t := Run(s, CallIn(entry, thread, 0)), Chosen(s);
    var slot := Held(Thread(Saved(s.live), Idle));
    CallDanglesIff(s, entry, thread, 0);
    PutTwice(s.procs, 0, t, Dangling);
    var y := z.(procs := Put(z.procs, 0, t, slot));
    assert y == s.(procs := Put(s.procs, 0, t, slot));
    ShadowOf(s, t, slot);
    assert Shadows(z, y, t, slot) by { PutOne(s.procs, 0, t, Dangling); }
    CountStays(z.procs, t, slot);
    hide Run, CallIn, Inv, Sound, OnPath, Put;
    SwitchesOfTicks(y, es);
    ZeroOnPath(y, t);
    DistanceBound(y, 0, t);
    PathTurn(y, es, 0, t);
    ShadowRun(z, y, es, t, slot);
  }
}
