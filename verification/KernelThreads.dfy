/** Threads of the kernel's own process (kernel/src/sys/sched.c): what `create_thread`, `create_process` and the timer
    do to them in any order, from `sched_init` on. */
module KernelThreads {
  import opened Context
  import opened Scheduler

  /** The registers of a thread that can run: data and stack segments follow the code segment. */
  ghost predicate Segmented(r: Registers) {
    WellFormed(r) && r.ds == r.cs + 8 && r.ss == r.cs + 8
  }

  /** What may happen: the stacks of new threads are allocated. */
  ghost predicate Allowed(s: State, e: Event) {
    && (e.Compute? ==> Segmented(e.r))
    && (e.Next? && s.build.Building? && s.build.stage == 3 ==> e.given != 0)
  }

  ghost predicate AllAllowed(s: State, es: seq<Event>)
    decreases |es|
  {
    es != [] ==> Allowed(s, es[0]) && AllAllowed(Step(s, es[0]), es[1..])
  }

  // ----- The invariant -----

  /** What the thread under construction looks like before each statement. */
  function Template(b: Build): seq<nat>
    requires b.Building?
  {
    var c1 := if b.stage > 1 then Zeros()[CS := KCODE_SEGMENT] else Zeros();
    var c2 := if b.stage > 2 then c1[DS := KDATA_SEGMENT] else c1;
    var c3 := if b.stage > 4 then c2[RSP := b.stack + THREAD_STACK] else if b.stage > 3 then c2[RSP := b.stack] else c2;
    var c4 := if b.stage > 5 then c3[RFLAGS := 0x202] else c3;
    if b.stage > 6 then c4[RIP := b.entry] else c4
  }

  /** A thread or a process under construction is not visible to `find_idle`. */
  ghost predicate BuildOk(procs: Procs, b: Build) {
    match b
    case Nobody => true
    case Building(pid, tid, _, _, stage, _, _) =>
      && pid == 0 && tid < MAX_THREADS && stage <= 9
      && var slot := SlotAt(procs, 0, tid);
      && (stage == 0 ==> slot.Empty? || (slot.Held? && slot.thread.status == Unused))
      && (1 <= stage <= 7 ==> slot == Held(Thread(Template(b), Unused)))
    case Spawning(p, _, _, phase, _) =>
      && 0 < p < |procs| && phase <= 3
      && (phase <= 1 ==> !procs[p].valid) && (phase == 1 ==> |procs[p].threads| == MAX_THREADS)
  }

  /** Every idle thread of process 0 is ready to run. */
  ghost predicate ReadyZero(procs: Procs) {
    forall t :: Runnable(SlotAt(procs, 0, t)) ==> Segmented(Restore(SlotAt(procs, 0, t)))
  }

  function Restore(slot: Slot): Registers {
    if slot.Held? && |slot.thread.ctx| == CONTEXT then Restored(slot.thread.ctx) else Registers([], 0, 0, 0, 0, 0, 0)
  }

  /** Other processes have a thread in slot 0 only. */
  ghost predicate Parked(procs: Procs) {
    forall p, t :: p > 0 && t > 0 ==> !Live(SlotAt(procs, p, t))
  }

  ghost predicate Kernel(s: State) {
    && |s.procs| > 0 && s.procs[0].valid && s.pid == 0 && (!s.started ==> s.tid == 0) && Segmented(s.live)
    && ReadyZero(s.procs) && Parked(s.procs) && Live(SlotAt(s.procs, 0, 0)) && BuildOk(s.procs, s.build)
  }

  ghost predicate Inv(s: State) {
    Sound(s) && Kernel(s)
  }

  const MAX_PROCESSES: nat := 512

  /** After `sched_init`: process 0 has one thread, which is idle; nothing was dispatched yet. The timer has been
      counting for some time. */
  function Booted(entry: nat, stack: nat, live: Registers, ticks: nat): State {
    var flat := Zeros()[CS := KCODE_SEGMENT][DS := KDATA_SEGMENT];
    var first := Held(Thread(flat[RIP := entry][RSP := stack + THREAD_STACK][RFLAGS := 0x202], Idle));
    var table := [first] + seq(MAX_THREADS - 1, _ => Empty);
    var procs := seq(MAX_PROCESSES, p => if p == 0 then Process(true, table, 1) else Process(false, [], 0));
    State(procs, 0, 0, false, 1, ticks, live, Nobody)
  }

  lemma BootedInv(entry: nat, stack: nat, live: Registers, ticks: nat)
    requires Segmented(live)
    ensures Inv(Booted(entry, stack, live, ticks))
  {
    var s := Booted(entry, stack, live, ticks);
    assert s.procs[0].threads[0].Held?;
    assert Runnable(SlotAt(s.procs, 0, 0));
  }

  // ----- A tick -----

  lemma SavedOk(r: Registers)
    requires Segmented(r)
    ensures |Saved(r)| == CONTEXT && Restored(Saved(r)) == r
  {
    SavedRestored(r);
  }

  /** The search always ends in process 0: from a slot above 0 no other process has a thread, and the second pass
      starts with slot 0 of process 0. */
  lemma FindsZero(procs: Procs, j: nat)
    requires |procs| > 0 && procs[0].valid && Parked(procs) && Runnable(SlotAt(procs, 0, 0))
    ensures var at := FindIdle(procs, 0, j); at.There? && at.pid == 0
  {
    ScanFirst(procs, 0, 0, 0, 0);
    hide ScanProcs;
  }

  lemma ReschedShape(s: State)
    requires Sound(s)
    ensures var s' := Resched(s);
            |s'.procs| == |s.procs| && forall q :: 0 <= q < |s.procs| ==>
              s'.procs[q].valid == s.procs[q].valid && |s'.procs[q].threads| == |s.procs[q].threads|
  {
    SaveStep(s);
    if !Alone(s) {
      ReschedStep(s);
      hide Save, FindIdle, Sound;
    }
  }

  /** Rescheduling stays in process 0. */
  lemma StaysZero(s: State)
    requires Inv(s)
    ensures Resched(s).pid == 0
  {
    hide Save, FindIdle, AllWhole, Shaped;
    SaveStep(s);
    SaveSameLive(s);
    if !Alone(s) {
      ReschedStep(s);
      ParkedStays(s.procs, Save(s));
      hide Sound;
      FindsZero(Save(s), if s.started then s.tid + 1 else s.tid);
    }
  }

  lemma ParkedStays(procs: Procs, procs': Procs)
    requires Parked(procs) && SameLive(procs, procs')
    ensures Parked(procs')
  {
    hide Live, SlotAt;
  }

  /** Idle threads of process 0 stay ready, and what runs is ready. */
  lemma ReadyStays(s: State)
    requires Inv(s) && s.started
    ensures ReadyZero(Resched(s).procs) && Segmented(Resched(s).live)
  {
    SavedOk(s.live);
    StaysZero(s);
    ReschedView(s);
    var s' := Resched(s);
    RunningBusy(s);
    hide Resched, Sound, SlotAt, Restored, Saved, Segmented;
    forall t | Runnable(SlotAt(s'.procs, 0, t)) ensures Segmented(Restore(SlotAt(s'.procs, 0, t))) {
      if t == s.tid && s'.tid != s.tid {
        assert SlotAt(s'.procs, 0, t) == Held(Thread(Saved(s.live), Idle));
      }
    }
  }

  /** The running thread after rescheduling is busy, so it is not idle. */
  lemma RunningBusy(s: State)
    requires Sound(s) && s.started
    ensures !Runnable(SlotAt(Resched(s).procs, Resched(s).pid, Resched(s).tid))
  {
    var s' := Resched(s);
    if !Alone(s) {
      ReschedStep(s);
      hide Resched, Save, FindIdle;
    }
    assert IsBusy(SlotAt(s'.procs, s'.pid, s'.tid));
  }

  /** The first dispatch. */
  lemma ReadyFirst(s: State)
    requires Inv(s) && !s.started
    ensures ReadyZero(Resched(s).procs) && Segmented(Resched(s).live)
  {
    hide AllWhole, Shaped, FindIdle;
    StaysZero(s);
    ReschedStep(s);
    var s' := Resched(s);
    hide Resched, Sound, SlotAt, Restored, Segmented;
    forall t | Runnable(SlotAt(s'.procs, 0, t)) ensures Segmented(Restore(SlotAt(s'.procs, 0, t))) {
      assert t != s'.tid;
    }
  }

  lemma BuildStays(s: State)
    requires Inv(s)
    ensures BuildOk(Resched(s).procs, s.build)
  {
    hide Template, AllWhole, Shaped, FindIdle;
    ReschedShape(s);
    SaveStep(s);
    if s.started {
      assert IsBusy(SlotAt(s.procs, s.pid, s.tid));
    }
    if !Alone(s) {
      ReschedStep(s);
      hide Resched, Sound, Save, SlotAt;
    }
  }

  lemma ReschedKeeps(s: State)
    requires Inv(s)
    ensures Inv(Resched(s)) && Resched(s).started
  {
    if s.started {
      ReadyStays(s);
    } else {
      ReadyFirst(s);
    }
    StaysZero(s);
    BuildStays(s);
    ReschedShape(s);
    ReschedSameLive(s);
    ParkedStays(s.procs, Resched(s).procs);
    if !Alone(s) {
      ReschedStep(s);
    }
    hide Resched, Sound, SlotAt, Live, Segmented, ReadyZero, Parked, BuildOk;
  }

  lemma TickKeeps(s: State)
    requires Inv(s)
    ensures Inv(Tick(s)) && ((s.ticks + 1) % 10 != 0 ==> Tick(s).started)
  {
    TicksKeepInv(s);
    hide Inv, Resched;
    var s1 := s.(ticks := s.ticks + 1);
    if s1.ticks % 10 != 0 {
      ReschedKeeps(s1);
    }
  }

  lemma TicksKeepInv(s: State)
    requires Inv(s)
    ensures Inv(s.(ticks := s.ticks + 1))
  {
    hide SlotAt, BuildOk, Segmented;
  }

  // ----- A statement of create_thread -----

  /** A slot of process 0 that is neither busy nor idle changes. */
  lemma SlotChange(s: State, procs: Procs, t: nat, slot: Slot, build: Build)
    requires Inv(s) && OneSlot(s.procs, procs, 0, t, slot) && Whole(slot) && !IsBusy(slot) && BuildOk(procs, build)
    requires !Live(SlotAt(s.procs, 0, t)) && (Runnable(slot) ==> Segmented(Restore(slot)))
    ensures Inv(s.(procs := procs, build := build))
  {
    OneSlotShape(s.procs, procs, 0, t, slot);
    hide Whole, BuildOk, Shaped, AllWhole, Segmented, SlotAt;
    if s.started {
      forall q, u ensures IsBusy(SlotAt(procs, q, u)) <==> q == s.pid && u == s.tid {
        assert IsBusy(SlotAt(s.procs, q, u)) <==> q == s.pid && u == s.tid;
      }
    } else {
      forall q, u ensures !IsBusy(SlotAt(procs, q, u)) {
        assert !IsBusy(SlotAt(s.procs, q, u));
      }
      assert Runnable(SlotAt(procs, 0, 0));
    }
  }

  /** The word that statement `b.stage` sets, and to what. */
  function WordOf(b: Build): (nat, nat)
    requires b.Building?
  {
    if b.stage == 1 then (CS, KCODE_SEGMENT)
    else if b.stage == 2 then (DS, KDATA_SEGMENT)
    else if b.stage == 3 then (RSP, b.stack)
    else if b.stage == 4 then (RSP, b.stack + THREAD_STACK)
    else if b.stage == 5 then (RFLAGS, 0x202)
    else (RIP, b.entry)
  }

  lemma TemplateStep(b: Build)
    requires b.Building? && 1 <= b.stage <= 6
    ensures |Template(b)| == CONTEXT && WordOf(b).0 < CONTEXT
    ensures Template(b.(stage := b.stage + 1)) == Template(b)[WordOf(b).0 := WordOf(b).1]
  {
    var z := Zeros();
    if b.stage == 4 {
      var c := z[CS := KCODE_SEGMENT][DS := KDATA_SEGMENT];
      assert c[RSP := b.stack][RSP := b.stack + THREAD_STACK] == c[RSP := b.stack + THREAD_STACK];
    }
  }

  lemma TemplateStack(b: Build, stack: nat)
    requires b.Building? && b.stage <= 3
    ensures Template(b.(stack := stack)) == Template(b)
  {
  }

  lemma SetWordKeeps(s: State, b: Build)
    requires Inv(s) && b.Building? && BuildOk(s.procs, b) && 1 <= b.stage <= 6
    ensures Inv(SetWord(s, b, WordOf(b).0, WordOf(b).1))
  {
    TemplateStep(b);
    var next := b.(stage := b.stage + 1);
    var slot := Held(Thread(Template(next), Unused));
    hide Template, WordOf;
    var procs := Put(s.procs, 0, b.tid, slot);
    HeldExists(s.procs, 0, b.tid);
    PutOne(s.procs, 0, b.tid, slot);
    assert BuildOk(procs, next);
    hide Put, Inv, BuildOk, OneSlot;
    SlotChange(s, procs, b.tid, slot, next);
  }

  lemma AllocKeeps(s: State, given: nat)
    requires Inv(s) && s.build.Building? && s.build.stage == 0
    ensures Inv(Advance(s, s.build, given))
  {
    var b := s.build;
    var slot := if given == 0 then Empty else Held(Thread(Zeros(), Unused));
    var next := if given == 0 then Nobody else b.(stage := 1);
    var procs := Put(s.procs, 0, b.tid, slot);
    PutOne(s.procs, 0, b.tid, slot);
    assert BuildOk(procs, next);
    hide Put, Inv, BuildOk, OneSlot;
    SlotChange(s, procs, b.tid, slot, next);
  }

  /** The registers a new thread starts with. */
  function Fresh(entry: nat, stack: nat): Registers {
    Registers(seq(GP, _ => 0), entry, stack + THREAD_STACK, 0x202, KCODE_SEGMENT, KDATA_SEGMENT, KDATA_SEGMENT)
  }

  lemma FreshTemplate(b: Build)
    requires b.Building? && b.stage == 7
    ensures |Template(b)| == CONTEXT && Restored(Template(b)) == Fresh(b.entry, b.stack)
  {
    assert Template(b)[..GP] == seq(GP, _ => 0);
  }

  lemma FinishKeeps(s: State, given: nat)
    requires Inv(s) && s.build.Building? && s.build.stage == 7
    ensures Inv(Advance(s, s.build, given))
    ensures SlotAt(Advance(s, s.build, given).procs, 0, s.build.tid) == Held(Thread(Template(s.build), Idle))
  {
    var b := s.build;
    FreshTemplate(b);
    hide Template;
    var slot := Held(Thread(Template(b), Idle));
    var next := b.(stage := 8);
    var procs := Put(s.procs, 0, b.tid, slot);
    HeldExists(s.procs, 0, b.tid);
    PutOne(s.procs, 0, b.tid, slot);
    assert BuildOk(procs, next);
    hide Put, Inv, BuildOk, OneSlot;
    SlotChange(s, procs, b.tid, slot, next);
  }

  /** Nothing but counts, validity and the build changes. */
  lemma SameSlotsKeep(s: State, procs: Procs, build: Build, running: nat)
    requires Inv(s) && |procs| == |s.procs| && (forall p, t :: SlotAt(procs, p, t) == SlotAt(s.procs, p, t))
    requires (forall p :: 0 <= p < |procs| ==>
                |procs[p].threads| == |s.procs[p].threads|
                && (s.procs[p].valid ==> procs[p].valid))
    requires Shaped(procs) && BuildOk(procs, build)
    ensures Inv(s.(procs := procs, build := build, running := running))
  {
    hide SlotAt, Whole, BuildOk, Segmented;
    if !s.started {
      assert Runnable(SlotAt(s.procs, 0, 0));
      assert Runnable(SlotAt(procs, 0, 0));
    }
  }

  lemma CountKeeps(s: State, given: nat)
    requires Inv(s) && s.build.Building? && s.build.stage >= 8
    ensures Inv(Advance(s, s.build, given))
    ensures forall p, t :: SlotAt(Advance(s, s.build, given).procs, p, t) == SlotAt(s.procs, p, t)
  {
    hide Template;
    var s' := Advance(s, s.build, given);
    assert forall p, t :: SlotAt(s'.procs, p, t) == SlotAt(s.procs, p, t);
    assert BuildOk(s'.procs, s'.build);
    hide SlotAt, BuildOk;
    SameSlotsKeep(s, s'.procs, s'.build, s.running);
  }

  lemma AdvanceKeeps(s: State, given: nat)
    requires Inv(s) && s.build.Building? && (s.build.stage == 3 ==> given != 0)
    ensures Inv(Advance(s, s.build, given))
  {
    var b := s.build;
    assert b.pid == 0 && BuildOk(s.procs, b);
    if b.stage == 0 {
      AllocKeeps(s, given);
    } else if b.stage == 7 {
      FinishKeeps(s, given);
    } else if b.stage >= 8 {
      CountKeeps(s, given);
    } else if b.stage == 3 {
      TemplateStack(b, given);
      hide Inv, Template;
      SetWordKeeps(s, b.(stack := given));
    } else {
      hide Inv, Template;
      SetWordKeeps(s, b);
    }
  }

  lemma CreateKeeps(s: State, entry: nat)
    requires Inv(s)
    ensures Inv(Step(s, Create(entry)))
  {
    hide AllWhole, OneBusy, NoneBusy, SomeIdle, Template, ReadyZero, Parked, Segmented;
    assert |s.procs[0].threads| == MAX_THREADS;
  }

  // ----- A statement of create_process -----

  lemma SpawnKeeps(s: State, entry: nat)
    requires Inv(s)
    ensures Inv(Step(s, Spawn(entry)))
  {
    hide Sound, Template, ReadyZero, Parked, Segmented;
    SoundBuild(s, Step(s, Spawn(entry)).build);
  }

  lemma SoundBuild(s: State, build: Build)
    requires Sound(s)
    ensures Sound(s.(build := build))
  {
  }

  /** The table of a process that is not valid yet. */
  lemma TableKeeps(s: State, p: nat, threads: seq<Slot>, build: Build)
    requires Inv(s) && 0 < p < |s.procs| && !s.procs[p].valid
             && BuildOk(s.procs[p := Process(false, threads, 1)], build)
    requires forall t :: 0 <= t < |threads| ==>
               Whole(threads[t]) && !IsBusy(threads[t])
               && (t > 0 ==> threads[t].Empty?)
    ensures Inv(s.(procs := s.procs[p := Process(false, threads, 1)], build := build))
  {
    var procs := s.procs[p := Process(false, threads, 1)];
    assert forall q, u :: q != p ==> SlotAt(procs, q, u) == SlotAt(s.procs, q, u);
    assert forall u :: SlotAt(procs, p, u) == if 0 <= u < |threads| then threads[u] else Empty;
    assert forall q, u :: Whole(SlotAt(procs, q, u));
    hide SlotAt, BuildOk, Segmented, Whole;
    if !s.started {
      assert Runnable(SlotAt(s.procs, 0, 0));
      assert Runnable(SlotAt(procs, 0, 0));
    }
  }

  lemma LaunchKeeps(s: State, given: nat)
    requires Inv(s) && s.build.Spawning?
    ensures Inv(Launch(s, s.build, given))
  {
    var b := s.build;
    assert 0 < b.proc < |s.procs|;
    if b.phase == 0 && given != 0 {
      TableKeeps(s, b.proc, OneThread(b.start), b.(phase := 1));
    } else {
      var s' := Launch(s, b, given);
      assert forall p, t :: SlotAt(s'.procs, p, t) == SlotAt(s.procs, p, t);
      assert Shaped(s'.procs) && BuildOk(s'.procs, s'.build);
      hide SlotAt, BuildOk, Shaped;
      SameSlotsKeep(s, s'.procs, s'.build, s'.running);
    }
  }

  lemma StepKeeps(s: State, e: Event)
    requires Inv(s) && Allowed(s, e)
    ensures Inv(Step(s, e))
  {
    hide Sound, SlotAt, BuildOk, Launch, Advance, Tick;
    match e
    case Timer => TickKeeps(s);
    case Compute(r) => ComputeKeeps(s, r);
    case Create(entry) => CreateKeeps(s, entry);
    case Spawn(entry) => SpawnKeeps(s, entry);
    case Next(given) =>
      if s.build.Building? && s.build.ownerPid == s.pid && s.build.ownerTid == s.tid {
        AdvanceKeeps(s, given);
      } else if s.build.Spawning? && s.build.byPid == s.pid && s.build.byTid == s.tid {
        LaunchKeeps(s, given);
      }
  }

  lemma ComputeKeeps(s: State, r: Registers)
    requires Inv(s) && Segmented(r)
    ensures Inv(s.(live := r))
  {
    hide SlotAt, BuildOk;
  }

  lemma {:induction false} RunKeeps(s: State, es: seq<Event>)
    requires Inv(s) && AllAllowed(s, es)
    ensures Inv(Run(s, es)) && (s.started ==> Run(s, es).started)
    decreases |es|
  {
    hide Inv, Step, Allowed;
    if es != [] {
      StepKeeps(s, es[0]);
      StaysStarted(s, es[0]);
      RunKeeps(Step(s, es[0]), es[1..]);
    }
  }

  lemma StaysStarted(s: State, e: Event)
    ensures s.started ==> Step(s, e).started
  {
    hide FindIdle, Save, Put, SlotAt, FindThread, OneThread, FindProcess;
  }

  // ----- Theorems -----

  /** Scheduler safety: from the first dispatch on, after any events, exactly one thread is busy: the one at
      (`pid`, `tid`). */
  lemma ExactlyOneBusy(s: State, es: seq<Event>)
    requires Inv(s) && AllAllowed(s, es) && Run(s, es).started
    ensures OneBusy(Run(s, es).procs, Run(s, es).pid, Run(s, es).tid)
  {
    hide Run, AllAllowed;
    RunKeeps(s, es);
  }

  /** No process but the first ever runs: from `sched_init` on, whatever threads and processes are created. */
  lemma OnlyProcessZeroRuns(entry: nat, stack: nat, live: Registers, ticks: nat, es: seq<Event>)
    requires Segmented(live) && AllAllowed(Booted(entry, stack, live, ticks), es)
    ensures Run(Booted(entry, stack, live, ticks), es).pid == 0
  {
    hide Run, AllAllowed, Booted;
    BootedInv(entry, stack, live, ticks);
    RunKeeps(Booted(entry, stack, live, ticks), es);
  }

  lemma InvSegmented(s: State)
    requires Inv(s)
    ensures Segmented(s.live) && Sound(s) && s.pid == 0
  {
  }

  /** The thread that a tick interrupts goes on with the registers it had if no other thread is dispatched, and
      any other thread with the registers that its slot has. */
  lemma TickResumes(s: State)
    requires Inv(s) && s.started
    ensures var s' := Tick(s);
            if s'.pid == s.pid && s'.tid == s.tid then s'.live == s.live
            else Runnable(SlotAt(s.procs, s'.pid, s'.tid)) && s'.live == Restore(SlotAt(s.procs, s'.pid, s'.tid))
  {
    hide Inv, Resched, SlotAt, Alone, Sound, Segmented, Saved, Restored;
    InvSegmented(s);
    SavedOk(s.live);
    TicksKeep(s);
    var s1 := s.(ticks := s.ticks + 1);
    if s1.ticks % 10 != 0 {
      ReschedView(s1);
    }
  }

  /** An idle thread of a valid process keeps its slot until it is dispatched, and then it has the registers of the
      slot. */
  lemma SlotStays(s: State, e: Event, p: nat, t: nat)
    requires Inv(s) && s.started && Allowed(s, e) && p < |s.procs| && s.procs[p].valid
             && Runnable(SlotAt(s.procs, p, t))
    ensures var s' := Step(s, e);
            && p < |s'.procs| && s'.procs[p].valid
            && if s'.pid == p && s'.tid == t then e.Timer? && s'.live == Restore(SlotAt(s.procs, p, t))
               else SlotAt(s'.procs, p, t) == SlotAt(s.procs, p, t)
  {
    NotBusyNow(s, p, t);
    hide Launch, Advance, Tick, SlotAt;
    match e
    case Timer => SlotStaysTick(s, p, t);
    case Compute(r) =>
    case Create(entry) =>
    case Spawn(entry) =>
    case Next(given) =>
      if s.build.Building? && s.build.ownerPid == s.pid && s.build.ownerTid == s.tid {
        SlotStaysBuild(s, given, p, t);
      } else if s.build.Spawning? && s.build.byPid == s.pid && s.build.byTid == s.tid {
        SlotStaysLaunch(s, given, p, t);
      }
  }

  lemma SlotStaysTick(s: State, p: nat, t: nat)
    requires Inv(s) && s.started && Runnable(SlotAt(s.procs, p, t)) && !(p == s.pid && t == s.tid) && p < |s.procs|
             && s.procs[p].valid
    ensures var s' := Tick(s);
            && p < |s'.procs| && s'.procs[p].valid
            && if s'.pid == p && s'.tid == t then s'.live == Restore(SlotAt(s.procs, p, t))
               else SlotAt(s'.procs, p, t) == SlotAt(s.procs, p, t)
  {
    hide Inv, Resched, SlotAt, Alone, Sound, Segmented, Saved, Restored;
    InvSegmented(s);
    TicksKeep(s);
    var s1 := s.(ticks := s.ticks + 1);
    if s1.ticks % 10 != 0 {
      ReschedView(s1);
      ReschedShape(s1);
    }
  }

  lemma SlotStaysBuild(s: State, given: nat, p: nat, t: nat)
    requires Inv(s) && s.build.Building? && Runnable(SlotAt(s.procs, p, t)) && p < |s.procs| && s.procs[p].valid
    ensures var s' := Advance(s, s.build, given);
            SlotAt(s'.procs, p, t) == SlotAt(s.procs, p, t) && s'.pid == s.pid && s'.tid == s.tid && p < |s'.procs|
                && s'.procs[p].valid
  {
    hide Template, Zeros, Inv, SlotAt, Put;
    var b := s.build;
    BuildingApart(s, p, t);
    if b.stage <= 7 {
      PutElsewhere(s.procs, 0, b.tid, p, t);
    } else {
      CountKeeps(s, given);
    }
  }

  lemma BuildingApart(s: State, p: nat, t: nat)
    requires Inv(s) && s.build.Building? && Runnable(SlotAt(s.procs, p, t))
    ensures s.build.pid == 0 && (s.build.stage <= 7 ==> !(p == 0 && t == s.build.tid))
  {
    hide Template, Sound;
  }

  lemma PutElsewhere(procs: Procs, p: nat, t: nat, q: nat, u: nat)
    requires !(p == q && t == u)
    ensures forall slot :: SlotAt(Put(procs, p, t, slot), q, u) == SlotAt(procs, q, u)
    ensures forall slot ::
              |Put(procs, p, t, slot)| == |procs|
              && (q < |procs| ==> Put(procs, p, t, slot)[q].valid == procs[q].valid)
  {
  }

  lemma SlotStaysLaunch(s: State, given: nat, p: nat, t: nat)
    requires Inv(s) && s.build.Spawning? && p < |s.procs| && s.procs[p].valid
    ensures var s' := Launch(s, s.build, given);
            SlotAt(s'.procs, p, t) == SlotAt(s.procs, p, t) && s'.pid == s.pid && s'.tid == s.tid && p < |s'.procs|
                && s'.procs[p].valid
  {
    hide OneThread;
    assert s.build.phase == 0 ==> s.build.proc != p;
  }

  /** In none of the states of a run, from the first on, is `(p, t)` the running thread. */
  ghost predicate NeverRuns(s: State, es: seq<Event>, p: nat, t: nat)
    decreases |es|
  {
    !(s.pid == p && s.tid == t) && (es != [] ==> NeverRuns(Step(s, es[0]), es[1..], p, t))
  }

  lemma {:induction false} SlotStaysRun(s: State, es: seq<Event>, p: nat, t: nat)
    requires Inv(s) && s.started && AllAllowed(s, es) && NeverRuns(s, es, p, t)
    requires p < |s.procs| && s.procs[p].valid && Runnable(SlotAt(s.procs, p, t))
    ensures var z := Run(s, es); SlotAt(z.procs, p, t) == SlotAt(s.procs, p, t) && p < |z.procs| && z.procs[p].valid
    decreases |es|
  {
    hide Inv, Step, Allowed, SlotAt, Runnable;
    if es != [] {
      StepKeeps(s, es[0]);
      StaysStarted(s, es[0]);
      SlotStays(s, es[0], p, t);
      SlotStaysRun(Step(s, es[0]), es[1..], p, t);
    }
  }

  /** The thread of a process other than 0 waits for ever, unchanged. */
  lemma SpawnedWaits(s: State, es: seq<Event>, p: nat)
    requires Inv(s) && s.started && AllAllowed(s, es) && 0 < p < |s.procs| && s.procs[p].valid
             && Runnable(SlotAt(s.procs, p, 0))
    ensures NeverRuns(s, es, p, 0) && SlotAt(Run(s, es).procs, p, 0) == SlotAt(s.procs, p, 0)
  {
    ElsewhereNever(s, es, p, 0);
    hide Inv, SlotAt, Runnable, Step;
    SlotStaysRun(s, es, p, 0);
  }

  lemma {:induction false} ElsewhereNever(s: State, es: seq<Event>, p: nat, t: nat)
    requires Inv(s) && AllAllowed(s, es) && p > 0
    ensures NeverRuns(s, es, p, t)
    decreases |es|
  {
    InvSegmented(s);
    hide Inv, Step, Allowed;
    if es != [] {
      StepKeeps(s, es[0]);
      ElsewhereNever(Step(s, es[0]), es[1..], p, t);
    }
  }

  /** `create_process` ends with a valid process whose thread is idle and has null segments. */
  lemma SpawnParks(s: State, entry: nat, given: nat)
    requires Inv(s) && s.build == Nobody && FindProcess(s.procs, 0) < |s.procs| && given != 0
    ensures var p := FindProcess(s.procs, 0);
            var es := [Spawn(entry), Next(given), Next(given), Next(given), Next(given)];
            var z := Run(s, es);
            && p > 0 && p < |z.procs| && z.procs[p].valid && z.running == s.running + 1 && z.build == Nobody
            && SlotAt(z.procs, p, 0) == Held(FirstThread(entry)) && Runnable(SlotAt(z.procs, p, 0))
            && Restore(SlotAt(z.procs, p, 0)) == Registers(seq(15, _ => 0), entry, 0, 0x202, 0, 0, 0)
            && !Segmented(Restore(SlotAt(z.procs, p, 0)))
  {
    hide Inv, OneThread;
    ZeroValid(s);
    var p := FindProcess(s.procs, 0);
    var s0 := s.(build := Spawning(p, s.pid, s.tid, 0, entry));
    assert Step(s, Spawn(entry)) == s0;
    SpawnPhases(s0, p, entry, given);
    RunFive(s, Spawn(entry), Next(given));
    var z := Step(Step(Step(Step(s0, Next(given)), Next(given)), Next(given)), Next(given));
    OneThreadSlot(z.procs, p, entry);
  }

  lemma SpawnPhases(s: State, p: nat, entry: nat, given: nat)
    requires p < |s.procs| && s.build == Spawning(p, s.pid, s.tid, 0, entry) && given != 0
    ensures Step(Step(Step(Step(s, Next(given)), Next(given)), Next(given)), Next(given)) ==
            s.(procs := s.procs[p := Process(true, OneThread(entry), 1)], running := s.running + 1, build := Nobody)
  {
    hide OneThread;
    var s1 := Step(s, Next(given));
    assert s1 == s.(procs := s.procs[p := Process(false, OneThread(entry), 1)], build := s.build.(phase := 1));
    var s2 := Step(s1, Next(given));
    assert s2.procs == s.procs[p := Process(true, OneThread(entry), 1)];
  }

  lemma OneThreadSlot(procs: Procs, p: nat, entry: nat)
    requires p < |procs| && procs[p].threads == OneThread(entry)
    ensures SlotAt(procs, p, 0) == Held(FirstThread(entry)) && Runnable(SlotAt(procs, p, 0))
    ensures !Segmented(Restore(SlotAt(procs, p, 0)))
  {
  }

  lemma RunFive(s: State, a: Event, n: Event)
    ensures Run(s, [a, n, n, n, n]) == Step(Step(Step(Step(Step(s, a), n), n), n), n)
  {
    hide Step;
    var es := [a, n, n, n, n];
    assert es[1..] == [n, n, n, n] && es[1..][1..] == [n, n, n] && es[1..][1..][1..] == [n, n]
        && es[1..][1..][1..][1..] == [n];
    assert Run(Step(s, a), [n, n, n, n]) == Run(Step(Step(s, a), n), [n, n, n]);
    var s2 := Step(Step(s, a), n);
    assert Run(s2, [n, n, n]) == Run(Step(s2, n), [n, n]) by { assert [n, n, n][1..] == [n, n]; }
    assert Run(Step(s2, n), [n, n]) == Run(Step(Step(s2, n), n), [n]) by { assert [n, n][1..] == [n]; }
    assert Run(Step(Step(s2, n), n), [n]) == Step(Step(Step(s2, n), n), n) by { assert [n][1..] == []; }
  }

  /** Context isolation: a thread that is interrupted and not running during any later events resumes, when it is
      dispatched again, with exactly the registers it had. */
  lemma ContextIsolation(s: State, es: seq<Event>)
    requires Inv(s) && s.started && AllAllowed(Tick(s), es) && NeverRuns(Tick(s), es, s.pid, s.tid)
    ensures var z := Tick(Run(Tick(s), es)); z.pid == s.pid && z.tid == s.tid ==> z.live == s.live
  {
    var s1 := Tick(s);
    assert !(s1.pid == s.pid && s1.tid == s.tid);
    TickKeeps(s);
    InvSegmented(s);
    InvSegmented(s1);
    InterruptedSaved(s);
    hide Tick, Inv, Run, Sound;
    SavedOk(s.live);
    var z := Run(s1, es);
    RunKeeps(s1, es);
    SlotStaysRun(s1, es, s.pid, s.tid);
    NeverAtEnd(s1, es, s.pid, s.tid);
    SlotStaysLast(z, s.pid, s.tid);
  }

  lemma {:induction false} NeverAtEnd(s: State, es: seq<Event>, p: nat, t: nat)
    requires NeverRuns(s, es, p, t)
    ensures !(Run(s, es).pid == p && Run(s, es).tid == t)
    decreases |es|
  {
    hide Step;
    if es != [] {
      NeverAtEnd(Step(s, es[0]), es[1..], p, t);
    }
  }

  lemma SlotStaysLast(z: State, p: nat, t: nat)
    requires Inv(z) && z.started && p < |z.procs| && z.procs[p].valid && Runnable(SlotAt(z.procs, p, t))
    ensures Tick(z).pid == p && Tick(z).tid == t ==> Tick(z).live == Restore(SlotAt(z.procs, p, t))
  {
    hide Tick, Inv, SlotAt;
    SlotStays(z, Timer, p, t);
  }

  /** A thread that loses the processor is idle, with its registers in its slot. */
  lemma InterruptedSaved(s: State)
    requires Inv(s) && s.started
    ensures var s' := Tick(s);
            && s'.started && |s'.procs| > 0 && s'.procs[0].valid
            && (!(s'.pid == s.pid && s'.tid == s.tid) ==>
                SlotAt(s'.procs, s.pid, s.tid) == Held(Thread(Saved(s.live), Idle)))
  {
    hide Inv, Resched, SlotAt, Runnable, Alone, Segmented, Sound;
    ZeroValid(s);
    InvSegmented(s);
    TicksKeep(s);
    var s1 := s.(ticks := s.ticks + 1);
    if s1.ticks % 10 != 0 {
      ReschedView(s1);
      ReschedShape(s1);
    }
  }

  lemma ZeroValid(s: State)
    requires Inv(s)
    ensures |s.procs| > 0 && s.procs[0].valid
  {
  }

  /** A new thread, when it is dispatched for the first time after the statement that makes it idle, has the
      registers that `create_thread` gave it. */
  lemma NewThreadStarts(s: State, given: nat, es: seq<Event>)
    requires Inv(s) && s.started && s.build.Building? && s.build.stage == 7
    requires AllAllowed(Advance(s, s.build, given), es) && NeverRuns(Advance(s, s.build, given), es, 0, s.build.tid)
    ensures var z := Tick(Run(Advance(s, s.build, given), es));
            z.pid == 0 && z.tid == s.build.tid ==>
              z.live == Registers(seq(15, _ => 0), s.build.entry, s.build.stack + 131072, 0x202, 0x08, 0x10, 0x10)
  {
    FreshTemplate(s.build);
    FinishKeeps(s, given);
    assert seq(GP, _ => 0) == seq(15, _ => 0);
    var s1 := Advance(s, s.build, given);
    assert s1.started;
    ZeroValid(s1);
    hide Tick, Inv, Run, Template, Advance;
    RunKeeps(s1, es);
    SlotStaysRun(s1, es, 0, s.build.tid);
    SlotStaysLast(Run(s1, es), 0, s.build.tid);
  }

  /** A tick between two statements of `create_thread` never dispatches the thread under construction. */
  lemma NotWhileBuilding(s: State)
    requires Inv(s) && s.started && s.build.Building? && s.build.stage <= 7
    ensures var s' := Tick(s); !(s'.pid == 0 && s'.tid == s.build.tid)
  {
    hide Template;
    assert !IsBusy(SlotAt(s.procs, 0, s.build.tid)) && !Runnable(SlotAt(s.procs, 0, s.build.tid));
    TickResumes(s);
  }

  // ----- Fairness -----

  lemma ZeroOnPath(s: State, t: nat)
    requires Inv(s) && s.started && Live(SlotAt(s.procs, 0, t))
    ensures OnPath(s.procs, 0, t) && OnPath(s.procs, s.pid, s.tid)
  {
    assert IsBusy(SlotAt(s.procs, s.pid, s.tid));
  }

  /** An idle thread of process 0 is dispatched before as many rescheduling ticks have passed as it is slots away,
      whatever else happens in between. */
  lemma {:induction false} DispatchedInTurn(s: State, es: seq<Event>, t: nat)
    requires Inv(s) && s.started && AllAllowed(s, es) && Runnable(SlotAt(s.procs, 0, t))
             && Switches(s, es) >= Distance(s.tid, t)
    ensures Dispatched(s, es, 0, t)
    decreases |es|
  {
    ZeroOnPath(s, t);
    ZeroValid(s);
    InvSegmented(s);
    SlotBounds(s.procs, s.pid, s.tid);
    NotBusyNow(s, 0, t);
    hide Inv, SlotAt, Runnable, Step, Allowed, Switching, Sound, OnPath;
    if es != [] {
      var s' := Step(s, es[0]);
      StepKeeps(s, es[0]);
      StaysStarted(s, es[0]);
      SlotStays(s, es[0], 0, t);
      SameTurn(s, es[0]);
      if es[0].Timer? && Switching(s) {
        TimerStep(s);
        SwitchCloser(s, 0, t);
      }
      if !(s'.pid == 0 && s'.tid == t) {
        DispatchedInTurn(s', es[1..], t);
      }
    }
  }

  /** Fairness: every idle thread of process 0 runs within MAX_THREADS rescheduling ticks, even if threads and
      processes are created meanwhile. */
  lemma Fairness(s: State, es: seq<Event>, t: nat)
    requires Inv(s) && s.started && AllAllowed(s, es) && Runnable(SlotAt(s.procs, 0, t))
             && Switches(s, es) >= MAX_THREADS
    ensures Dispatched(s, es, 0, t)
  {
    ZeroOnPath(s, t);
    InvSegmented(s);
    hide Inv, OnPath, SlotAt, Runnable, Switches, Dispatched, AllAllowed;
    DistanceBound(s, 0, t);
    DispatchedInTurn(s, es, t);
  }

  // ----- Where it falls short -----

  /** The slot that `create_thread` takes: `find_thread` looks at process 0, whatever process runs. */
  function Chosen(s: State): nat
    requires |s.procs| > 0
  {
    FindThread(s.procs[0].threads, 0)
  }

  ghost predicate CanCreate(s: State) {
    && s.build == Nobody && |s.procs| > 0 && s.pid < |s.procs|
    && Chosen(s) < |s.procs[0].threads| && Chosen(s) < |s.procs[s.pid].threads|
  }

  predicate InUse(slot: Slot) {
    slot.Held? && slot.thread.status != Unused
  }

  /** A call, whether it gets its thread or not, destroys a thread if and only if the slot with that number in the
      caller's process is in use; in process 0 it never is. */
  lemma CreateDestroysIff(s: State, entry: nat, given: nat)
    requires CanCreate(s)
    ensures var z := Step(Step(s, Create(entry)), Next(given));
            && SlotAt(z.procs, s.pid, Chosen(s)) == (if given == 0 then Empty else Held(Thread(Zeros(), Unused)))
            && ((exists p, t :: InUse(SlotAt(s.procs, p, t)) && SlotAt(z.procs, p, t) != SlotAt(s.procs, p, t)) <==>
                InUse(SlotAt(s.procs, s.pid, Chosen(s))))
            && (s.pid == 0 ==> !InUse(SlotAt(s.procs, s.pid, Chosen(s))))
  {
    var t, slot := Chosen(s), if given == 0 then Empty else Held(Thread(Zeros(), Unused));
    PutOne(s.procs, s.pid, t, slot);
    var z := Step(Step(s, Create(entry)), Next(given));
    assert z.procs == Put(s.procs, s.pid, t, slot);
    hide Put, Zeros, FindThread, Step;
    if InUse(SlotAt(s.procs, s.pid, t)) {
      assert SlotAt(z.procs, s.pid, t) != SlotAt(s.procs, s.pid, t);
    }
  }

  /** The whole call. */
  function CreateCall(entry: nat, given: nat): seq<Event> {
    [Create(entry)] + Nexts(10, given)
  }

  function Nexts(n: nat, given: nat): seq<Event> {
    seq(n, _ => Next(given))
  }

  /** A call in a process other than 0, before statement `k`. */
  ghost predicate MidCall(s: State, z: State, entry: nat, k: nat)
    requires CanCreate(s)
  {
    var slot := SlotAt(z.procs, s.pid, Chosen(s));
    && z.pid == s.pid && z.tid == s.tid && |z.procs| == |s.procs| && z.procs[0] == s.procs[0]
    && |z.procs[s.pid].threads| == |s.procs[s.pid].threads|
    && z.build == Building(s.pid, Chosen(s), s.pid, s.tid, k, entry, 0)
    && (k > 0 ==> slot.Held? && |slot.thread.ctx| == CONTEXT && slot.thread.status == if k <= 7 then Unused else Idle)
    && (k > 6 ==> slot.thread.ctx[RIP] == entry)
  }

  lemma MidCallNext(s: State, z: State, entry: nat, k: nat, given: nat)
    requires CanCreate(s) && s.pid != 0 && given != 0 && k <= 8 && MidCall(s, z, entry, k)
    ensures MidCall(s, Step(z, Next(given)), entry, k + 1)
  {
    hide FindThread, Put;
    PutZero(z.procs, s.pid, Chosen(s));
    assert Step(z, Next(given)) == Advance(z, z.build, given);
    if k == 8 {
      CountOnly(z.procs, s.pid, Chosen(s));
    }
    hide SlotAt;
  }

  lemma CountOnly(procs: Procs, p: nat, t: nat)
    requires 0 < p < |procs|
    ensures forall n :: var r := procs[p := procs[p].(count := n)];
              SlotAt(r, p, t) == SlotAt(procs, p, t) && r[0] == procs[0] && |r[p].threads| == |procs[p].threads|
  {
  }

  lemma PutZero(procs: Procs, p: nat, t: nat)
    requires 0 < p < |procs| && t < |procs[p].threads|
    ensures forall slot :: var r := Put(procs, p, t, slot);
              |r| == |procs| && r[0] == procs[0] && SlotAt(r, p, t) == slot && |r[p].threads| == |procs[p].threads|
  {
  }

  lemma {:induction false} MidCallRun(s: State, z: State, entry: nat, k: nat, given: nat)
    requires CanCreate(s) && s.pid != 0 && given != 0 && k <= 9 && MidCall(s, z, entry, k)
    ensures var e := Run(z, Nexts(10 - k, given));
            && e.build == Nobody && e.pid == s.pid && e.tid == s.tid && |e.procs| == |s.procs|
               && e.procs[0] == s.procs[0]
            && |e.procs[s.pid].threads| == |s.procs[s.pid].threads|
            && InUse(SlotAt(e.procs, s.pid, Chosen(s))) && Runnable(SlotAt(e.procs, s.pid, Chosen(s)))
            && Restore(SlotAt(e.procs, s.pid, Chosen(s))).rip == entry
    decreases 9 - k
  {
    var es := Nexts(10 - k, given);
    assert es[0] == Next(given) && es[1..] == Nexts(9 - k, given);
    if k <= 8 {
      MidCallNext(s, z, entry, k, given);
      hide MidCall, Step, SlotAt, FindThread;
      MidCallRun(s, Step(z, Next(given)), entry, k + 1, given);
    } else {
      assert Run(Step(z, Next(given)), es[1..]) == Step(z, Next(given));
      assert Step(z, Next(given)) == z.(build := Nobody);
    }
  }

  /** Two calls in a row by a process other than 0: the second takes the slot of the thread that the first made, before
      it ever ran. */
  lemma CreateTwiceLoses(s: State, first: nat, second: nat, given: nat)
    requires CanCreate(s) && s.pid != 0 && given != 0
    ensures var a := Run(s, CreateCall(first, given));
            && Runnable(SlotAt(a.procs, s.pid, Chosen(s))) && Restore(SlotAt(a.procs, s.pid, Chosen(s))).rip == first
            && CanCreate(a) && a.pid == s.pid && Chosen(a) == Chosen(s)
            && SlotAt(Step(Step(a, Create(second)), Next(given)).procs, s.pid, Chosen(s)) ==
               Held(Thread(Zeros(), Unused))
  {
    var es := CreateCall(first, given);
    assert es[0] == Create(first) && es[1..] == Nexts(10, given);
    var z := Step(s, Create(first));
    assert MidCall(s, z, first, 0);
    MidCallRun(s, z, first, 0, given);
    var a := Run(s, es);
    assert a == Run(z, Nexts(10, given));
    hide Run, Step, FindThread, SlotAt, Zeros, MidCall;
    CreateDestroysIff(a, second, given);
  }
}
