/** Fairness in timer ticks (kernel/src/sys/sched.c, kernel/src/firmware/timer.c): the count of a process's threads is
    the number of those that run or wait to run, so that `resched` returns early only if there is nobody to switch
    to. */
module TimerFairness {
  import opened Context
  import opened Scheduler
  import opened KernelThreads
  import opened Turns

  // ----- The count of threads -----

  function LiveCount(threads: seq<Slot>): nat {
    if threads == [] then 0
    else LiveCount(threads[..|threads| - 1]) + if Live(threads[|threads| - 1]) then 1 else 0
  }

  /** Between the last two statements of `create_thread` the new thread waits to run and is not counted yet. */
  predicate Pending(b: Build) {
    b.Building? && b.stage == 8
  }

  ghost predicate Counted(s: State) {
    |s.procs| > 0 && s.procs[0].count + (if Pending(s.build) then 1 else 0) == LiveCount(s.procs[0].threads)
  }

  lemma {:induction false} CountSame(a: seq<Slot>, b: seq<Slot>)
    requires |a| == |b| && forall k :: 0 <= k < |a| ==> Live(a[k]) == Live(b[k])
    ensures LiveCount(a) == LiveCount(b)
  {
    hide Live;
    if a != [] {
      CountSame(a[..|a| - 1], b[..|a| - 1]);
    }
  }

  lemma {:induction false} CountPut(a: seq<Slot>, t: nat, slot: Slot)
    requires t < |a|
    ensures LiveCount(a[t := slot]) + (if Live(a[t]) then 1 else 0) == LiveCount(a) + if Live(slot) then 1 else 0
  {
    hide Live;
    var n := |a| - 1;
    if t == n {
      assert a[t := slot][..n] == a[..n];
    } else {
      CountPut(a[..n], t, slot);
      assert a[t := slot][..n] == a[..n][t := slot];
    }
  }

  lemma {:induction false} CountPositive(a: seq<Slot>, t: nat)
    requires t < |a| && Live(a[t])
    ensures LiveCount(a) >= 1
  {
    hide Live;
    if t < |a| - 1 {
      CountPositive(a[..|a| - 1], t);
    }
  }

  lemma {:induction false} CountTwo(a: seq<Slot>, t: nat, u: nat)
    requires t < u < |a| && Live(a[t]) && Live(a[u])
    ensures LiveCount(a) >= 2
  {
    hide Live;
    if u < |a| - 1 {
      CountTwo(a[..|a| - 1], t, u);
    } else {
      CountPositive(a[..|a| - 1], t);
    }
  }

  lemma BootCounted(entry: nat, stack: nat, live: Registers, ticks: nat)
    ensures Counted(Booted(entry, stack, live, ticks))
  {
    var threads := Booted(entry, stack, live, ticks).procs[0].threads;
    var rest := seq(MAX_THREADS - 1, _ => Empty);
    NoneLive(rest);
    assert Live(threads[0]);
    var base := [Empty] + rest;
    NoneLive(base);
    CountPut(base, 0, threads[0]);
    assert base[0 := threads[0]] == threads;
  }

  lemma {:induction false} NoneLive(a: seq<Slot>)
    requires forall k :: 0 <= k < |a| ==> a[k] == Empty
    ensures LiveCount(a) == 0
  {
    if a != [] {
      NoneLive(a[..|a| - 1]);
    }
  }

  // ----- Every event keeps the count -----

  lemma TickCounted(s: State)
    requires Inv(s) && Counted(s)
    ensures Counted(Tick(s)) && Tick(s).procs[0].count == s.procs[0].count && Tick(s).running == s.running
    ensures Tick(s).build == s.build && Tick(s).ticks == s.ticks + 1
  {
    hide Resched, Live, LiveCount, Inv, Sound;
    var s1 := s.(ticks := s.ticks + 1);
    TicksKeepInv(s);
    InvSound(s1);
    CountsKept(s1);
    FieldsKept(s1);
    ReschedShape(s1);
    ReschedSameLive(s1);
    ZeroLive(s.procs, Resched(s1).procs);
  }

  lemma ZeroLive(procs: Procs, procs': Procs)
    requires 0 < |procs| == |procs'| && SameLive(procs, procs') && |procs'[0].threads| == |procs[0].threads|
    ensures LiveCount(procs'[0].threads) == LiveCount(procs[0].threads)
  {
    hide Live;
    var a, b := procs[0].threads, procs'[0].threads;
    forall k | 0 <= k < |a| ensures Live(a[k]) == Live(b[k]) {
      assert Live(SlotAt(procs', 0, k)) == Live(SlotAt(procs, 0, k));
    }
    CountSame(a, b);
  }

  /** One slot of process 0 changes. */
  lemma PutCounted(procs: Procs, t: nat, slot: Slot)
    requires |procs| > 0 && t < |procs[0].threads|
    ensures var r := Put(procs, 0, t, slot);
            && |r| == |procs| && r[0].count == procs[0].count
            && LiveCount(r[0].threads) + (if Live(procs[0].threads[t]) then 1 else 0)
               == LiveCount(procs[0].threads) + if Live(slot) then 1 else 0
  {
    hide Live, LiveCount;
    CountPut(procs[0].threads, t, slot);
  }

  lemma PutKeepsCount(s: State, t: nat, slot: Slot, build: Build)
    requires Counted(s) && t < |s.procs[0].threads|
    requires (if Live(SlotAt(s.procs, 0, t)) then 1 else 0) + (if Pending(build) then 1 else 0)
             == (if Live(slot) then 1 else 0) + if Pending(s.build) then 1 else 0
    ensures Counted(s.(procs := Put(s.procs, 0, t, slot), build := build))
    ensures Put(s.procs, 0, t, slot)[0].count == s.procs[0].count
  {
    PutCounted(s.procs, t, slot);
    assert SlotAt(s.procs, 0, t) == s.procs[0].threads[t];
    hide Live, LiveCount, Put;
  }

  lemma WordCounted(s: State, b: Build, k: nat, w: nat)
    requires Counted(s) && b.Building? && b.pid == 0 && b.tid < |s.procs[0].threads| && b.stage < 7 && !Pending(s.build)
    requires var slot := SlotAt(s.procs, 0, b.tid); slot.Held? && slot.thread.status == Unused
    ensures var s' := SetWord(s, b, k, w);
            Counted(s') && s'.procs[0].count == s.procs[0].count && s'.running == s.running
  {
    hide Put, LiveCount;
    var slot := SlotAt(s.procs, 0, b.tid);
    if k < |slot.thread.ctx| {
      PutKeepsCount(s, b.tid, Held(slot.thread.(ctx := slot.thread.ctx[k := w])), b.(stage := b.stage + 1));
    }
  }

  lemma AdvanceCounted(s: State, given: nat)
    requires Inv(s) && Counted(s) && s.build.Building? && (s.build.stage == 3 ==> given != 0)
    ensures var s' := Advance(s, s.build, given);
            Counted(s') && s'.procs[0].count >= s.procs[0].count && s'.running == s.running
  {
    var b := s.build;
    TableSize(s);
    BuildFacts(s);
    hide Inv, LiveCount, Put, SetWord, SlotAt;
    match b.stage
    case 0 =>
      PutKeepsCount(s, b.tid, Empty, Nobody);
      PutKeepsCount(s, b.tid, Held(Thread(Zeros(), Unused)), b.(stage := 1));
    case 1 => WordCounted(s, b, CS, KCODE_SEGMENT);
    case 2 => WordCounted(s, b, DS, KDATA_SEGMENT);
    case 3 => WordCounted(s, b.(stack := given), RSP, given);
    case 4 => WordCounted(s, b, RSP, b.stack + THREAD_STACK);
    case 5 => WordCounted(s, b, RFLAGS, 0x202);
    case 6 => WordCounted(s, b, RIP, b.entry);
    case 7 => PutKeepsCount(s, b.tid, Held(SlotAt(s.procs, 0, b.tid).thread.(status := Idle)), b.(stage := 8));
    case _ =>
  }

  lemma TableSize(s: State)
    requires Inv(s)
    ensures |s.procs| > 0 && |s.procs[0].threads| == 32 && s.pid == 0
    ensures s.build.Building? ==> s.build.pid == 0 && s.build.tid < 32 && s.build.stage <= 9
    ensures s.build.Spawning? ==> 0 < s.build.proc < |s.procs|
  {
  }

  lemma BuildFacts(s: State)
    requires Inv(s) && s.build.Building?
    ensures var slot := SlotAt(s.procs, 0, s.build.tid);
            && (s.build.stage == 0 ==> slot.Empty? || (slot.Held? && slot.thread.status == Unused))
            && (1 <= s.build.stage <= 7 ==> slot.Held? && slot.thread.status == Unused)
  {
    hide Template, Sound;
  }

  lemma LaunchCounted(s: State, given: nat)
    requires Inv(s) && Counted(s) && s.build.Spawning?
    ensures var s' := Launch(s, s.build, given);
            Counted(s') && s'.procs[0] == s.procs[0] && s'.running >= s.running
  {
    TableSize(s);
    hide Inv, LiveCount;
  }

  /** An event neither loses a thread from the count nor a process. */
  lemma StepCounted(s: State, e: Event)
    requires Inv(s) && Allowed(s, e) && Counted(s)
    ensures var s' := Step(s, e);
            && Counted(s') && s'.procs[0].count >= s.procs[0].count && s'.running >= s.running
            && s'.ticks == s.ticks + if e.Timer? then 1 else 0
  {
    TableSize(s);
    hide Inv, LiveCount, Launch, Advance, Tick, FindThread, FindProcess;
    match e
    case Timer => TickCounted(s);
    case Next(given) =>
      TicksOfBuild(s, given);
      if s.build.Building? && s.build.ownerPid == s.pid && s.build.ownerTid == s.tid {
        AdvanceCounted(s, given);
      } else if s.build.Spawning? && s.build.byPid == s.pid && s.build.byTid == s.tid {
        LaunchCounted(s, given);
      }
    case _ =>
  }

  lemma TicksOfBuild(s: State, given: nat)
    ensures Step(s, Next(given)).ticks == s.ticks
  {
    hide Put, SlotAt, OneThread, Zeros;
  }

  lemma {:induction false} RunCounted(s: State, es: seq<Event>)
    requires Inv(s) && AllAllowed(s, es) && Counted(s)
    ensures Counted(Run(s, es))
    decreases |es|
  {
    hide Inv, Step, Allowed, Counted;
    if es != [] {
      StepKeeps(s, es[0]);
      StepCounted(s, es[0]);
      RunCounted(Step(s, es[0]), es[1..]);
    }
  }

  // ----- Ticks -----

  /** A second thread of process 0 that waits to run is counted. */
  lemma OtherCounted(s: State, t: nat)
    requires Inv(s) && s.started && Counted(s) && !Pending(s.build) && Runnable(SlotAt(s.procs, 0, t))
    ensures s.procs[0].count >= 2 && t != s.tid
  {
    TableSize(s);
    assert IsBusy(SlotAt(s.procs, s.pid, s.tid));
    HeldExists(s.procs, 0, s.tid);
    HeldExists(s.procs, 0, t);
    var threads := s.procs[0].threads;
    assert Live(threads[s.tid]) && Live(threads[t]) && t != s.tid;
    hide Inv, LiveCount;
    CountTwo(threads, if t < s.tid then t else s.tid, if t < s.tid then s.tid else t);
  }

  /** If another thread of process 0 waits to run, each tick but every tenth goes on to another thread. */
  lemma TickSwitches(s: State, t: nat)
    requires Inv(s) && s.started && Counted(s) && !Pending(s.build) && Runnable(SlotAt(s.procs, 0, t))
    ensures (s.ticks + 1) % 10 != 0 ==> Tick(s).tid != s.tid
    ensures (s.ticks + 1) % 10 == 0 ==> Tick(s) == s.(ticks := s.ticks + 1)
  {
    OtherCounted(s, t);
    if (s.ticks + 1) % 10 != 0 {
      ZeroOnPath(s, t);
      hide Inv, OnPath, Tick, SlotAt;
      InvSound(s);
      SwitchCloser(s, 0, t);
    }
  }

  lemma InvSound(s: State)
    requires Inv(s)
    ensures Sound(s)
  {
  }

  /** With two threads counted, all ticks but the multiples of ten reschedule. */
  lemma {:induction false} ManyOfTicks(s: State, es: seq<Event>)
    requires Inv(s) && AllAllowed(s, es) && Counted(s) && s.procs[0].count >= 2
    ensures Switches(s, es) == TimersIn(es) - ((s.ticks + TimersIn(es)) / 10 - s.ticks / 10)
    decreases |es|
  {
    hide Inv, Step, Allowed, Counted;
    if es != [] {
      StepKeeps(s, es[0]);
      StepCounted(s, es[0]);
      var s' := Step(s, es[0]);
      CountedSize(s);
      CountedSize(s');
      ManyOfTicks(s', es[1..]);
    }
  }

  lemma CountedSize(s: State)
    requires Counted(s)
    ensures |s.procs| > 0
  {
  }

  /** Fairness: 36 timer ticks are enough for every thread of process 0 that waits to run, whatever the threads do, and
      whatever threads and processes are created meanwhile. */
  lemma FairByTicks(s: State, es: seq<Event>, t: nat)
    requires Inv(s) && s.started && AllAllowed(s, es) && Counted(s) && !Pending(s.build)
    requires Runnable(SlotAt(s.procs, 0, t)) && TimersIn(es) >= 36
    ensures Dispatched(s, es, 0, t)
  {
    OtherCounted(s, t);
    hide Inv, SlotAt, Counted, Dispatched, AllAllowed;
    ManyOfTicks(s, es);
    Fairness(s, es, t);
  }

  /** In particular from `sched_init` on: after any events, a thread that waits to run and was counted. */
  lemma FairFromBoot(entry: nat, stack: nat, live: Registers, ticks: nat, before: seq<Event>, es: seq<Event>, t: nat)
    requires var b := Booted(entry, stack, live, ticks);
             Segmented(live) && AllAllowed(b, before) && AllAllowed(Run(b, before), es)
    requires var s := Run(Booted(entry, stack, live, ticks), before);
             s.started && !Pending(s.build) && Runnable(SlotAt(s.procs, 0, t)) && TimersIn(es) >= 36
    ensures Dispatched(Run(Booted(entry, stack, live, ticks), before), es, 0, t)
  {
    hide Run, AllAllowed, Booted, Inv, SlotAt, Dispatched;
    var b := Booted(entry, stack, live, ticks);
    BootedInv(entry, stack, live, ticks);
    BootCounted(entry, stack, live, ticks);
    RunKeeps(b, before);
    RunCounted(b, before);
    FairByTicks(Run(b, before), es, t);
  }

  /** `create_thread` finds no slot exactly when all 32 slots of process 0 are in use. */
  lemma CreateRefusedIff(s: State, entry: nat)
    requires Inv(s) && s.build == Nobody
    ensures Step(s, Create(entry)) == s <==>
              forall t: nat :: t < 32 ==> !SlotAt(s.procs, 0, t).Empty? && InUse(SlotAt(s.procs, 0, t))
    ensures Step(s, Create(entry)) != s ==>
              var b := Step(s, Create(entry)).build;
              && b == Building(0, b.tid, 0, s.tid, 0, entry, 0) && b.tid < 32
              && !InUse(SlotAt(s.procs, 0, b.tid))
              && forall t: nat :: t < b.tid ==> InUse(SlotAt(s.procs, 0, t))
  {
    TableSize(s);
    var threads := s.procs[0].threads;
    AllWholeZero(s);
    hide Inv;
    FirstUnused(threads, 0);
    assert forall t: nat :: t < 32 ==> SlotAt(s.procs, 0, t) == threads[t];
  }

  lemma AllWholeZero(s: State)
    requires Inv(s)
    ensures forall t: nat :: t < |s.procs[0].threads| ==> !s.procs[0].threads[t].Dangling?
  {
    forall t: nat | t < |s.procs[0].threads| ensures !s.procs[0].threads[t].Dangling? {
      assert Whole(SlotAt(s.procs, 0, t));
    }
  }

  lemma {:induction false} FirstUnused(threads: seq<Slot>, i: nat)
    requires i <= |threads| && forall t :: 0 <= t < |threads| ==> !threads[t].Dangling?
    ensures var r := FindThread(threads, i);
            && (forall t :: i <= t < r ==> InUse(threads[t])) && (r < |threads| ==> !InUse(threads[r]))
    decreases |threads| - i
  {
    if i < |threads| && InUse(threads[i]) {
      FirstUnused(threads, i + 1);
    }
  }
}
