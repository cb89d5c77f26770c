/** The scheduler (kernel/src/sys/sched.c) on the boot processor, after `sched_init`: a state machine over thread slots
    that is driven by timer ticks, with ticks between any two statements of `create_thread`. */
module Scheduler {
  import opened Context

  const MAX_THREADS: nat := 32
  const THREAD_STACK: nat := 131072
  const KCODE_SEGMENT: nat := 0x08
  const KDATA_SEGMENT: nat := 0x10
  const UCODE_SEGMENT: nat := 0x1B
  const UDATA_SEGMENT: nat := 0x23

  datatype Status = Unused | Idle | Busy | Wait

  /** The twenty saved quad-words and the status. */
  datatype Thread = Thread(ctx: seq<nat>, status: Status)

  /** `Dangling`: the pointer is set, but what it points to was freed. */
  datatype Slot = Empty | Held(thread: Thread) | Dangling

  datatype Process = Process(valid: bool, threads: seq<Slot>, count: nat)

  type Procs = seq<Process>

  /** `create_thread` or `create_process` at work under `sched_mutex`, before statement `stage` or `phase`. */
  datatype Build =
    | Nobody
    | Building(pid: nat, tid: nat, ownerPid: nat, ownerTid: nat, stage: nat, entry: nat, stack: nat)
    | Spawning(proc: nat, byPid: nat, byTid: nat, phase: nat, start: nat)

  /** `pid`, `tid` and `started` are the fields of the boot processor, `running` the number of processes, `live` the
      registers at this moment. */
  datatype State = State(procs: Procs, pid: nat, tid: nat, started: bool, running: nat, ticks: nat, live: Registers,
                         build: Build)

  function SlotAt(procs: Procs, p: int, t: int): Slot {
    if 0 <= p < |procs| && 0 <= t < |procs[p].threads| then procs[p].threads[t] else Empty
  }

  function Put(procs: Procs, p: nat, t: nat, slot: Slot): Procs {
    if p < |procs| && t < |procs[p].threads| then procs[p := procs[p].(threads := procs[p].threads[t := slot])]
        else procs
  }

  predicate Runnable(slot: Slot) {
    slot.Held? && slot.thread.status == Idle
  }

  // ----- find_idle -----

  /** The first idle thread at or after `j`, or the end. */
  function ScanThreads(threads: seq<Slot>, j: nat): (r: nat)
    ensures r <= |threads| && (r < |threads| ==> j <= r && Runnable(threads[r]))
    ensures forall k :: j <= k < r ==> !Runnable(threads[k])
    ensures r == |threads| ==> forall k :: j <= k < |threads| ==> !Runnable(threads[k])
    decreases |threads| - j
  {
    if j >= |threads| then |threads| else if Runnable(threads[j]) then j else ScanThreads(threads, j + 1)
  }

  datatype Place = Nowhere | There(pid: nat, tid: nat)

  /** One pass: every process from `i` on is scanned from thread `tid`. */
  function ScanProcs(procs: Procs, i: nat, tid: nat): (r: Place)
    ensures r.There? ==> i <= r.pid < |procs| && procs[r.pid].valid && tid <= r.tid < |procs[r.pid].threads|
                         && Runnable(SlotAt(procs, r.pid, r.tid))
    ensures r.Nowhere? ==> forall p, t :: i <= p < |procs| && procs[p].valid && tid <= t ==>
            !Runnable(SlotAt(procs, p, t))
    decreases |procs| - i
  {
    if i >= |procs| then Nowhere
    else
      var j := ScanThreads(procs[i].threads, tid);
      if procs[i].valid && j < |procs[i].threads| then There(i, j) else ScanProcs(procs, i + 1, tid)
  }

  /** `find_idle`: the second pass starts from the beginning. */
  function FindIdle(procs: Procs, pid: nat, tid: nat): (r: Place)
    ensures r.There? ==> r.pid < |procs| && procs[r.pid].valid && r.tid < |procs[r.pid].threads|
                         && Runnable(SlotAt(procs, r.pid, r.tid))
    ensures r.Nowhere? <==> forall p, t :: 0 <= p < |procs| && procs[p].valid ==> !Runnable(SlotAt(procs, p, t))
  {
    var first := ScanProcs(procs, pid, tid);
    if first.There? then first else ScanProcs(procs, 0, 0)
  }

  // ----- resched and the timer -----

  /** The state is saved into the thread that was interrupted. */
  function Save(s: State): Procs {
    if s.started then Put(s.procs, s.pid, s.tid, Held(Thread(Saved(s.live), Idle))) else s.procs
  }

  function Dispatch(s: State, procs: Procs, at: Place): State {
    match at
    case Nowhere => s.(procs := procs, tid := if s.started then s.tid + 1 else s.tid, started := true)
    case There(p, t) =>
      var slot := SlotAt(procs, p, t);
      if slot.Held? && |slot.thread.ctx| == CONTEXT then
        s.(procs := Put(procs, p, t, Held(slot.thread.(status := Busy))), pid := p, tid := t, started := true,
           live := Restored(slot.thread.ctx))
      else s
  }

  /** The early return: one process with one thread. */
  predicate Alone(s: State) {
    s.started && s.running == 1 && |s.procs| > 0 && s.procs[0].count == 1
  }

  function Resched(s: State): State {
    if Alone(s) then s
    else Dispatch(s, Save(s), FindIdle(Save(s), s.pid, if s.started then s.tid + 1 else s.tid))
  }

  /** `timer_irq`: every tenth tick does not reschedule. */
  function Tick(s: State): State {
    var s' := s.(ticks := s.ticks + 1);
    if s'.ticks % 10 != 0 then Resched(s') else s'
  }

  // ----- create_thread -----

  /** `find_thread`, which looks at process 0 whatever its argument. */
  function FindThread(threads: seq<Slot>, i: nat): (r: nat)
    requires i <= |threads|
    ensures i <= r <= |threads|
    ensures r < |threads| ==> threads[r].Empty? || (threads[r].Held? && threads[r].thread.status == Unused)
    decreases |threads| - i
  {
    if i == |threads| || threads[i].Empty? || (threads[i].Held? && threads[i].thread.status == Unused) then i
    else FindThread(threads, i + 1)
  }

  function Zeros(): seq<nat> {
    seq(CONTEXT, _ => 0)
  }

  /** One word of the thread under construction is set. */
  function SetWord(s: State, b: Build, k: nat, w: nat): State
    requires b.Building?
  {
    var slot := SlotAt(s.procs, b.pid, b.tid);
    var s' := s.(build := b.(stage := b.stage + 1));
    if slot.Held? && k < |slot.thread.ctx| then
      s'.(procs := Put(s.procs, b.pid, b.tid, Held(slot.thread.(ctx := slot.thread.ctx[k := w]))))
    else s'
  }

  const RIP: nat := 15
  const RSP: nat := 16
  const RFLAGS: nat := 17
  const CS: nat := 18
  const DS: nat := 19

  /** The next statement of `create_thread`; `given` is what the allocator returns, if it is called. */
  function Advance(s: State, b: Build, given: nat): State
    requires b.Building?
  {
    match b.stage
    case 0 =>
      if given == 0 then s.(procs := Put(s.procs, b.pid, b.tid, Empty), build := Nobody)
      else s.(procs := Put(s.procs, b.pid, b.tid, Held(Thread(Zeros(), Unused))), build := b.(stage := 1))
    case 1 => SetWord(s, b, CS, if b.pid == 0 then KCODE_SEGMENT else UCODE_SEGMENT)
    case 2 => SetWord(s, b, DS, if b.pid == 0 then KDATA_SEGMENT else UDATA_SEGMENT)
    case 3 =>
      if b.pid != 0 then s.(build := b.(stage := 4))
      else if given == 0 then s.(procs := Put(s.procs, b.pid, b.tid, Dangling), build := Nobody)
      else SetWord(s, b.(stack := given), RSP, given)
    case 4 => SetWord(s, b, RSP, b.stack + THREAD_STACK)
    case 5 => SetWord(s, b, RFLAGS, 0x202)
    case 6 => SetWord(s, b, RIP, b.entry)
    case 7 =>
      var slot := SlotAt(s.procs, b.pid, b.tid);
      if slot.Held? then s.(procs := Put(s.procs, b.pid, b.tid, Held(slot.thread.(status := Idle))),
                            build := b.(stage := 8))
      else s
    case 8 =>
      if b.pid < |s.procs| then
        s.(procs := s.procs[b.pid := s.procs[b.pid].(count := s.procs[b.pid].count + 1)], build := b.(stage := 9))
      else s
    case _ => s.(build := Nobody)
  }

  // ----- create_process -----

  /** `find_process`: the first process that is not valid. */
  function FindProcess(procs: Procs, i: nat): (r: nat)
    requires i <= |procs|
    ensures i <= r <= |procs| && (r < |procs| ==> !procs[r].valid) && forall p :: i <= p < r ==> procs[p].valid
    decreases |procs| - i
  {
    if i == |procs| || !procs[i].valid then i else FindProcess(procs, i + 1)
  }

  /** The thread of a process that is not the first: stack and segments are not set. */
  function FirstThread(entry: nat): Thread {
    Thread(Zeros()[RFLAGS := 0x202][RIP := entry], Idle)
  }

  function OneThread(entry: nat): seq<Slot> {
    [Held(FirstThread(entry))] + seq(MAX_THREADS - 1, _ => Empty)
  }

  /** `create_process`, once the first process runs. Before `valid` is set nobody looks at the process, so that what
      comes before is one step; `given` is 0 if an allocation fails. */
  function Launch(s: State, b: Build, given: nat): State
    requires b.Spawning?
  {
    if b.proc >= |s.procs| then s
    else match b.phase
      case 0 =>
        if given == 0 then s.(build := Nobody)
        else s.(procs := s.procs[b.proc := Process(false, OneThread(b.start), 1)], build := b.(phase := 1))
      case 1 => s.(procs := s.procs[b.proc := s.procs[b.proc].(valid := true, count := 1)], build := b.(phase := 2))
      case 2 => s.(running := s.running + 1, build := b.(phase := 3))
      case _ => s.(build := Nobody)
  }

  // ----- Events -----

  /** `Compute`: the running thread changes its registers. `Create` and `Spawn`: it enters `create_thread` or
      `create_process`. `Next`: it executes the next statement of it. */
  datatype Event = Timer | Compute(r: Registers) | Create(entry: nat) | Spawn(entry: nat) | Next(given: nat)

  function Step(s: State, e: Event): State {
    match e
    case Timer => Tick(s)
    case Compute(r) => s.(live := r)
    case Create(entry) =>
      if s.build == Nobody && |s.procs| > 0 then
        var t := FindThread(s.procs[0].threads, 0);
        if t < |s.procs[0].threads| then s.(build := Building(s.pid, t, s.pid, s.tid, 0, entry, 0)) else s
      else s
    case Spawn(entry) =>
      if s.build == Nobody then
        var p := FindProcess(s.procs, 0);
        if p < |s.procs| then s.(build := Spawning(p, s.pid, s.tid, 0, entry)) else s
      else s
    case Next(given) =>
      if s.build.Building? && s.build.ownerPid == s.pid && s.build.ownerTid == s.tid then Advance(s, s.build, given)
      else if s.build.Spawning? && s.build.byPid == s.pid && s.build.byTid == s.tid then Launch(s, s.build, given)
      else s
  }

  function Run(s: State, es: seq<Event>): State
    decreases |es|
  {
    if es == [] then s else Run(Step(s, es[0]), es[1..])
  }

  // ----- What ticks keep, for any table -----

  /** A process that can run has all its slots. */
  ghost predicate Shaped(procs: Procs) {
    forall p :: 0 <= p < |procs| && procs[p].valid ==> |procs[p].threads| == MAX_THREADS
  }

  /** No slot dangles and contexts are whole. */
  predicate Whole(slot: Slot) {
    !slot.Dangling? && (slot.Held? ==> |slot.thread.ctx| == CONTEXT)
  }

  ghost predicate AllWhole(procs: Procs) {
    forall p, t :: Whole(SlotAt(procs, p, t))
  }

  predicate IsBusy(slot: Slot) {
    slot.Held? && slot.thread.status == Busy
  }

  /** A thread that is running or waits to run. */
  predicate Live(slot: Slot) {
    IsBusy(slot) || Runnable(slot)
  }

  /** Exactly the thread at `(pid, tid)` is busy. */
  ghost predicate OneBusy(procs: Procs, pid: nat, tid: nat) {
    && pid < |procs| && procs[pid].valid
    && forall p, t :: IsBusy(SlotAt(procs, p, t)) <==> p == pid && t == tid
  }

  ghost predicate NoneBusy(procs: Procs) {
    forall p, t :: !IsBusy(SlotAt(procs, p, t))
  }

  ghost predicate SomeIdle(procs: Procs) {
    exists p, t :: 0 <= p < |procs| && procs[p].valid && Runnable(SlotAt(procs, p, t))
  }

  ghost predicate Sound(s: State) {
    && Shaped(s.procs) && AllWhole(s.procs) && WellFormed(s.live)
    && if s.started then OneBusy(s.procs, s.pid, s.tid) else NoneBusy(s.procs) && SomeIdle(s.procs)
  }

  /** `procs'` differs from `procs` only in slot `(p, t)` and perhaps in counts. */
  ghost predicate OneSlot(procs: Procs, procs': Procs, p: nat, t: nat, slot: Slot) {
    && |procs'| == |procs|
    && (forall q :: 0 <= q < |procs| ==> procs'[q].valid == procs[q].valid && |procs'[q].threads| == |procs[q].threads|)
    && SlotAt(procs', p, t) == slot
    && (forall q, u :: !(q == p && u == t) ==> SlotAt(procs', q, u) == SlotAt(procs, q, u))
  }

  lemma PutOne(procs: Procs, p: nat, t: nat, slot: Slot)
    requires p < |procs| && t < |procs[p].threads|
    ensures OneSlot(procs, Put(procs, p, t, slot), p, t, slot)
  {
  }

  lemma OneSlotShape(procs: Procs, procs': Procs, p: nat, t: nat, slot: Slot)
    requires OneSlot(procs, procs', p, t, slot) && Shaped(procs) && AllWhole(procs) && Whole(slot)
    ensures Shaped(procs') && AllWhole(procs')
  {
    forall q, u ensures Whole(SlotAt(procs', q, u)) {
      assert Whole(SlotAt(procs, q, u));
    }
  }

  /** A held slot exists. */
  lemma HeldExists(procs: Procs, p: nat, t: nat)
    requires SlotAt(procs, p, t).Held?
    ensures p < |procs| && t < |procs[p].threads|
  {
  }

  lemma SavedWhole(r: Registers)
    requires WellFormed(r)
    ensures |Saved(r)| == CONTEXT && WellFormed(Restored(Saved(r)))
  {
  }

  /** After saving, nobody is busy and the interrupted thread is idle with its own registers. */
  lemma SaveStep(s: State)
    requires Sound(s)
    ensures var procs := Save(s);
            && Shaped(procs) && AllWhole(procs) && NoneBusy(procs) && SomeIdle(procs)
            && (s.started ==> OneSlot(s.procs, procs, s.pid, s.tid, Held(Thread(Saved(s.live), Idle))))
            && (!s.started ==> procs == s.procs)
  {
    if s.started {
      var slot := Held(Thread(Saved(s.live), Idle));
      var procs := Save(s);
      SavedWhole(s.live);
      assert IsBusy(SlotAt(s.procs, s.pid, s.tid));
      HeldExists(s.procs, s.pid, s.tid);
      PutOne(s.procs, s.pid, s.tid, slot);
      OneSlotShape(s.procs, procs, s.pid, s.tid, slot);
      SaveBusy(s, procs, slot);
    }
  }

  lemma SaveBusy(s: State, procs: Procs, slot: Slot)
    requires s.started && OneBusy(s.procs, s.pid, s.tid) && OneSlot(s.procs, procs, s.pid, s.tid, slot)
             && Runnable(slot)
    ensures NoneBusy(procs) && SomeIdle(procs)
  {
    forall p, t ensures !IsBusy(SlotAt(procs, p, t)) {
      assert IsBusy(SlotAt(s.procs, p, t)) <==> p == s.pid && t == s.tid;
    }
    assert procs[s.pid].valid && Runnable(SlotAt(procs, s.pid, s.tid));
  }

  /** The dispatch of an idle thread when nobody is busy. */
  lemma DispatchStep(s: State, procs: Procs, p: nat, t: nat)
    requires Shaped(procs) && AllWhole(procs) && NoneBusy(procs)
    requires p < |procs| && procs[p].valid && Runnable(SlotAt(procs, p, t))
    ensures var s' := Dispatch(s, procs, There(p, t));
            && Sound(s') && s'.started && s'.pid == p && s'.tid == t
            && |SlotAt(procs, p, t).thread.ctx| == CONTEXT && s'.live == Restored(SlotAt(procs, p, t).thread.ctx)
            && OneSlot(procs, s'.procs, p, t, Held(SlotAt(procs, p, t).thread.(status := Busy)))
  {
    var slot := SlotAt(procs, p, t);
    var busy := Held(slot.thread.(status := Busy));
    var procs' := Put(procs, p, t, busy);
    assert Whole(slot);
    HeldExists(procs, p, t);
    PutOne(procs, p, t, busy);
    hide Put;
    OneSlotShape(procs, procs', p, t, busy);
    hide Shaped, AllWhole;
    forall q, u ensures IsBusy(SlotAt(procs', q, u)) <==> q == p && u == t {
    }
  }

  /** What a rescheduling tick does. */
  lemma ReschedStep(s: State)
    requires Sound(s) && !Alone(s)
    ensures var at := FindIdle(Save(s), s.pid, if s.started then s.tid + 1 else s.tid);
            var s' := Resched(s);
            && at == There(s'.pid, s'.tid) && Runnable(SlotAt(Save(s), s'.pid, s'.tid))
            && |SlotAt(Save(s), s'.pid, s'.tid).thread.ctx| == CONTEXT
            && Sound(s') && s'.started && s'.live == Restored(SlotAt(Save(s), s'.pid, s'.tid).thread.ctx)
            && OneSlot(Save(s), s'.procs, s'.pid, s'.tid, Held(SlotAt(Save(s), s'.pid, s'.tid).thread.(status := Busy)))
            && s'.build == s.build && s'.running == s.running && s'.ticks == s.ticks
  {
    SaveStep(s);
    var procs := Save(s);
    var at := FindIdle(procs, s.pid, if s.started then s.tid + 1 else s.tid);
    hide Save, FindIdle, Sound, AllWhole, Shaped, OneSlot;
    assert at.There?;
    DispatchStep(s, procs, at.pid, at.tid);
  }

  /** With nobody to dispatch, which cannot be once a thread runs, only the slot number has moved on. */
  lemma NobodyToDispatch(s: State)
    requires !Alone(s) && forall p, t :: 0 <= p < |s.procs| && s.procs[p].valid ==> !Runnable(SlotAt(Save(s), p, t))
    ensures !Sound(s)
    ensures var s' := Resched(s);
            && s'.live == s.live && s'.pid == s.pid && s'.started && s'.tid == s.tid + (if s.started then 1 else 0)
            && s'.build == s.build && s'.running == s.running && s'.ticks == s.ticks
  {
    SameValid(s);
    if Sound(s) {
      SaveStep(s);
      hide Save;
      assert false;
    }
  }

  lemma SameValid(s: State)
    ensures |Save(s)| == |s.procs| && forall p :: 0 <= p < |s.procs| ==> Save(s)[p].valid == s.procs[p].valid
  {
    hide SlotAt;
  }

  lemma TicksKeep(s: State)
    requires Sound(s)
    ensures Sound(s.(ticks := s.ticks + 1))
  {
  }

  lemma TickKeepsSound(s: State)
    requires Sound(s)
    ensures Sound(Tick(s)) && ((s.ticks + 1) % 10 != 0 ==> Tick(s).started) && (s.started ==> Tick(s).started)
  {
    hide Sound, Save, FindIdle;
    TicksKeep(s);
    var s1 := s.(ticks := s.ticks + 1);
    if s1.ticks % 10 != 0 && !Alone(s1) {
      ReschedStep(s1);
    }
  }

  /** The slots of all but the thread that was running and the thread that is. */
  ghost predicate OthersKept(s: State, s': State) {
    forall p, t :: !(p == s.pid && t == s.tid) && !(p == s'.pid && t == s'.tid) ==>
        SlotAt(s'.procs, p, t) == SlotAt(s.procs, p, t)
  }

  /** What rescheduling does, seen from the slots before it. */
  lemma ReschedView(s: State)
    requires Sound(s) && s.started
    ensures var s' := Resched(s);
            && s'.started && OthersKept(s, s') && |Saved(s.live)| == CONTEXT
            && if s'.pid == s.pid && s'.tid == s.tid then s'.live == s.live || s'.live == Restored(Saved(s.live))
               else && Runnable(SlotAt(s.procs, s'.pid, s'.tid))
                    && |SlotAt(s.procs, s'.pid, s'.tid).thread.ctx| == CONTEXT
                    && s'.live == Restored(SlotAt(s.procs, s'.pid, s'.tid).thread.ctx)
                    && SlotAt(s'.procs, s.pid, s.tid) == Held(Thread(Saved(s.live), Idle))
  {
    SavedWhole(s.live);
    if !Alone(s) {
      SaveStep(s);
      hide Save, FindIdle, Sound, Restored, Saved, AllWhole, Shaped, NoneBusy, SomeIdle, SlotAt;
      ReschedStep(s);
    }
  }

  // ----- Whose turn it is -----

  /** The same processes are valid and the same slots live. */
  ghost predicate SameLive(procs: Procs, procs': Procs) {
    && |procs'| == |procs| && (forall p :: 0 <= p < |procs| ==> procs'[p].valid == procs[p].valid)
    && forall p, t :: Live(SlotAt(procs', p, t)) == Live(SlotAt(procs, p, t))
  }

  /** The slot number is above every live slot of every valid process before `p`. */
  ghost predicate OnPath(procs: Procs, p: nat, t: nat) {
    && p < |procs| && procs[p].valid && Live(SlotAt(procs, p, t))
    && forall q, u :: 0 <= q < p && procs[q].valid && Live(SlotAt(procs, q, u)) ==> u < t
  }

  lemma SameLivePath(procs: Procs, procs': Procs, p: nat, t: nat)
    requires SameLive(procs, procs')
    ensures OnPath(procs', p, t) <==> OnPath(procs, p, t)
  {
    hide Live, SlotAt;
    forall q, u ensures Live(SlotAt(procs', q, u)) == Live(SlotAt(procs, q, u)) {
    }
  }

  /** Threads on the path have different slot numbers. */
  lemma PathDistinct(procs: Procs, p: nat, t: nat, q: nat, u: nat)
    requires OnPath(procs, p, t) && OnPath(procs, q, u) && t == u
    ensures p == q
  {
    hide Live, SlotAt;
  }

  /** What a tick leaves alive. */
  lemma SaveSameLive(s: State)
    requires Sound(s)
    ensures SameLive(s.procs, Save(s)) && forall p, t :: Runnable(SlotAt(Save(s), p, t)) <==>
            Live(SlotAt(s.procs, p, t))
  {
    SaveStep(s);
    if s.started {
      assert IsBusy(SlotAt(s.procs, s.pid, s.tid));
    }
    hide Save, SlotAt;
  }

  lemma ReschedSameLive(s: State)
    requires Sound(s)
    ensures SameLive(s.procs, Resched(s).procs)
  {
    SaveSameLive(s);
    if !Alone(s) {
      ReschedStep(s);
      hide Save, SlotAt, FindIdle, Sound;
    }
  }

  /** How many slots after `c` the slot `t` is, going around. */
  function Distance(c: nat, t: nat): int {
    if t > c then t - c else t - c + MAX_THREADS
  }

  /** A pass finds the first thread by process, then by slot. */
  lemma {:induction false} ScanFirst(procs: Procs, i: nat, j: nat, p: nat, t: nat)
    requires i <= p < |procs| && procs[p].valid && j <= t && Runnable(SlotAt(procs, p, t))
    ensures var at := ScanProcs(procs, i, j);
            && at.There? && at.pid <= p && (at.pid == p ==> at.tid <= t)
            && forall q, u :: i <= q < at.pid && procs[q].valid && j <= u ==> !Runnable(SlotAt(procs, q, u))
    decreases |procs| - i
  {
    var k := ScanThreads(procs[i].threads, j);
    HeldExists(procs, p, t);
    if !(procs[i].valid && k < |procs[i].threads|) {
      ScanFirst(procs, i + 1, j, p, t);
    }
  }

  lemma {:induction false} ScanSkips(procs: Procs, i: nat, j: nat)
    ensures var at := ScanProcs(procs, i, j);
            at.There? ==> forall q, u :: i <= q < at.pid && procs[q].valid && j <= u ==> !Runnable(SlotAt(procs, q, u))
    decreases |procs| - i
  {
    if i < |procs| {
      ScanSkips(procs, i + 1, j);
    }
  }

  /** The first pass from a thread on the path, or the second, ends on the path. */
  lemma NextOnPath(procs: Procs, pid: nat, tid: nat)
    requires NoneBusy(procs) && OnPath(procs, pid, tid)
    ensures var at := FindIdle(procs, pid, tid + 1); at.There? ==> OnPath(procs, at.pid, at.tid)
  {
    ScanSkips(procs, pid, tid + 1);
    ScanSkips(procs, 0, 0);
    hide ScanProcs;
    var at := FindIdle(procs, pid, tid + 1);
    if at.There? {
      forall q, u | 0 <= q < at.pid && procs[q].valid && Live(SlotAt(procs, q, u)) ensures u < at.tid {
        assert Runnable(SlotAt(procs, q, u));
        SlotNonNegative(procs, q, u);
      }
    }
  }

  lemma SlotNonNegative(procs: Procs, q: int, u: int)
    requires Live(SlotAt(procs, q, u))
    ensures 0 <= q < |procs| && 0 <= u < |procs[q].threads|
  {
  }

  /** The second pass always ends on the path. */
  lemma FirstOnPath(procs: Procs)
    requires NoneBusy(procs)
    ensures var at := ScanProcs(procs, 0, 0); at.There? ==> OnPath(procs, at.pid, at.tid)
  {
    ScanSkips(procs, 0, 0);
    hide ScanProcs;
    var at := ScanProcs(procs, 0, 0);
    if at.There? {
      forall q, u | 0 <= q < at.pid && procs[q].valid ensures !Live(SlotAt(procs, q, u)) {
        assert u >= 0 ==> !Runnable(SlotAt(procs, q, u));
      }
    }
  }

  /** The next thread in turn comes no later than any thread on the path. */
  lemma NextInTurn(procs: Procs, pid: nat, tid: nat, p: nat, t: nat)
    requires NoneBusy(procs) && OnPath(procs, pid, tid) && OnPath(procs, p, t) && tid < MAX_THREADS && t < MAX_THREADS
    ensures var at := FindIdle(procs, pid, tid + 1);
            at.There? && (at.tid == t || Distance(at.tid, t) < Distance(tid, t))
  {
    assert Runnable(SlotAt(procs, p, t));
    ScanFirst(procs, 0, 0, p, t);
    if t > tid {
      assert p >= pid;
      ScanFirst(procs, pid, tid + 1, p, t);
    }
    hide ScanProcs;
    var first, second := ScanProcs(procs, pid, tid + 1), ScanProcs(procs, 0, 0);
    forall at | at == first || at == second ensures at.There? && at.pid < p ==> at.tid < t {
      assert at.There? ==> Live(SlotAt(procs, at.pid, at.tid));
    }
  }

  // ----- Runs of ticks -----

  /** A tick that reschedules. */
  predicate Switching(s: State) {
    (s.ticks + 1) % 10 != 0 && !Alone(s)
  }

  /** Only the timer and the running thread act. */
  ghost predicate TicksOnly(es: seq<Event>) {
    forall i :: 0 <= i < |es| ==> es[i].Timer? || (es[i].Compute? && WellFormed(es[i].r))
  }

  lemma TickStep(s: State, e: Event)
    requires Sound(s) && s.started && (e.Timer? || (e.Compute? && WellFormed(e.r)))
    ensures Sound(Step(s, e)) && Step(s, e).started && SameLive(s.procs, Step(s, e).procs)
  {
    if e.Timer? {
      hide Sound, Resched;
      TicksKeep(s);
      TickKeepsSound(s);
      ReschedSameLive(s.(ticks := s.ticks + 1));
    }
  }

  /** A tick keeps to the path, and it brings every thread on the path closer to its turn. */
  lemma SwitchCloser(s: State, p: nat, t: nat)
    requires Sound(s) && s.started && Switching(s) && OnPath(s.procs, s.pid, s.tid) && OnPath(s.procs, p, t)
    ensures var s' := Tick(s);
            && OnPath(s.procs, s'.pid, s'.tid)
            && ((s'.pid == p && s'.tid == t) || Distance(s'.tid, t) < Distance(s.tid, t))
  {
    TicksKeep(s);
    var s1 := s.(ticks := s.ticks + 1);
    SlotBounds(s.procs, s.pid, s.tid);
    SlotBounds(s.procs, p, t);
    SaveStep(s1);
    SaveSameLive(s1);
    var procs := Save(s1);
    SameLivePath(s.procs, procs, s.pid, s.tid);
    SameLivePath(s.procs, procs, p, t);
    hide Sound, Save, OnPath;
    ReschedStep(s1);
    NextOnPath(procs, s.pid, s.tid);
    NextInTurn(procs, s.pid, s.tid, p, t);
    hide FindIdle;
    var s' := Tick(s);
    SameLivePath(s.procs, procs, s'.pid, s'.tid);
    if s'.tid == t {
      PathDistinct(s.procs, s'.pid, s'.tid, p, t);
    }
  }

  lemma SlotBounds(procs: Procs, p: nat, t: nat)
    requires Shaped(procs) && OnPath(procs, p, t)
    ensures t < MAX_THREADS
  {
    SlotNonNegative(procs, p, t);
  }

  lemma PathStays(s: State, e: Event)
    requires Sound(s) && s.started && (e.Timer? || (e.Compute? && WellFormed(e.r))) && OnPath(s.procs, s.pid, s.tid)
    ensures OnPath(Step(s, e).procs, Step(s, e).pid, Step(s, e).tid)
  {
    TickStep(s, e);
    if e.Timer? && Switching(s) {
      SwitchCloser(s, s.pid, s.tid);
    }
    hide Sound, OnPath;
    SameLivePath(s.procs, Step(s, e).procs, Step(s, e).pid, Step(s, e).tid);
    SameTurn(s, e);
  }

  /** A step other than a rescheduling tick leaves the turn where it is. */
  lemma SameTurn(s: State, e: Event)
    ensures !(e.Timer? && Switching(s)) ==> Step(s, e).pid == s.pid && Step(s, e).tid == s.tid
  {
    hide Save, FindIdle, FindThread, Put, SlotAt, Zeros, OneThread, FindProcess;
  }

  /** A tick of the run dispatches thread `t` of process `p`. */
  ghost predicate Dispatched(s: State, es: seq<Event>, p: nat, t: nat)
    decreases |es|
  {
    es != [] && ((es[0].Timer? && Step(s, es[0]).pid == p && Step(s, es[0]).tid == t)
                 || Dispatched(Step(s, es[0]), es[1..], p, t))
  }

  /** The number of rescheduling ticks in a run. */
  function Switches(s: State, es: seq<Event>): nat
    decreases |es|
  {
    if es == [] then 0
    else (if es[0].Timer? && Switching(s) then 1 else 0) + Switches(Step(s, es[0]), es[1..])
  }

  /** A thread on the path is dispatched before as many rescheduling ticks have passed as it is slots away. */
  lemma {:induction false} PathTurn(s: State, es: seq<Event>, p: nat, t: nat)
    requires Sound(s) && s.started && TicksOnly(es) && OnPath(s.procs, s.pid, s.tid) && OnPath(s.procs, p, t)
    requires !(s.pid == p && s.tid == t) && Switches(s, es) >= Distance(s.tid, t)
    ensures Dispatched(s, es, p, t)
    decreases |es|
  {
    SlotBounds(s.procs, s.pid, s.tid);
    hide Sound, OnPath, Step, Switching;
    if es != [] {
      var e, s' := es[0], Step(s, es[0]);
      TickStep(s, e);
      PathStays(s, e);
      SameLivePath(s.procs, s'.procs, p, t);
      SameTurn(s, e);
      if e.Timer? && Switching(s) {
        SwitchCloser(s, p, t);
        TimerStep(s);
      }
      if !(s'.pid == p && s'.tid == t) {
        PathTurn(s', es[1..], p, t);
      } else {
        SameTurn(s, e);
      }
    }
  }

  lemma TimerStep(s: State)
    ensures Step(s, Timer) == Tick(s)
  {
  }

  /** Of two ticks in a row at least one reschedules, unless one thread is all there is. */
  lemma {:induction false} ManySwitches(s: State, n: nat)
    requires Sound(s) && s.started && !Alone(s)
    ensures Switches(s, Timers(2 * n)) >= n
    decreases n
  {
    hide Sound, Step;
    if n > 0 {
      var es := Timers(2 * n);
      assert es[0] == Timer && es[1..][0] == Timer && es[1..][1..] == Timers(2 * (n - 1));
      var s1 := Step(s, Timer);
      var s2 := Step(s1, Timer);
      TickStep(s, Timer);
      TickStep(s1, Timer);
      TickCounts(s);
      TickCounts(s1);
      ManySwitches(s2, n - 1);
      assert Switches(s1, es[1..]) == (if Switching(s1) then 1 else 0) + Switches(s2, Timers(2 * (n - 1)));
    }
  }

  function Timers(n: nat): seq<Event> {
    seq(n, _ => Timer)
  }

  lemma TickCounts(s: State)
    requires Sound(s)
    ensures Step(s, Timer).ticks == s.ticks + 1 && (s.started ==> Alone(Step(s, Timer)) == Alone(s))
  {
    TicksKeep(s);
    var s1 := s.(ticks := s.ticks + 1);
    if s1.ticks % 10 != 0 && !Alone(s1) {
      CountsKept(s1);
      ReschedStep(s1);
      hide Sound, Save, FindIdle;
    }
  }

  lemma FieldsKept(s: State)
    ensures Resched(s).running == s.running && Resched(s).build == s.build && Resched(s).ticks == s.ticks
  {
    hide FindIdle, SlotAt, Save, Put;
  }

  lemma CountsKept(s: State)
    ensures var s' := Resched(s); |s'.procs| == |s.procs| && forall p :: 0 <= p < |s.procs| ==>
            s'.procs[p].count == s.procs[p].count
  {
    hide FindIdle, SlotAt;
  }

  lemma NotBusyNow(s: State, p: nat, t: nat)
    requires Sound(s) && s.started && Runnable(SlotAt(s.procs, p, t))
    ensures !(s.pid == p && s.tid == t)
  {
    assert !IsBusy(SlotAt(s.procs, p, t));
  }

  lemma DistanceBound(s: State, p: nat, t: nat)
    requires Sound(s) && s.started && OnPath(s.procs, s.pid, s.tid) && OnPath(s.procs, p, t)
    ensures Distance(s.tid, t) <= MAX_THREADS
  {
    SlotBounds(s.procs, s.pid, s.tid);
    SlotBounds(s.procs, p, t);
  }

  /** From wherever it starts, the processor is on the path after at most MAX_THREADS rescheduling ticks. */
  lemma {:induction false} PathReached(s: State, es: seq<Event>)
    requires Sound(s) && s.started && TicksOnly(es)
    requires OnPath(s.procs, s.pid, s.tid) || Switches(s, es) >= MAX_THREADS - s.tid
    ensures var z := Run(s, es); OnPath(z.procs, z.pid, z.tid)
    decreases |es|
  {
    RunningSlot(s);
    hide Sound, OnPath, Step, Switching;
    if es != [] {
      var e, s' := es[0], Step(s, es[0]);
      TickStep(s, e);
      if OnPath(s.procs, s.pid, s.tid) {
        PathStays(s, e);
      } else {
        SameTurn(s, e);
        if e.Timer? && Switching(s) {
          TimerStep(s);
          TurnAdvances(s);
        }
      }
      PathReached(s', es[1..]);
    }
  }

  lemma RunningSlot(s: State)
    requires Sound(s) && s.started
    ensures s.tid < MAX_THREADS
  {
    assert IsBusy(SlotAt(s.procs, s.pid, s.tid));
  }

  /** A rescheduling tick goes on to a higher slot number, or starts over on the path. */
  lemma TurnAdvances(s: State)
    requires Sound(s) && s.started && Switching(s)
    ensures var s' := Tick(s); s'.tid > s.tid || OnPath(s'.procs, s'.pid, s'.tid)
  {
    TicksKeep(s);
    var s1 := s.(ticks := s.ticks + 1);
    SaveStep(s1);
    ReschedStep(s1);
    ReschedSameLive(s1);
    SaveSameLive(s1);
    FirstOnPath(Save(s1));
    var s' := Tick(s);
    hide Sound, Save, OnPath, ScanProcs, SameLive;
    SameLivePath(s.procs, Save(s1), s'.pid, s'.tid);
    SameLivePath(s.procs, s'.procs, s'.pid, s'.tid);
  }
}
