/** Who ever gets a turn (kernel/src/sys/sched.c), whatever thread is running: the scan goes up from the running
    thread's process and slot, and starts over from the first process only when it finds nothing. */
module Turns {
  import opened Context
  import opened Scheduler

  /** The scan from `(pid, tid)` up comes to `(p, t)`: no process on the way has a live slot at or above `t`. */
  ghost predicate Ahead(procs: Procs, pid: nat, tid: nat, p: nat, t: nat) {
    && pid <= p < |procs| && procs[p].valid && tid < t && Live(SlotAt(procs, p, t))
    && forall q, u :: pid <= q < p && procs[q].valid && Live(SlotAt(procs, q, u)) ==> u < t
  }

  ghost predicate InTurn(s: State, p: nat, t: nat) {
    OnPath(s.procs, p, t) || Ahead(s.procs, s.pid, s.tid, p, t)
  }

  lemma SameLiveAhead(procs: Procs, procs': Procs, pid: nat, tid: nat, p: nat, t: nat)
    requires SameLive(procs, procs')
    ensures Ahead(procs', pid, tid, p, t) <==> Ahead(procs, pid, tid, p, t)
  {
    hide Live, SlotAt;
    forall q, u ensures Live(SlotAt(procs', q, u)) == Live(SlotAt(procs, q, u)) {
    }
  }

  /** The next thread found is that one, or one from which it is still ahead and nearer. */
  lemma NextAhead(procs: Procs, pid: nat, tid: nat, p: nat, t: nat)
    requires NoneBusy(procs) && Ahead(procs, pid, tid, p, t)
    ensures var at := FindIdle(procs, pid, tid + 1);
            at.There? && (at == There(p, t) || (tid < at.tid < t && Ahead(procs, at.pid, at.tid, p, t)))
  {
    ScanFirst(procs, pid, tid + 1, p, t);
    hide ScanProcs;
    var at := FindIdle(procs, pid, tid + 1);
    assert Live(SlotAt(procs, at.pid, at.tid));
    hide Live, SlotAt;
  }

  /** A thread that is not in turn is not found, and is not in turn then. */
  lemma NextNotInTurn(procs: Procs, pid: nat, tid: nat, p: nat, t: nat)
    requires NoneBusy(procs) && !OnPath(procs, p, t) && !Ahead(procs, pid, tid, p, t)
    ensures var at := FindIdle(procs, pid, tid + 1);
            at.There? ==> at != There(p, t) && !Ahead(procs, at.pid, at.tid, p, t)
  {
    var at := ScanProcs(procs, pid, tid + 1);
    if at.There? {
      ScanSkips(procs, pid, tid + 1);
      hide ScanProcs;
      forall q, u | pid <= q < at.pid && procs[q].valid && Live(SlotAt(procs, q, u)) ensures u <= tid {
        assert !Runnable(SlotAt(procs, q, u)) || u <= tid;
      }
      NotPassed(procs, pid, tid, p, t, at);
    } else {
      FirstOnPath(procs);
      var second := ScanProcs(procs, 0, 0);
      if second.There? && Ahead(procs, second.pid, second.tid, p, t) {
        PathAhead(procs, second.pid, second.tid, p, t);
      }
    }
  }

  lemma NotPassed(procs: Procs, pid: nat, tid: nat, p: nat, t: nat, at: Place)
    requires at.There? && pid <= at.pid < |procs| && procs[at.pid].valid && tid < at.tid
             && Live(SlotAt(procs, at.pid, at.tid))
    requires forall q, u :: pid <= q < at.pid && procs[q].valid && Live(SlotAt(procs, q, u)) ==> u <= tid
    requires !Ahead(procs, pid, tid, p, t)
    ensures at != There(p, t) && !Ahead(procs, at.pid, at.tid, p, t)
  {
    hide Live, SlotAt;
  }

  /** What is ahead of a thread on the path is on the path. */
  lemma PathAhead(procs: Procs, pid: nat, tid: nat, p: nat, t: nat)
    requires OnPath(procs, pid, tid) && Ahead(procs, pid, tid, p, t)
    ensures OnPath(procs, p, t)
  {
    hide Live, SlotAt;
  }

  /** A rescheduling tick, seen from the table it searches. */
  lemma SwitchFinds(s: State)
    requires Sound(s) && s.started && Switching(s)
    ensures NoneBusy(Save(s)) && SameLive(s.procs, Save(s))
    ensures FindIdle(Save(s), s.pid, s.tid + 1) == There(Tick(s).pid, Tick(s).tid)
  {
    TicksKeep(s);
    var s1 := s.(ticks := s.ticks + 1);
    SaveStep(s);
    SaveSameLive(s);
    assert Save(s1) == Save(s);
    hide Sound, Save, FindIdle, SameLive, NoneBusy;
    ReschedStep(s1);
  }

  lemma SwitchNotInTurn(s: State, p: nat, t: nat)
    requires Sound(s) && s.started && Switching(s) && !InTurn(s, p, t)
    ensures !(Tick(s).pid == p && Tick(s).tid == t) && !Ahead(s.procs, Tick(s).pid, Tick(s).tid, p, t)
  {
    var procs, s' := Save(s), Tick(s);
    SwitchFinds(s);
    hide Sound, Save, FindIdle, OnPath, Ahead, SameLive, Tick, NoneBusy;
    SameLivePath(s.procs, procs, p, t);
    SameLiveAhead(s.procs, procs, s.pid, s.tid, p, t);
    NextNotInTurn(procs, s.pid, s.tid, p, t);
    SameLiveAhead(s.procs, procs, s'.pid, s'.tid, p, t);
  }

  /** One event: what is not in turn stays so and is not dispatched. */
  lemma NotInTurnStep(s: State, e: Event, p: nat, t: nat)
    requires Sound(s) && s.started && (e.Timer? || (e.Compute? && WellFormed(e.r))) && !InTurn(s, p, t)
    ensures !InTurn(Step(s, e), p, t) && !(e.Timer? && Switching(s) && Step(s, e).pid == p && Step(s, e).tid == t)
  {
    TickStep(s, e);
    SameTurn(s, e);
    var s' := Step(s, e);
    TimerStep(s);
    hide Sound, Step, OnPath, Ahead, SameLive, Tick, Switching;
    if e.Timer? && Switching(s) {
      SwitchNotInTurn(s, p, t);
    }
    SameLivePath(s.procs, s'.procs, p, t);
    SameLiveAhead(s.procs, s'.procs, s'.pid, s'.tid, p, t);
  }

  lemma {:induction false} OutOfTurnStarves(s: State, es: seq<Event>, p: nat, t: nat)
    requires Sound(s) && s.started && TicksOnly(es) && !InTurn(s, p, t) && !(s.pid == p && s.tid == t)
    ensures !Dispatched(s, es, p, t)
    decreases |es|
  {
    if es != [] {
      TickStep(s, es[0]);
      NotInTurnStep(s, es[0], p, t);
      SameTurn(s, es[0]);
      hide Sound, InTurn, Step, Switching;
      OutOfTurnStarves(Step(s, es[0]), es[1..], p, t);
    }
  }

  lemma SwitchAhead(s: State, p: nat, t: nat)
    requires Sound(s) && s.started && Switching(s) && Ahead(s.procs, s.pid, s.tid, p, t)
    ensures var s' := Tick(s); (s'.pid == p && s'.tid == t) || (s.tid < s'.tid && Ahead(s.procs, s'.pid, s'.tid, p, t))
  {
    var procs, s' := Save(s), Tick(s);
    SwitchFinds(s);
    hide Sound, Save, FindIdle, Ahead, SameLive, Tick, NoneBusy;
    SameLiveAhead(s.procs, procs, s.pid, s.tid, p, t);
    NextAhead(procs, s.pid, s.tid, p, t);
    SameLiveAhead(s.procs, procs, s'.pid, s'.tid, p, t);
  }

  lemma AheadStep(s: State, e: Event, p: nat, t: nat)
    requires Sound(s) && s.started && (e.Timer? || (e.Compute? && WellFormed(e.r)))
             && Ahead(s.procs, s.pid, s.tid, p, t)
    ensures var s' := Step(s, e);
            if e.Timer? && Switching(s) then
              (s'.pid == p && s'.tid == t) || (s.tid < s'.tid && Ahead(s'.procs, s'.pid, s'.tid, p, t))
            else s'.tid == s.tid && Ahead(s'.procs, s'.pid, s'.tid, p, t)
  {
    TickStep(s, e);
    SameTurn(s, e);
    var s' := Step(s, e);
    TimerStep(s);
    hide Sound, Step, Ahead, SameLive, Tick, Switching;
    if e.Timer? && Switching(s) {
      SwitchAhead(s, p, t);
    }
    SameLiveAhead(s.procs, s'.procs, s'.pid, s'.tid, p, t);
  }

  /** What is ahead gets its turn. */
  lemma {:induction false} AheadTurn(s: State, es: seq<Event>, p: nat, t: nat)
    requires Sound(s) && s.started && TicksOnly(es) && Ahead(s.procs, s.pid, s.tid, p, t)
             && Switches(s, es) >= t - s.tid
    ensures Dispatched(s, es, p, t)
    decreases |es|
  {
    assert t > s.tid;
    hide Sound, Step, Ahead, Switching;
    if es != [] {
      TickStep(s, es[0]);
      AheadStep(s, es[0], p, t);
      var s' := Step(s, es[0]);
      if !(es[0].Timer? && Switching(s) && s'.pid == p && s'.tid == t) {
        AheadTurn(s', es[1..], p, t);
      }
    }
  }

  lemma {:induction false} DispatchedAppend(s: State, a: seq<Event>, b: seq<Event>, p: nat, t: nat)
    ensures Dispatched(s, a, p, t) || Dispatched(Run(s, a), b, p, t) ==> Dispatched(s, a + b, p, t)
    decreases |a|
  {
    hide Step;
    if a == [] {
      assert a + b == b;
    } else {
      assert (a + b)[0] == a[0] && (a + b)[1..] == a[1..] + b;
      DispatchedAppend(Step(s, a[0]), a[1..], b, p, t);
    }
  }

  /** A run of ticks keeps what is alive, and a thread that was not dispatched does not run. */
  lemma {:induction false} TicksKeepPath(s: State, es: seq<Event>, p: nat, t: nat)
    requires Sound(s) && s.started && TicksOnly(es)
    ensures var z := Run(s, es);
            && Sound(z) && z.started && (OnPath(z.procs, p, t) <==> OnPath(s.procs, p, t))
            && (!(s.pid == p && s.tid == t) && !Dispatched(s, es, p, t) ==> !(z.pid == p && z.tid == t))
    decreases |es|
  {
    hide Sound, Step, OnPath, SameLive;
    if es != [] {
      TickStep(s, es[0]);
      SameTurn(s, es[0]);
      SameLivePath(s.procs, Step(s, es[0]).procs, p, t);
      TicksKeepPath(Step(s, es[0]), es[1..], p, t);
    }
  }

  lemma {:induction false} TimersNotAlone(s: State, n: nat)
    requires Sound(s) && s.started && !Alone(s)
    ensures var z := Run(s, Timers(n)); Sound(z) && z.started && !Alone(z)
    decreases n
  {
    if n > 0 {
      assert Timers(n)[0] == Timer && Timers(n)[1..] == Timers(n - 1);
      TickStep(s, Timer);
      TickCounts(s);
      hide Sound, Step, Alone;
      TimersNotAlone(Step(s, Timer), n - 1);
    }
  }

  /** Threads on the path get their turn from any state. */
  lemma PathGetsTurn(s: State, p: nat, t: nat)
    requires Sound(s) && s.started && !Alone(s) && OnPath(s.procs, p, t) && !(s.pid == p && s.tid == t)
    ensures var es := Timers(2 * MAX_THREADS) + Timers(2 * MAX_THREADS); TicksOnly(es) && Dispatched(s, es, p, t)
  {
    var a := Timers(2 * MAX_THREADS);
    ManySwitches(s, MAX_THREADS);
    hide Sound, OnPath, Dispatched, Switches;
    PathReached(s, a);
    TicksKeepPath(s, a, p, t);
    TimersNotAlone(s, 2 * MAX_THREADS);
    var z := Run(s, a);
    if !Dispatched(s, a, p, t) {
      ManySwitches(z, MAX_THREADS);
      DistanceBound(z, p, t);
      PathTurn(z, a, p, t);
    }
    DispatchedAppend(s, a, a, p, t);
  }

  lemma AheadGetsTurn(s: State, p: nat, t: nat)
    requires Sound(s) && s.started && !Alone(s) && Ahead(s.procs, s.pid, s.tid, p, t)
    ensures var es := Timers(2 * MAX_THREADS); TicksOnly(es) && Dispatched(s, es, p, t)
  {
    ManySwitches(s, MAX_THREADS);
    AheadBound(s, p, t);
    hide Sound, Ahead, Dispatched, Switches;
    AheadTurn(s, Timers(2 * MAX_THREADS), p, t);
  }

  lemma AheadBound(s: State, p: nat, t: nat)
    requires Sound(s) && Ahead(s.procs, s.pid, s.tid, p, t)
    ensures t < MAX_THREADS
  {
    SlotNonNegative(s.procs, p, t);
  }

  function TimersIn(es: seq<Event>): nat {
    if es == [] then 0 else (if es[0].Timer? then 1 else 0) + TimersIn(es[1..])
  }

  /** More than one process, or more than one thread counted in the first. */
  predicate SeveralThreads(s: State) {
    s.running != 1 || |s.procs| == 0 || s.procs[0].count != 1
  }

  /** Then all ticks but the multiples of ten reschedule. */
  lemma {:induction false} SwitchesOfTicks(s: State, es: seq<Event>)
    requires Sound(s) && s.started && TicksOnly(es) && SeveralThreads(s)
    ensures Switches(s, es) == TimersIn(es) - ((s.ticks + TimersIn(es)) / 10 - s.ticks / 10)
    decreases |es|
  {
    if es != [] {
      TickStep(s, es[0]);
      TickCounts(s);
      CountsOfTicks(s, es[0]);
      hide Sound, Step;
      SwitchesOfTicks(Step(s, es[0]), es[1..]);
    }
  }

  lemma CountsOfTicks(s: State, e: Event)
    requires Sound(s) && s.started && (e.Timer? || (e.Compute? && WellFormed(e.r))) && SeveralThreads(s)
    ensures SeveralThreads(Step(s, e)) && Step(s, e).ticks == s.ticks + if e.Timer? then 1 else 0
  {
    hide Sound, Resched;
    var s1 := s.(ticks := s.ticks + 1);
    FieldsKept(s1);
    CountsKept(s1);
  }

  /** With one process of one thread no tick changes anything but the count of ticks. */
  lemma AloneStays(s: State)
    requires s.started && !SeveralThreads(s)
    ensures Tick(s) == s.(ticks := s.ticks + 1)
  {
  }

  lemma {:induction false} AloneForever(s: State, es: seq<Event>, p: nat, t: nat)
    requires s.started && !SeveralThreads(s) && TicksOnly(es) && !(s.pid == p && s.tid == t)
    ensures !Dispatched(s, es, p, t)
    decreases |es|
  {
    if es != [] {
      AloneStays(s);
      hide Tick;
      AloneForever(Step(s, es[0]), es[1..], p, t);
    }
  }

  /** Who gets a turn, from any state of the scheduler: an idle thread is ever dispatched by the timer if and only if
      more than one thread is counted and its slot number is above every live slot of the valid processes before its
      own, either of all of them or, if it lies above the running thread, of those from the running one on. */
  lemma DispatchedIff(s: State, p: nat, t: nat)
    requires Sound(s) && s.started && p < |s.procs| && s.procs[p].valid && Runnable(SlotAt(s.procs, p, t))
    ensures SeveralThreads(s) && InTurn(s, p, t) <==> exists es :: TicksOnly(es) && Dispatched(s, es, p, t)
  {
    NotBusyNow(s, p, t);
    hide Sound, OnPath, Ahead, Dispatched, TicksOnly;
    if !SeveralThreads(s) {
      forall es | TicksOnly(es) ensures !Dispatched(s, es, p, t) {
        AloneForever(s, es, p, t);
      }
    } else if OnPath(s.procs, p, t) {
      PathGetsTurn(s, p, t);
    } else if Ahead(s.procs, s.pid, s.tid, p, t) {
      AheadGetsTurn(s, p, t);
    } else {
      forall es | TicksOnly(es) ensures !Dispatched(s, es, p, t) {
        OutOfTurnStarves(s, es, p, t);
      }
    }
  }
}
