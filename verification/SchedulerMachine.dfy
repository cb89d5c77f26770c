/** The scheduler as it runs: tables and processor fields changed in place (kernel/src/sys/sched.c,
    kernel/src/firmware/timer.c). */
module SchedulerMachine {
  import opened Context
  import opened Scheduler

  class Kernel {
    var procs: Procs
    var pid: nat      // cpus[0].pid
    var tid: nat      // cpus[0].tid
    var started: bool // cpus[0].sys_ready
    var running: nat
    var ticks: nat
    var live: Registers
    var build: Build

    constructor (s: State)
      ensures View() == s
    {
      procs, pid, tid, started := s.procs, s.pid, s.tid, s.started;
      running, ticks, live, build := s.running, s.ticks, s.live, s.build;
    }

    function View(): State
      reads this
    {
      State(procs, pid, tid, started, running, ticks, live, build)
    }

    /** `find_idle`. A pointer to a freed thread must not be followed. */
    method FindIdle() returns (at: Place)
      requires forall p, t :: 0 <= p < |procs| && 0 <= t < |procs[p].threads| ==> !procs[p].threads[t].Dangling?
      modifies this`pid, this`tid
      ensures at == Scheduler.FindIdle(procs, old(pid), old(tid))
      ensures if at.There? then pid == at.pid && tid == at.tid else pid == old(pid) && tid == old(tid)
    {
      var p, t, tries := pid, tid, 0;
      while tries < 2
        invariant tries <= 2 && pid == old(pid) && tid == old(tid)
        invariant tries == 0 ==> p == pid && t == tid
        invariant tries > 0 ==> p == 0 && t == 0 && ScanProcs(procs, pid, tid).Nowhere?
        invariant tries == 2 ==> ScanProcs(procs, 0, 0).Nowhere?
      {
        at := ScanFrom(p, t);
        if at.There? {
          pid, tid := at.pid, at.tid;
          return;
        }
        tries, p, t := tries + 1, 0, 0;
      }
      at := Nowhere;
    }

    /** One pass over the processes. */
    method ScanFrom(p: nat, t: nat) returns (at: Place)
      requires forall p, t :: 0 <= p < |procs| && 0 <= t < |procs[p].threads| ==> !procs[p].threads[t].Dangling?
      ensures at == ScanProcs(procs, p, t)
    {
      var i := p;
      while i < |procs|
        invariant p <= i && ScanProcs(procs, i, t) == ScanProcs(procs, p, t)
      {
        if procs[i].valid {
          var j := t;
          while j < |procs[i].threads|
            invariant t <= j && ScanThreads(procs[i].threads, j) == ScanThreads(procs[i].threads, t)
          {
            if procs[i].threads[j].Held? && procs[i].threads[j].thread.status == Idle {
              return There(i, j);
            }
            j := j + 1;
          }
        }
        i := i + 1;
      }
      return Nowhere;
    }

    /** `resched`, with the interrupted registers. */
    method Resched()
      requires Sound(View())
      modifies this
      ensures View() == Scheduler.Resched(old(View()))
    {
      hide Scheduler.FindIdle, Saved, Restored, Sound;
      ghost var s := View();
      if started && running == 1 && |procs| > 0 && procs[0].count == 1 {
        return;
      }
      ReschedStep(s);
      SaveSafe(s);
      if started {
        procs := Put(procs, pid, tid, Held(Thread(Saved(live), Idle)));
        tid := tid + 1;
      }
      started := true;
      var at := FindIdle();
      if at.There? {
        var thread := SlotAt(procs, at.pid, at.tid).thread;
        procs := Put(procs, at.pid, at.tid, Held(thread.(status := Busy)));
        live := Restored(thread.ctx);
      }
    }

    /** `timer_irq`, once the system is ready. */
    method TimerIrq()
      requires Sound(View())
      modifies this
      ensures View() == Tick(old(View()))
    {
      hide Sound;
      TicksKeep(View());
      ticks := ticks + 1;
      if ticks % 10 != 0 {
        Resched();
      }
    }

    /** `find_thread`. */
    method FindSlot() returns (tid: nat)
      requires |procs| > 0 && forall t :: 0 <= t < |procs[0].threads| ==> !procs[0].threads[t].Dangling?
      ensures tid == FindThread(procs[0].threads, 0)
    {
      tid := 0;
      while tid < |procs[0].threads|
        invariant tid <= |procs[0].threads| && FindThread(procs[0].threads, tid) == FindThread(procs[0].threads, 0)
      {
        if procs[0].threads[tid].Empty? || procs[0].threads[tid].thread.status == Unused {
          return;
        }
        tid := tid + 1;
      }
    }
  }

  /** After saving, every pointer may be followed, and the thread to be dispatched is whole. */
  lemma SaveSafe(s: State)
    requires Sound(s)
    ensures var procs := Save(s);
            && (forall p, t :: 0 <= p < |procs| && 0 <= t < |procs[p].threads| ==> !procs[p].threads[t].Dangling?)
            && forall p, t :: Runnable(SlotAt(procs, p, t)) ==> |SlotAt(procs, p, t).thread.ctx| == CONTEXT
  {
    SaveStep(s);
    hide Sound, Save;
    var procs := Save(s);
    forall p, t | 0 <= p < |procs| && 0 <= t < |procs[p].threads| ensures !procs[p].threads[t].Dangling? {
      assert Whole(SlotAt(procs, p, t));
    }
    forall p, t | Runnable(SlotAt(procs, p, t)) ensures |SlotAt(procs, p, t).thread.ctx| == CONTEXT {
      assert Whole(SlotAt(procs, p, t));
    }
  }
}
