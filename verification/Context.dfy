/** Saving and restoring the registers of a thread: `timer_irq_stub` (kernel/src/asm/isr.asm) and `load_context`
    (kernel/src/asm/context.asm). Memory is addressed in bytes and holds a quad-word at each multiple of eight that
    these routines use. */
module Context {

  /** What is restored: the general registers in the order rax, rbx, rcx, rdx, rsi, rdi, rbp, r8 to r15, and the rest
      of the register file. `ss` and `ds` are loaded from one value. */
  datatype Registers = Registers(gp: seq<nat>, rip: nat, rsp: nat, rflags: nat, cs: nat, ss: nat, ds: nat)

  const GP: nat := 15

  ghost predicate WellFormed(r: Registers) {
    |r.gp| == GP
  }

  type Words = map<nat, nat>

  function Rd(m: Words, a: nat): nat {
    if a in m then m[a] else 0
  }

  /** `n` quad-words from `a` on. */
  function Block(m: Words, a: nat, n: nat): (r: seq<nat>)
    ensures |r| == n && forall k :: 0 <= k < n ==> r[k] == Rd(m, a + 8 * k)
  {
    if n == 0 then [] else Block(m, a, n - 1) + [Rd(m, a + 8 * (n - 1))]
  }

  /** The twenty quad-words at the start of a `thread_t`. */
  const CONTEXT: nat := 20

  /** What the stub saves: the data segment is computed from the code segment. */
  function Saved(r: Registers): seq<nat> {
    r.gp + [r.rip, r.rsp, r.rflags, r.cs, r.cs + 8]
  }

  /** What `load_context` makes of twenty quad-words. */
  function Restored(w: seq<nat>): Registers
    requires |w| == CONTEXT
  {
    Registers(w[..GP], w[15], w[16], w[17], w[18], w[19], w[19])
  }

  /** A thread resumes with exactly the registers it had if and only if its data and stack segments are the ones
      after its code segment. */
  lemma SavedRestored(r: Registers)
    requires WellFormed(r)
    ensures |Saved(r)| == CONTEXT
    ensures Restored(Saved(r)) == r <==> r.ds == r.cs + 8 && r.ss == r.cs + 8
  {
    assert Saved(r)[..GP] == r.gp;
  }

  /** Pushes `regs` one after the other; the last is at the new stack pointer. */
  ghost predicate Pushed(m: Words, sp: nat, regs: seq<nat>) {
    forall k :: 0 <= k < |regs| ==> Rd(m, sp + 8 * k) == regs[|regs| - 1 - k]
  }

  /** Only addresses in `[a, b)` changed. */
  ghost predicate OnlyIn(m: Words, m': Words, a: nat, b: nat) {
    forall x: nat {:trigger Rd(m', x)} :: !(a <= x < b) ==> Rd(m', x) == Rd(m, x)
  }

  class Core {
    var gp: seq<nat>
    var rip: nat
    var rsp: nat
    var rflags: nat
    var cs: nat
    var ss: nat
    var ds: nat
    var mem: Words

    /** Where the static `state` block is. */
    const state: nat

    constructor (r: Registers, mem: Words, state: nat)
      ensures Now() == r && this.mem == mem && this.state == state
    {
      gp, rip, rsp, rflags, cs, ss, ds := r.gp, r.rip, r.rsp, r.rflags, r.cs, r.ss, r.ds;
      this.mem, this.state := mem, state;
    }

    function Now(): Registers
      reads this
    {
      Registers(gp, rip, rsp, rflags, cs, ss, ds)
    }

    method Push(x: nat)
      requires rsp >= 8
      modifies this`rsp, this`mem
      ensures rsp == old(rsp) - 8 && Rd(mem, rsp) == x && OnlyIn(old(mem), mem, rsp, rsp + 1)
    {
      rsp := rsp - 8;
      mem := mem[rsp := x];
    }

    method Pop() returns (x: nat)
      modifies this`rsp
      ensures x == Rd(mem, old(rsp)) && rsp == old(rsp) + 8
    {
      x := Rd(mem, rsp);
      rsp := rsp + 8;
    }

    /** The processor's part of an interrupt: it pushes five quad-words on the stack `top`, with the return address
        last. */
    method Interrupt(top: nat)
      requires top >= 40
      modifies this`rsp, this`mem
      ensures rsp == top - 40 && OnlyIn(old(mem), mem, top - 40, top)
      ensures Rd(mem, rsp) == rip && Rd(mem, rsp + 8) == cs && Rd(mem, rsp + 16) == rflags
      ensures Rd(mem, rsp + 24) == old(rsp) && Rd(mem, rsp + 32) == ss
    {
      hide Rd;
      var was := rsp;
      rsp := top;
      Push(ss);
      Push(was);
      Push(rflags);
      Push(cs);
      Push(rip);
    }

    /** `pushaq`. */
    method PushAll()
      requires |gp| == GP && rsp >= 120
      modifies this`rsp, this`mem
      ensures rsp == old(rsp) - 120 && Pushed(mem, rsp, gp) && OnlyIn(old(mem), mem, rsp, old(rsp))
    {
      hide Rd;
      var k := 0;
      while k < GP
        invariant k <= GP && rsp == old(rsp) - 8 * k
        invariant Pushed(mem, rsp, gp[..k]) && OnlyIn(old(mem), mem, rsp, old(rsp))
      {
        ghost var before, sp := mem, rsp;
        Push(gp[k]);
        assert forall j :: 0 <= j < k ==> Rd(mem, sp + 8 * j) == Rd(before, sp + 8 * j);
        PushedMore(before, mem, sp, gp[..k], gp[k]);
        assert gp[..k + 1] == gp[..k] + [gp[k]];
        k := k + 1;
      }
      assert gp[..GP] == gp;
    }

    /** `popaq`. */
    method PopAll(ghost regs: seq<nat>)
      requires |gp| == GP && |regs| == GP && Pushed(mem, rsp, regs)
      modifies this`rsp, this`gp
      ensures rsp == old(rsp) + 120 && gp == regs
    {
      var k: nat := GP;
      while k > 0
        invariant k <= GP && |gp| == GP && rsp == old(rsp) + 8 * (GP - k) && gp[k..] == regs[k..]
      {
        k := k - 1;
        assert Rd(mem, old(rsp) + 8 * (GP - 1 - k)) == regs[GP - 1 - (GP - 1 - k)];
        var x := Pop();
        gp := gp[k := x];
        assert gp[k..] == [x] + gp[k + 1..] && regs[k..] == [regs[k]] + regs[k + 1..];
      }
      assert gp[0..] == gp && regs[0..] == regs;
    }

    /** `iretq`. */
    method Iretq()
      modifies this`rsp, this`rip, this`cs, this`rflags, this`ss
      ensures rip == Rd(mem, old(rsp)) && cs == Rd(mem, old(rsp) + 8) && rflags == Rd(mem, old(rsp) + 16)
      ensures rsp == Rd(mem, old(rsp) + 24) && ss == Rd(mem, old(rsp) + 32)
    {
      rip := Pop();
      cs := Pop();
      rflags := Pop();
      var sp := Pop();
      ss := Pop();
      rsp := sp;
    }

    method Store(a: nat, x: nat)
      modifies this`mem
      ensures Rd(mem, a) == x && OnlyIn(old(mem), mem, a, a + 1)
    {
      mem := mem[a := x];
    }

    /** `mov rax, [src]` and `mov [dst], rax`. */
    method Copy(src: nat, dst: nat)
      requires |gp| == GP
      modifies this`mem, this`gp
      ensures Rd(mem, dst) == Rd(old(mem), src) && OnlyIn(old(mem), mem, dst, dst + 1)
              && gp == old(gp)[0 := Rd(old(mem), src)]
    {
      gp := gp[0 := Rd(mem, src)];
      mem := mem[dst := gp[0]];
    }

    /** The first stores of `timer_irq_stub`: r15 becomes the pointer to the block. */
    method SaveGeneral()
      requires |gp| == GP
      modifies this`mem, this`gp
      ensures |gp| == GP && OnlyIn(old(mem), mem, state, state + 112)
      ensures forall j :: 0 <= j < 14 ==> Rd(mem, state + 8 * j) == old(gp[j])
    {
      hide Rd;
      gp := gp[14 := state];
      var k := 0;
      while k < 14
        invariant k <= 14 && gp == old(gp)[14 := state] && OnlyIn(old(mem), mem, state, state + 112)
        invariant forall j :: 0 <= j < k ==> Rd(mem, state + 8 * j) == old(gp[j])
      {
        Store(state + 8 * k, gp[k]);
        k := k + 1;
      }
    }

    /** The rest comes from the stack, through rax. */
    method SaveFrame()
      requires |gp| == GP && (rsp + 160 <= state || state + 160 <= rsp)
      modifies this`mem, this`gp
      ensures |gp| == GP && OnlyIn(old(mem), mem, state + 112, state + 160)
      ensures Rd(mem, state + 112) == Rd(old(mem), rsp) && Rd(mem, state + 120) == Rd(old(mem), rsp + 120)
      ensures Rd(mem, state + 128) == Rd(old(mem), rsp + 144) && Rd(mem, state + 136) == Rd(old(mem), rsp + 136)
      ensures Rd(mem, state + 144) == Rd(old(mem), rsp + 128) && Rd(mem, state + 152) == Rd(old(mem), rsp + 128) + 8
    {
      hide Rd;
      Copy(rsp, state + 112);
      Copy(rsp + 120, state + 120);
      Copy(rsp + 128, state + 144);
      gp := gp[0 := gp[0] + 8];
      Store(state + 152, gp[0]);
      Copy(rsp + 136, state + 136);
      Copy(rsp + 144, state + 128);
    }

    /** The stub up to the call of `timer_irq`: the block has the interrupted registers, and so has the stack. */
    method SaveState(ghost r: Registers)
      requires WellFormed(r) && gp == r.gp && Pushed(mem, rsp, r.gp) && FrameAt(mem, rsp + 120, r)
      requires rsp + 160 <= state || state + 160 <= rsp
      modifies this`mem, this`gp
      ensures |gp| == GP && Block(mem, state, CONTEXT) == Saved(r) && OnlyIn(old(mem), mem, state, state + 160)
    {
      ghost var m0 := mem;
      SaveGeneral();
      ghost var m1 := mem;
      SaveFrame();
      SavedBlock(m0, m1, mem, state, rsp, r);
    }

    /** `timer_irq_stub` up to the call, from the moment of the interrupt. */
    method TimerIrqEntry(top: nat)
      requires |gp| == GP && top >= 160 && (top <= state || state + 160 <= top - 160)
      modifies this`rsp, this`mem, this`gp
      ensures rsp == top - 160 && |gp| == GP && Block(mem, state, CONTEXT) == Saved(old(Now()))
      ensures Pushed(mem, rsp, old(gp)) && FrameAt(mem, rsp + 120, old(Now()))
    {
      ghost var r := Now();
      Interrupt(top);
      ghost var m0 := mem;
      PushAll();
      FrameStays(m0, mem, rsp + 120, rsp, rsp + 120, r);
      ghost var m1 := mem;
      SaveState(r);
      FrameStays(m1, mem, rsp + 120, state, state + 160, r);
      PushedStays(m1, mem, rsp, state, state + 160, r.gp);
    }

    /** The end of `timer_irq_stub`, when `timer_irq` returns: whatever it did to the registers, the stack still has
        what was pushed. */
    method TimerIrqExit(ghost r: Registers)
      requires WellFormed(r) && |gp| == GP && Pushed(mem, rsp, r.gp) && FrameAt(mem, rsp + 120, r) && ds == r.ds
      modifies this
      ensures Now() == r
    {
      PopAll(r.gp);
      Iretq();
    }

    /** `load_context` of the thread at `thread`, on the stack at hand. */
    method LoadContext(thread: nat)
      requires |gp| == GP && rsp >= 40 && (rsp <= thread || thread + 160 <= rsp - 40)
      modifies this
      ensures Now() == Restored(Block(old(mem), thread, CONTEXT))
    {
      hide Rd, Block;
      ghost var w := Block(mem, thread, CONTEXT);
      ghost var m0, sp := mem, rsp;
      assert forall k :: 0 <= k < CONTEXT ==> w[k] == Rd(m0, thread + 8 * k);
      var seg := Rd(mem, thread + 152);
      assert seg == w[19];
      Push(seg);
      ds := seg;
      PushFrom(thread + 128, m0, thread, sp);
      PushFrom(thread + 136, m0, thread, sp);
      PushFrom(thread + 144, m0, thread, sp);
      PushFrom(thread + 120, m0, thread, sp);
      BlockStays(m0, mem, thread, sp - 40, sp);
      gp := Block(mem, thread, GP);
      assert gp == w[..GP];
      Iretq();
    }

    /** Push a quad-word of the thread. */
    method PushFrom(a: nat, ghost m0: Words, ghost thread: nat, ghost top: nat)
      requires top - 40 <= rsp - 8 && rsp <= top && OnlyIn(m0, mem, rsp, top) && thread <= a < thread + 160
      requires top <= thread || thread + 160 <= top - 40
      requires top >= 40
      modifies this`rsp, this`mem
      ensures rsp == old(rsp) - 8 && Rd(mem, rsp) == Rd(m0, a) && OnlyIn(old(mem), mem, rsp, rsp + 1)
              && OnlyIn(m0, mem, rsp, top)
    {
      hide Rd;
      var x := Rd(mem, a);
      Push(x);
    }
  }

  /** The five quad-words of an interrupt frame. */
  ghost predicate FrameAt(m: Words, a: nat, r: Registers) {
    Rd(m, a) == r.rip && Rd(m, a + 8) == r.cs && Rd(m, a + 16) == r.rflags && Rd(m, a + 24) == r.rsp
        && Rd(m, a + 32) == r.ss
  }

  lemma FrameStays(m: Words, m': Words, a: nat, lo: nat, hi: nat, r: Registers)
    requires FrameAt(m, a, r) && OnlyIn(m, m', lo, hi) && (a + 40 <= lo || hi <= a)
    ensures FrameAt(m', a, r)
  {
  }

  lemma PushedStays(m: Words, m': Words, sp: nat, lo: nat, hi: nat, regs: seq<nat>)
    requires Pushed(m, sp, regs) && OnlyIn(m, m', lo, hi) && (sp + 8 * |regs| <= lo || hi <= sp)
    ensures Pushed(m', sp, regs)
  {
    forall k | 0 <= k < |regs| ensures Rd(m', sp + 8 * k) == regs[|regs| - 1 - k] {
      assert Rd(m', sp + 8 * k) == Rd(m, sp + 8 * k);
    }
  }

  lemma BlockStays(m: Words, m': Words, a: nat, lo: nat, hi: nat)
    requires OnlyIn(m, m', lo, hi) && (a + 160 <= lo || hi <= a)
    ensures Block(m', a, CONTEXT) == Block(m, a, CONTEXT)
    ensures Block(m', a, GP) == Block(m, a, CONTEXT)[..GP]
  {
    forall k | 0 <= k < CONTEXT ensures Rd(m', a + 8 * k) == Rd(m, a + 8 * k) {
    }
  }

  lemma SavedBlock(m0: Words, m1: Words, m2: Words, state: nat, sp: nat, r: Registers)
    requires WellFormed(r) && Pushed(m0, sp, r.gp) && FrameAt(m0, sp + 120, r)
             && (sp + 160 <= state || state + 160 <= sp)
    requires OnlyIn(m0, m1, state, state + 112) && forall j :: 0 <= j < 14 ==> Rd(m1, state + 8 * j) == r.gp[j]
    requires OnlyIn(m1, m2, state + 112, state + 160)
    requires Rd(m2, state + 112) == Rd(m1, sp) && Rd(m2, state + 120) == Rd(m1, sp + 120)
    requires Rd(m2, state + 128) == Rd(m1, sp + 144) && Rd(m2, state + 136) == Rd(m1, sp + 136)
    requires Rd(m2, state + 144) == Rd(m1, sp + 128) && Rd(m2, state + 152) == Rd(m1, sp + 128) + 8
    ensures Block(m2, state, CONTEXT) == Saved(r) && OnlyIn(m0, m2, state, state + 160)
  {
    hide Rd;
    assert Rd(m0, sp + 8 * 0) == r.gp[14];
    FrameStays(m0, m1, sp + 120, state, state + 112, r);
    forall k | 0 <= k < CONTEXT ensures Rd(m2, state + 8 * k) == Saved(r)[k] {
      if k < 14 {
        assert Rd(m2, state + 8 * k) == Rd(m1, state + 8 * k);
      }
    }
  }

  lemma PushedMore(m: Words, m': Words, sp: nat, regs: seq<nat>, x: nat)
    requires Pushed(m, sp, regs) && sp >= 8 && Rd(m', sp - 8) == x
    requires forall j :: 0 <= j < |regs| ==> Rd(m', sp + 8 * j) == Rd(m, sp + 8 * j)
    ensures Pushed(m', sp - 8, regs + [x])
  {
    var all := regs + [x];
    forall k | 0 <= k < |all| ensures Rd(m', sp - 8 + 8 * k) == all[|all| - 1 - k] {
      if k > 0 {
        assert sp - 8 + 8 * k == sp + 8 * (k - 1);
        assert Rd(m', sp + 8 * (k - 1)) == regs[|regs| - 1 - (k - 1)];
      }
    }
  }
}
