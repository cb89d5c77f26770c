/** Any number of CPUs running the spinlock (kernel/src/asm/cpu.asm) and the allocators it protects
    (pmm.c, vmm.c, mm.c), one step at a time in any order.

    A step is one instruction of `acquire`/`release`, one look at a page table, one change of the frame
    bitmap or of a page-table entry. The page tables are the flat map that `PageTable` refines. */
module Concurrency {

  datatype Lock = PmmLock | VmmLock | HeapLock

  /** What a frame is allocated for: a caller of `pmm_alloc_page`, page `i` of a heap range, or the next table that
      `vmm_map_page` misses on the way to that page, whose own frame is `f`, after `k` others. */
  datatype Use = Bare | Backing(ptr: nat, n: nat, i: nat) | Table(ptr: nat, n: nat, i: nat, f: nat, k: nat)

  /** Where a CPU is. `next` is where it goes next. */
  datatype Pc =
    | Idle
    | Acquire(l: Lock, tested: bool, next: Pc)   // `bt` then `lock bts`
    | Release(l: Lock, next: Pc)
    | FindFrame(use: Use)                        // pmm_find_page
    | MarkFrame(use: Use, f: nat)                // pmm_mark_page_used
    | Descend(ptr: nat, n: nat, i: nat, f: nat, k: nat)  // vmm_map_page in vmm_alloc, at a table
    | MapPage(ptr: nat, n: nat, i: nat, f: nat)  // its last store
    | Hang                                       // while(1) in vmm_map_page, or its fault
    | Check(n: nat)                              // the test of the counters in vmm_alloc
    | Probe(n: nat, ptr: nat, i: nat)            // one look of vmm_find
    | Loop(ptr: nat, n: nat, i: nat)             // head of the loop of vmm_alloc
    | Finish(ptr: nat, n: nat)                   // kmalloc clears the block and stores its header
    | FreeLoop(ptr: nat, n: nat, i: nat)         // head of the loop of vmm_free
    | ClearFrame(f: nat, next: Pc)               // pmm_mark_page_free
    | Unmap(ptr: nat, n: nat, i: nat)            // vmm_map_page(v, 0, 0) in vmm_free

  /** `held` are the locks whose bit this CPU set and has not cleared. */
  datatype Cpu = Cpu(pc: Pc, held: set<Lock>)

  /** Who answers for a frame, and for a mapped page. */
  datatype Owner = ByCpu(c: nat) | ByPage(p: nat) | ByTables
  datatype Who = Live(ptr: nat) | Making(c: nat) | Dying(c: nat) | Cleared(c: nat) | Leaked

  /** `taken` are the mutex words, `used` the bitmap, `pages` the page table of the heap area, `live` the
      blocks handed out. `owner` and `who` only record what happened; no step looks at them. */
  datatype State = State(cpus: map<nat, Cpu>, taken: set<Lock>, used: set<nat>, pages: map<nat, nat>,
                         live: map<nat, nat>, owner: map<nat, Owner>, who: map<nat, Who>)

  const HEAP_START: nat := 0xF_FFF8_1000_0000   // KERNEL_HEAP as a page number

  /** What the scheduler of steps may decide: the call an idle CPU makes, the outcome of a racy test,
      the free frame found, whether a table is missing and whether the last one made lies in the window. */
  datatype Choice =
    | CallAlloc | CallFree(f: nat) | CallMalloc(n: nat) | CallKfree(ptr: nat)
    | Yes | No | Found(f: nat) | NotFound | Outside

  function Mark(who: map<nat, Who>, ptr: nat, n: nat, w: Who): map<nat, Who> {
    map p | p in who :: if ptr <= p < ptr + n then w else who[p]
  }

  function Drop<T>(m: map<nat, T>, k: nat): map<nat, T> {
    m - {k}
  }

  function Goto(s: State, c: nat, pc: Pc): State
    requires c in s.cpus
  {
    s.(cpus := s.cpus[c := s.cpus[c].(pc := pc)])
  }

  /** `acquire`: look at the bit, then set it atomically and start over if somebody was faster. */
  function StepAcquire(s: State, c: nat, l: Lock, tested: bool, next: Pc): State
    requires c in s.cpus
  {
    if !tested then Goto(s, c, Acquire(l, l !in s.taken, next))
    else if l in s.taken then Goto(s, c, Acquire(l, false, next))
    else s.(taken := s.taken + {l}, cpus := s.cpus[c := Cpu(next, s.cpus[c].held + {l})])
  }

  function StepRelease(s: State, c: nat, l: Lock, next: Pc): State
    requires c in s.cpus
  {
    s.(taken := s.taken - {l}, cpus := s.cpus[c := Cpu(next, s.cpus[c].held - {l})])
  }

  function StepIdle(s: State, c: nat, choice: Choice): State
    requires c in s.cpus
  {
    match choice
    case CallAlloc => Goto(s, c, Acquire(PmmLock, false, FindFrame(Bare)))
    case CallFree(f) =>
      if f in s.owner && s.owner[f] == ByCpu(c) then Goto(s, c, Acquire(PmmLock, false, ClearFrame(f, Idle))) else s
    case CallMalloc(n) => if n > 0 then Goto(s, c, Acquire(HeapLock, false, Check(n))) else s
    case CallKfree(ptr) =>
      if ptr in s.live then
        Goto(s.(live := s.live - {ptr}, who := Mark(s.who, ptr, s.live[ptr], Dying(c))), c,
             Acquire(VmmLock, false, FreeLoop(ptr, s.live[ptr], 0)))
      else s
    case _ => s
  }

  /** The NULL path of `pmm_alloc_page` does not release the mutex. */
  function StepFind(s: State, c: nat, use: Use, choice: Choice): State
    requires c in s.cpus
  {
    match choice
    case Found(f) => if f !in s.used then Goto(s, c, MarkFrame(use, f)) else s
    case NotFound =>
      (match use
       case Bare => Goto(s, c, Idle)
       case Backing(ptr, n, i) =>
         Goto(s.(who := Mark(s.who, ptr, i, Leaked)), c, Release(VmmLock, Release(HeapLock, Idle)))
       case Table(_, _, _, _, _) => Goto(s, c, Hang))
    case _ => s
  }

  /** What a frame is handed to, and where the CPU goes on. */
  function OwnerFor(use: Use, c: nat): Owner {
    if use.Table? then ByTables else ByCpu(c)
  }

  function AfterMark(use: Use, f: nat): Pc {
    match use
    case Bare => Idle
    case Backing(ptr, n, i) => Descend(ptr, n, i, f, 0)
    case Table(ptr, n, i, g, k) => Descend(ptr, n, i, g, k + 1)
  }

  function StepMark(s: State, c: nat, use: Use, f: nat): State
    requires c in s.cpus
  {
    Goto(s.(used := s.used + {f}, owner := s.owner[f := OwnerFor(use, c)]), c, Release(PmmLock, AfterMark(use, f)))
  }

  /** `vmm_map_page` meets a missing table, at most three times, or the entry of the page; or it faults when it clears
      the table it has just made. */
  function StepDescend(s: State, c: nat, ptr: nat, n: nat, i: nat, f: nat, k: nat, choice: Choice): State
    requires c in s.cpus
  {
    if choice == Yes && k < 3 then Goto(s, c, Acquire(PmmLock, false, FindFrame(Table(ptr, n, i, f, k))))
    else if choice == Outside && k > 0 then Goto(s, c, Hang)
    else Goto(s, c, MapPage(ptr, n, i, f))
  }

  function StepMap(s: State, c: nat, ptr: nat, n: nat, i: nat, f: nat): State
    requires c in s.cpus
  {
    Goto(s.(pages := s.pages[ptr + i := f], owner := s.owner[f := ByPage(ptr + i)], who := s.who[ptr + i := Making(c)]),
         c, Loop(ptr, n, i + 1))
  }

  function StepFinish(s: State, c: nat, ptr: nat, n: nat): State
    requires c in s.cpus
  {
    Goto(s.(live := s.live[ptr := n], who := Mark(s.who, ptr, n, Live(ptr))), c, Release(HeapLock, Idle))
  }

  function StepClear(s: State, c: nat, f: nat, next: Pc): State
    requires c in s.cpus
  {
    var s' := s.(used := s.used - {f}, owner := Drop(s.owner, f));
    match next
    case Unmap(ptr, n, i) => Goto(s'.(who := Mark(s.who, ptr + i, 1, Cleared(c))), c, Release(PmmLock, next))
    case _ => Goto(s', c, Release(PmmLock, next))
  }

  function StepUnmap(s: State, c: nat, ptr: nat, n: nat, i: nat): State
    requires c in s.cpus
  {
    Goto(s.(pages := Drop(s.pages, ptr + i), who := Drop(s.who, ptr + i)), c, FreeLoop(ptr, n, i + 1))
  }

  /** `vmm_find`, which restarts at the next page when it meets a mapped one. */
  function StepProbe(s: State, c: nat, n: nat, ptr: nat, i: nat): State
    requires c in s.cpus
  {
    if ptr + i in s.pages then Goto(s, c, Probe(n, ptr + 1, 0))
    else if i + 1 >= n then Goto(s, c, Acquire(VmmLock, false, Loop(ptr, n, 0)))
    else Goto(s, c, Probe(n, ptr, i + 1))
  }

  /** One step of CPU `c`. */
  function Step(s: State, c: nat, choice: Choice): State {
    if c !in s.cpus then s
    else match s.cpus[c].pc
      case Idle => StepIdle(s, c, choice)
      case Acquire(l, tested, next) => StepAcquire(s, c, l, tested, next)
      case Release(l, next) => StepRelease(s, c, l, next)
      case FindFrame(use) => StepFind(s, c, use, choice)
      case MarkFrame(use, f) => StepMark(s, c, use, f)
      case Descend(ptr, n, i, f, k) => StepDescend(s, c, ptr, n, i, f, k, choice)
      case MapPage(ptr, n, i, f) => StepMap(s, c, ptr, n, i, f)
      case Hang => s
      case Check(n) => Goto(s, c, if choice == Yes then Probe(n, HEAP_START, 0) else Release(HeapLock, Idle))
      case Probe(n, ptr, i) => StepProbe(s, c, n, ptr, i)
      case Loop(ptr, n, i) =>
        if i < n then Goto(s, c, Acquire(PmmLock, false, FindFrame(Backing(ptr, n, i))))
        else Goto(s, c, Release(VmmLock, Finish(ptr, n)))
      case Finish(ptr, n) => StepFinish(s, c, ptr, n)
      case FreeLoop(ptr, n, i) =>
        if i >= n then Goto(s, c, Release(VmmLock, Idle))
        else if ptr + i in s.pages
            then Goto(s, c, Acquire(PmmLock, false, ClearFrame(s.pages[ptr + i], Unmap(ptr, n, i))))
        else Goto(s, c, FreeLoop(ptr, n, i + 1))
      case ClearFrame(f, next) => StepClear(s, c, f, next)
      case Unmap(ptr, n, i) => StepUnmap(s, c, ptr, n, i)
  }

  /** A run: which CPU steps, and what it chooses. */
  function Run(s: State, schedule: seq<(nat, Choice)>): State
    decreases |schedule|
  {
    if schedule == [] then s else Run(Step(s, schedule[0].0, schedule[0].1), schedule[1..])
  }

  predicate Initial(s: State) {
    && (forall c :: c in s.cpus ==> s.cpus[c] == Cpu(Idle, {}))
    && s.taken == {} && s.pages == map[] && s.live == map[] && s.owner == map[] && s.who == map[]
  }

  // ----- What a program counter stands for -----

  /** The locks that the code at `pc` runs under. */
  function Needs(pc: Pc): set<Lock> {
    match pc
    case Idle => {}
    case Acquire(l, _, next) => Needs(next) - {l}
    case Release(l, next) => Needs(next) + {l}
    case FindFrame(use) => if use.Bare? then {PmmLock} else {PmmLock, VmmLock, HeapLock}
    case MarkFrame(use, _) => if use.Bare? then {PmmLock} else {PmmLock, VmmLock, HeapLock}
    case Descend(_, _, _, _, _) => {VmmLock, HeapLock}
    case MapPage(_, _, _, _) => {VmmLock, HeapLock}
    case Hang => {}
    case Check(_) => {HeapLock}
    case Probe(_, _, _) => {HeapLock}
    case Loop(_, _, _) => {VmmLock, HeapLock}
    case Finish(_, _) => {HeapLock}
    case FreeLoop(_, _, _) => {VmmLock}
    case ClearFrame(_, next) => Needs(next) + {PmmLock}
    case Unmap(_, _, _) => {VmmLock}
  }

  /** The heap range a CPU works on. */
  datatype Claim =
    | NoClaim
    | Scan(ptr: nat, i: nat)                            // pages before ptr + i were seen unmapped
    | Build(ptr: nat, n: nat, i: nat)                   // the first i of n pages are mapped
    | Tear(ptr: nat, n: nat, i: nat, cleared: bool)     // the first i are gone; the frame of page i may be

  function ClaimOfUse(use: Use): Claim {
    match use
    case Bare => NoClaim
    case Backing(ptr, n, i) => Build(ptr, n, i)
    case Table(ptr, n, i, _, _) => Build(ptr, n, i)
  }

  function ClaimOf(pc: Pc): Claim {
    match pc
    case Acquire(_, _, next) => ClaimOf(next)
    case Release(_, next) => ClaimOf(next)
    case FindFrame(use) => ClaimOfUse(use)
    case MarkFrame(use, _) => ClaimOfUse(use)
    case Descend(ptr, n, i, _, _) => Build(ptr, n, i)
    case MapPage(ptr, n, i, _) => Build(ptr, n, i)
    case Probe(_, ptr, i) => Scan(ptr, i)
    case Loop(ptr, n, i) => Build(ptr, n, i)
    case Finish(ptr, n) => Build(ptr, n, n)
    case FreeLoop(ptr, n, i) => Tear(ptr, n, i, false)
    case Unmap(ptr, n, i) => Tear(ptr, n, i, true)
    case ClearFrame(_, next) => if next.Unmap? then Tear(next.ptr, next.n, next.i, false) else NoClaim
    case _ => NoClaim
  }

  /** Shapes that the code produces. */
  predicate Shape(pc: Pc) {
    match pc
    case Acquire(l, _, next) =>
      (match l
       case PmmLock => (next.FindFrame? || next.ClearFrame?) && Shape(next)
       case VmmLock => (next.Loop? && next.i == 0 && next.n > 0) || (next.FreeLoop? && next.i == 0)
       case HeapLock => next.Check? && next.n > 0)
    case Release(l, next) =>
      (match l
       case PmmLock => next.Idle? || (next.Descend? && next.i < next.n) || (next.Unmap? && next.i < next.n)
       case VmmLock => next.Idle? || next.Finish? || next == Release(HeapLock, Idle)
       case HeapLock => next.Idle?)
    case FindFrame(use) => use.Bare? || use.i < use.n
    case MarkFrame(use, _) => use.Bare? || use.i < use.n
    case Descend(_, n, i, _, _) => i < n
    case MapPage(_, n, i, _) => i < n
    case Check(n) => n > 0
    case Probe(n, _, i) => i < n
    case Loop(_, n, i) => i <= n
    case FreeLoop(_, n, i) => i <= n
    case ClearFrame(_, next) => next.Idle? || (next.Unmap? && next.i < next.n)
    case Unmap(_, n, i) => i < n
    case _ => true
  }

  /** The frame on its way from the bitmap to the page table, the frame chosen in the bitmap, the frame
      about to be freed. */
  function InFlight(pc: Pc): set<nat> {
    match pc
    case Acquire(_, _, next) => InFlight(next)
    case Release(_, next) => InFlight(next)
    case FindFrame(use) => if use.Table? then {use.f} else {}
    case MarkFrame(use, _) => if use.Table? then {use.f} else {}
    case Descend(_, _, _, f, _) => {f}
    case MapPage(_, _, _, f) => {f}
    case _ => {}
  }

  function Chosen(pc: Pc): set<nat> {
    if pc.MarkFrame? then {pc.f} else {}
  }

  /** `ClearFrame` now, or as soon as the mutex is taken. */
  function Clearing(pc: Pc): Pc {
    match pc
    case Acquire(_, _, next) => if next.ClearFrame? then next else Idle
    case ClearFrame(_, _) => pc
    case _ => Idle
  }

  // ----- The invariant -----

  type Cpus = map<nat, Cpu>

  ghost predicate LocksOk(cpus: Cpus, taken: set<Lock>) {
    && (forall c :: c in cpus ==> Shape(cpus[c].pc) && Needs(cpus[c].pc) <= cpus[c].held <= taken)
    && (forall c, d :: c in cpus && d in cpus && c != d ==> cpus[c].held !! cpus[d].held)
  }

  /** Every owned frame is marked used; every mapped page owns its frame, except for the moment between
      the freeing of the frame and the clearing of the entry. */
  ghost predicate FramesOk(used: set<nat>, pages: map<nat, nat>, owner: map<nat, Owner>, who: map<nat, Who>) {
    && owner.Keys <= used
    && pages.Keys == who.Keys
    && (forall p :: p in pages && !who[p].Cleared? ==> pages[p] in owner && owner[pages[p]] == ByPage(p))
  }

  ghost predicate LiveOk(live: map<nat, nat>, who: map<nat, Who>) {
    forall ptr, p: nat :: ptr in live && ptr <= p < ptr + live[ptr] ==> p in who && who[p] == Live(ptr)
  }

  /** The frames that CPU `c` is working with. */
  ghost predicate HandsOk(used: set<nat>, owner: map<nat, Owner>, c: nat, pc: Pc) {
    && (forall f :: f in Chosen(pc) ==> f !in used)
    && (forall f :: f in InFlight(pc) ==> f in owner && owner[f] == ByCpu(c))
    && (Clearing(pc).ClearFrame? ==>
          var next := Clearing(pc).next;
          Clearing(pc).f in owner &&
          owner[Clearing(pc).f] == if next.Unmap? then ByPage(next.ptr + next.i) else ByCpu(c))
  }

  /** The pages `[a, b)` are recorded as `w`. */
  ghost predicate AllAre(who: map<nat, Who>, a: nat, b: nat, w: Who) {
    forall p: nat :: a <= p < b ==> p in who && who[p] == w
  }

  /** The pages `[a, b)` are not mapped. */
  ghost predicate NoneMapped(pages: map<nat, nat>, a: nat, b: nat) {
    forall p: nat :: a <= p < b ==> p !in pages
  }

  /** The heap range that CPU `c` is working on. */
  ghost predicate ClaimOk(pages: map<nat, nat>, who: map<nat, Who>, c: nat, claim: Claim) {
    match claim
    case NoClaim => true
    case Scan(ptr, i) => NoneMapped(pages, ptr, ptr + i)
    case Build(ptr, n, i) =>
      i <= n && AllAre(who, ptr, ptr + i, Making(c)) && NoneMapped(pages, ptr + i, ptr + n)
    case Tear(ptr, n, i, cleared) =>
      if cleared then i < n && AllAre(who, ptr + i, ptr + i + 1, Cleared(c))
          && AllAre(who, ptr + i + 1, ptr + n, Dying(c))
      else i <= n && AllAre(who, ptr + i, ptr + n, Dying(c))
  }

  ghost predicate AllHands(cpus: Cpus, used: set<nat>, owner: map<nat, Owner>) {
    forall c :: c in cpus ==> HandsOk(used, owner, c, cpus[c].pc)
  }

  ghost predicate AllClaims(cpus: Cpus, pages: map<nat, nat>, who: map<nat, Who>) {
    forall c :: c in cpus ==> ClaimOk(pages, who, c, ClaimOf(cpus[c].pc))
  }

  ghost predicate Inv(s: State) {
    && LocksOk(s.cpus, s.taken) && FramesOk(s.used, s.pages, s.owner, s.who) && LiveOk(s.live, s.who)
    && AllHands(s.cpus, s.used, s.owner) && AllClaims(s.cpus, s.pages, s.who)
  }

  lemma InitialInv(s: State)
    requires Initial(s)
    ensures Inv(s)
  {
  }

  // ----- Locks -----

  /** A lock that two CPUs need at once cannot be. */
  lemma Exclusive(cpus: Cpus, taken: set<Lock>, c: nat, d: nat, l: Lock)
    requires LocksOk(cpus, taken) && c in cpus && d in cpus && c != d && l in Needs(cpus[c].pc)
    ensures l !in Needs(cpus[d].pc)
  {
    hide Needs, Shape;
    assert cpus[c].held !! cpus[d].held;
  }

  /** A range is scanned and built only under the heap lock. */
  lemma ClaimNeedsHeapLock(pc: Pc)
    requires Shape(pc) && (ClaimOf(pc).Scan? || ClaimOf(pc).Build?)
    ensures HeapLock in Needs(pc)
  {
  }

  lemma ChosenNeedsPmmLock(pc: Pc)
    requires Chosen(pc) != {}
    ensures PmmLock in Needs(pc)
  {
  }

  lemma LocksFacts(cpus: Cpus, taken: set<Lock>, c: nat)
    requires LocksOk(cpus, taken) && c in cpus
    ensures Shape(cpus[c].pc) && Needs(cpus[c].pc) <= cpus[c].held
  {
  }

  lemma GotoKeepsLocks(cpus: Cpus, taken: set<Lock>, c: nat, pc: Pc)
    requires LocksOk(cpus, taken) && c in cpus && Shape(pc) && Needs(pc) <= cpus[c].held
    ensures LocksOk(cpus[c := cpus[c].(pc := pc)], taken)
  {
    hide Needs, Shape;
  }

  lemma AcquireKeepsLocks(cpus: Cpus, taken: set<Lock>, c: nat, l: Lock, next: Pc)
    requires LocksOk(cpus, taken) && c in cpus && l !in taken && Shape(next) && Needs(next) <= cpus[c].held + {l}
    ensures LocksOk(cpus[c := Cpu(next, cpus[c].held + {l})], taken + {l})
  {
    hide Needs, Shape;
    forall d | d in cpus ensures l !in cpus[d].held {
      assert cpus[d].held <= taken;
    }
  }

  lemma ReleaseKeepsLocks(cpus: Cpus, taken: set<Lock>, c: nat, l: Lock, next: Pc)
    requires LocksOk(cpus, taken) && c in cpus && l in cpus[c].held && Shape(next) && Needs(next) <= cpus[c].held - {l}
    ensures LocksOk(cpus[c := Cpu(next, cpus[c].held - {l})], taken - {l})
  {
    hide Needs, Shape;
    forall d | d in cpus && d != c ensures l !in cpus[d].held {
      assert cpus[c].held !! cpus[d].held;
    }
  }

  // ----- The mover and the others -----

  lemma HandsStep(cpus: Cpus, used: set<nat>, owner: map<nat, Owner>, c: nat, cpu: Cpu, used': set<nat>,
                  owner': map<nat, Owner>)
    requires AllHands(cpus, used, owner) && HandsOk(used', owner', c, cpu.pc)
    requires forall d :: d in cpus && d != c ==> HandsOk(used', owner', d, cpus[d].pc)
    ensures AllHands(cpus[c := cpu], used', owner')
  {
    hide HandsOk;
  }

  lemma ClaimsStep(cpus: Cpus, pages: map<nat, nat>, who: map<nat, Who>, c: nat, cpu: Cpu, pages': map<nat, nat>,
                   who': map<nat, Who>)
    requires AllClaims(cpus, pages, who) && ClaimOk(pages', who', c, ClaimOf(cpu.pc))
    requires forall d :: d in cpus && d != c ==> ClaimOk(pages', who', d, ClaimOf(cpus[d].pc))
    ensures AllClaims(cpus[c := cpu], pages', who')
  {
    hide ClaimOk, ClaimOf;
  }

  /** Recording pages as `w` that no claim of `d` mentions. */
  lemma MarkRule(pages: map<nat, nat>, who: map<nat, Who>, ptr: nat, n: nat, w: Who, d: nat, claim: Claim)
    requires ClaimOk(pages, who, d, claim)
    requires forall p :: p in who && ptr <= p < ptr + n ==>
               who[p] != Making(d) && who[p] != Dying(d)
               && who[p] != Cleared(d)
    ensures ClaimOk(pages, Mark(who, ptr, n, w), d, claim)
  {
    match claim
    case Build(a, m, i) => MarkAll(who, ptr, n, w, a, a + i, Making(d));
    case Tear(a, m, i, cleared) =>
      if cleared {
        MarkAll(who, ptr, n, w, a + i, a + i + 1, Cleared(d));
        MarkAll(who, ptr, n, w, a + i + 1, a + m, Dying(d));
      } else {
        MarkAll(who, ptr, n, w, a + i, a + m, Dying(d));
      }
    case _ =>
  }

  lemma MarkAll(who: map<nat, Who>, ptr: nat, n: nat, w: Who, a: nat, b: nat, v: Who)
    requires AllAre(who, a, b, v) && forall p :: p in who && ptr <= p < ptr + n ==> who[p] != v
    ensures AllAre(Mark(who, ptr, n, w), a, b, v)
  {
  }

  lemma QuietKeeps(s: State, c: nat, cpu: Cpu, taken: set<Lock>)
    requires Inv(s) && c in s.cpus && LocksOk(s.cpus[c := cpu], taken)
    requires HandsOk(s.used, s.owner, c, cpu.pc) && ClaimOk(s.pages, s.who, c, ClaimOf(cpu.pc))
    ensures Inv(s.(cpus := s.cpus[c := cpu], taken := taken))
  {
    hide LocksOk, FramesOk, LiveOk, HandsOk, ClaimOk, ClaimOf;
    HandsStep(s.cpus, s.used, s.owner, c, cpu, s.used, s.owner);
    ClaimsStep(s.cpus, s.pages, s.who, c, cpu, s.pages, s.who);
  }

  lemma PlainGotoKeeps(s: State, c: nat, pc: Pc)
    requires Inv(s) && c in s.cpus && Shape(pc) && Needs(pc) <= s.cpus[c].held
    requires HandsOk(s.used, s.owner, c, pc) && ClaimOk(s.pages, s.who, c, ClaimOf(pc))
    ensures Inv(Goto(s, c, pc))
  {
    hide LocksOk, FramesOk, LiveOk, ClaimOk, HandsOk, ClaimOf, Shape, Needs, AllHands, AllClaims;
    GotoKeepsLocks(s.cpus, s.taken, c, pc);
    QuietKeeps(s, c, s.cpus[c].(pc := pc), s.taken);
  }

  lemma InvParts(s: State)
    requires Inv(s)
    ensures LocksOk(s.cpus, s.taken) && FramesOk(s.used, s.pages, s.owner, s.who) && LiveOk(s.live, s.who)
    ensures AllHands(s.cpus, s.used, s.owner) && AllClaims(s.cpus, s.pages, s.who)
  {
  }

  lemma MoverFacts(s: State, c: nat)
    requires Inv(s) && c in s.cpus
    ensures LocksOk(s.cpus, s.taken) && FramesOk(s.used, s.pages, s.owner, s.who) && LiveOk(s.live, s.who)
    ensures AllHands(s.cpus, s.used, s.owner) && AllClaims(s.cpus, s.pages, s.who)
    ensures Shape(s.cpus[c].pc) && Needs(s.cpus[c].pc) <= s.cpus[c].held
    ensures HandsOk(s.used, s.owner, c, s.cpus[c].pc) && ClaimOk(s.pages, s.who, c, ClaimOf(s.cpus[c].pc))
  {
    hide FramesOk, LiveOk, HandsOk, ClaimOk, ClaimOf, Needs, Shape;
  }

  /** CPU `c` goes to `pc` and changes the shared state. */
  function Move(s: State, c: nat, pc: Pc, used: set<nat>, pages: map<nat, nat>, live: map<nat, nat>,
                owner: map<nat, Owner>, who: map<nat, Who>): State
    requires c in s.cpus
  {
    State(s.cpus[c := s.cpus[c].(pc := pc)], s.taken, used, pages, live, owner, who)
  }

  /** What a step must show about itself and about the other CPUs. */
  lemma MoveKeeps(s: State, c: nat, pc: Pc, used: set<nat>, pages: map<nat, nat>, live: map<nat, nat>,
                  owner: map<nat, Owner>, who: map<nat, Who>)
    requires Inv(s) && c in s.cpus && Shape(pc) && Needs(pc) <= s.cpus[c].held
    requires FramesOk(used, pages, owner, who) && LiveOk(live, who)
    requires HandsOk(used, owner, c, pc) && ClaimOk(pages, who, c, ClaimOf(pc))
    requires forall d :: d in s.cpus && d != c ==> HandsOk(used, owner, d, s.cpus[d].pc)
    requires forall d :: d in s.cpus && d != c ==> ClaimOk(pages, who, d, ClaimOf(s.cpus[d].pc))
    ensures Inv(Move(s, c, pc, used, pages, live, owner, who))
  {
    hide FramesOk, LiveOk, HandsOk, ClaimOk, Needs, ClaimOf, Shape, LocksOk, AllHands, AllClaims;
    var cpu := s.cpus[c].(pc := pc);
    GotoKeepsLocks(s.cpus, s.taken, c, pc);
    HandsStep(s.cpus, s.used, s.owner, c, cpu, used, owner);
    ClaimsStep(s.cpus, s.pages, s.who, c, cpu, pages, who);
  }

  // ----- Every step keeps the invariant -----

  lemma AcquireKeeps(s: State, c: nat)
    requires Inv(s) && c in s.cpus && s.cpus[c].pc.Acquire?
    ensures var pc := s.cpus[c].pc; Inv(StepAcquire(s, c, pc.l, pc.tested, pc.next))
  {
    var pc := s.cpus[c].pc;
    MoverFacts(s, c);
    hide Inv, LocksOk, FramesOk, LiveOk, ClaimOk, AllHands, AllClaims;
    AcquirePc(s.used, s.owner, c, pc.l, pc.tested, pc.next);
    hide Shape, Needs, ClaimOf, HandsOk;
    if !pc.tested {
      PlainGotoKeeps(s, c, Acquire(pc.l, pc.l !in s.taken, pc.next));
    } else if pc.l in s.taken {
      PlainGotoKeeps(s, c, Acquire(pc.l, false, pc.next));
    } else {
      AcquireKeepsLocks(s.cpus, s.taken, c, pc.l, pc.next);
      QuietKeeps(s, c, Cpu(pc.next, s.cpus[c].held + {pc.l}), s.taken + {pc.l});
    }
  }

  /** Waiting for a lock and having it look the same to the rest of the invariant. */
  lemma AcquirePc(used: set<nat>, owner: map<nat, Owner>, c: nat, l: Lock, tested: bool, next: Pc)
    requires Shape(Acquire(l, tested, next)) && HandsOk(used, owner, c, Acquire(l, tested, next))
    ensures forall b :: Shape(Acquire(l, b, next)) && HandsOk(used, owner, c, Acquire(l, b, next))
    ensures forall b :: Needs(Acquire(l, b, next)) == Needs(next) - {l} && ClaimOf(Acquire(l, b, next)) == ClaimOf(next)
    ensures Shape(next) && HandsOk(used, owner, c, next)
  {
  }

  lemma ReleaseKeeps(s: State, c: nat)
    requires Inv(s) && c in s.cpus && s.cpus[c].pc.Release?
    ensures var pc := s.cpus[c].pc; Inv(StepRelease(s, c, pc.l, pc.next))
  {
    var pc := s.cpus[c].pc;
    MoverFacts(s, c);
    hide Inv, LocksOk, FramesOk, LiveOk, ClaimOk, AllHands, AllClaims;
    ReleasePc(s.used, s.owner, c, pc.l, pc.next);
    hide Shape, Needs, ClaimOf, HandsOk;
    ReleaseKeepsLocks(s.cpus, s.taken, c, pc.l, pc.next);
    QuietKeeps(s, c, Cpu(pc.next, s.cpus[c].held - {pc.l}), s.taken - {pc.l});
  }

  lemma ReleasePc(used: set<nat>, owner: map<nat, Owner>, c: nat, l: Lock, next: Pc)
    requires Shape(Release(l, next)) && HandsOk(used, owner, c, Release(l, next))
    ensures Shape(next) && HandsOk(used, owner, c, next) && ClaimOf(Release(l, next)) == ClaimOf(next)
    ensures Needs(Release(l, next)) == Needs(next) + {l} && l !in Needs(next)
  {
  }

  lemma KfreeKeeps(s: State, c: nat, ptr: nat)
    requires Inv(s) && c in s.cpus && s.cpus[c].pc.Idle? && ptr in s.live
    ensures Inv(StepIdle(s, c, CallKfree(ptr)))
  {
    var n := s.live[ptr];
    var pc := Acquire(VmmLock, false, FreeLoop(ptr, n, 0));
    var who' := Mark(s.who, ptr, n, Dying(c));
    MoverFacts(s, c);
    hide Inv;
    KfreePc(s.used, s.owner, c, ptr, n);
    hide Shape, Needs, ClaimOf, HandsOk, LocksOk, ClaimOk, AllHands, AllClaims, FramesOk;
    GotoKeepsLocks(s.cpus, s.taken, c, pc);
    KfreeRecords(s.live, s.who, ptr, c);
    MarkFrames(s.used, s.pages, s.owner, s.who, ptr, n, Dying(c));
    assert forall d :: d in s.cpus ==> HandsOk(s.used, s.owner, d, s.cpus[d].pc)
        by { HandsAt(s.cpus, s.used, s.owner); }
    HandsStep(s.cpus, s.used, s.owner, c, s.cpus[c].(pc := pc), s.used, s.owner);
    MarkClaims(s.cpus, s.pages, s.who, c, ptr, n, Dying(c));
    assert ClaimOk(s.pages, who', c, Tear(ptr, n, 0, false)) by { TornAll(s.pages, s.who, ptr, n, c); }
    ClaimsStep(s.cpus, s.pages, s.who, c, s.cpus[c].(pc := pc), s.pages, who');
    assert StepIdle(s, c, CallKfree(ptr)) ==
        s.(live := s.live - {ptr}, who := who', cpus := s.cpus[c := s.cpus[c].(pc := pc)]);
    InvFrom(StepIdle(s, c, CallKfree(ptr)));
  }

  lemma KfreePc(used: set<nat>, owner: map<nat, Owner>, c: nat, ptr: nat, n: nat)
    ensures var pc := Acquire(VmmLock, false, FreeLoop(ptr, n, 0));
            Shape(pc) && Needs(pc) == {} && ClaimOf(pc) == Tear(ptr, n, 0, false) && HandsOk(used, owner, c, pc)
  {
    assert ClaimOf(FreeLoop(ptr, n, 0)) == Tear(ptr, n, 0, false);
  }

  lemma InvFrom(s: State)
    requires LocksOk(s.cpus, s.taken) && FramesOk(s.used, s.pages, s.owner, s.who) && LiveOk(s.live, s.who)
    requires AllHands(s.cpus, s.used, s.owner) && AllClaims(s.cpus, s.pages, s.who)
    ensures Inv(s)
  {
  }

  lemma HandsAt(cpus: Cpus, used: set<nat>, owner: map<nat, Owner>)
    requires AllHands(cpus, used, owner)
    ensures forall d :: d in cpus ==> HandsOk(used, owner, d, cpus[d].pc)
  {
  }

  lemma ClaimsAt(cpus: Cpus, pages: map<nat, nat>, who: map<nat, Who>)
    requires AllClaims(cpus, pages, who)
    ensures forall d :: d in cpus ==> ClaimOk(pages, who, d, ClaimOf(cpus[d].pc))
  {
  }

  lemma KfreeRecords(live: map<nat, nat>, who: map<nat, Who>, ptr: nat, c: nat)
    requires LiveOk(live, who) && ptr in live
    ensures LiveOk(live - {ptr}, Mark(who, ptr, live[ptr], Dying(c)))
    ensures AllAre(who, ptr, ptr + live[ptr], Live(ptr))
    ensures forall p :: p in who && ptr <= p < ptr + live[ptr] ==> who[p] == Live(ptr)
  {
  }

  lemma TornAll(pages: map<nat, nat>, who: map<nat, Who>, ptr: nat, n: nat, c: nat)
    requires AllAre(who, ptr, ptr + n, Live(ptr))
    ensures ClaimOk(pages, Mark(who, ptr, n, Dying(c)), c, Tear(ptr, n, 0, false))
  {
  }

  lemma MarkFrames(used: set<nat>, pages: map<nat, nat>, owner: map<nat, Owner>, who: map<nat, Who>, ptr: nat, n: nat,
                   w: Who)
    requires FramesOk(used, pages, owner, who)
    requires forall p :: p in who && ptr <= p < ptr + n ==> !who[p].Cleared?
    ensures FramesOk(used, pages, owner, Mark(who, ptr, n, w))
  {
    assert Mark(who, ptr, n, w).Keys == who.Keys;
  }

  /** Recording pages that belong to nobody but `c`. */
  lemma MarkClaims(cpus: Cpus, pages: map<nat, nat>, who: map<nat, Who>, c: nat, ptr: nat, n: nat, w: Who)
    requires AllClaims(cpus, pages, who)
    requires forall p :: p in who && ptr <= p < ptr + n ==> who[p].Live? || who[p] == Making(c) || who[p] == Dying(c)
    ensures forall d :: d in cpus && d != c ==> ClaimOk(pages, Mark(who, ptr, n, w), d, ClaimOf(cpus[d].pc))
  {
    hide ClaimOk, ClaimOf, Mark;
    forall d | d in cpus && d != c ensures ClaimOk(pages, Mark(who, ptr, n, w), d, ClaimOf(cpus[d].pc)) {
      MarkRule(pages, who, ptr, n, w, d, ClaimOf(cpus[d].pc));
    }
  }

  lemma IdleKeeps(s: State, c: nat, choice: Choice)
    requires Inv(s) && c in s.cpus && s.cpus[c].pc.Idle?
    ensures Inv(StepIdle(s, c, choice))
  {
    hide Inv;
    match choice
    case CallKfree(ptr) => if ptr in s.live { KfreeKeeps(s, c, ptr); }
    case CallAlloc => PlainGotoKeeps(s, c, Acquire(PmmLock, false, FindFrame(Bare)));
    case CallFree(f) =>
      if f in s.owner && s.owner[f] == ByCpu(c) {
        assert Needs(Idle) == {};
        assert Needs(ClearFrame(f, Idle)) == {PmmLock} && InFlight(ClearFrame(f, Idle)) == {};
        PlainGotoKeeps(s, c, Acquire(PmmLock, false, ClearFrame(f, Idle)));
      }
    case CallMalloc(n) => assert InFlight(Check(n)) == {};
    if n > 0 { PlainGotoKeeps(s, c, Acquire(HeapLock, false, Check(n))); }
    case _ =>
  }

  lemma LeakRecords(pages: map<nat, nat>, live: map<nat, nat>, who: map<nat, Who>, c: nat, ptr: nat, n: nat, i: nat)
    requires ClaimOk(pages, who, c, Build(ptr, n, i)) && LiveOk(live, who)
    ensures forall p :: p in who && ptr <= p < ptr + i ==> who[p] == Making(c)
    ensures LiveOk(live, Mark(who, ptr, i, Leaked)) && ClaimOk(pages, Mark(who, ptr, i, Leaked), c, NoClaim)
  {
    assert AllAre(who, ptr, ptr + i, Making(c));
  }

  lemma LeakPc(used: set<nat>, owner: map<nat, Owner>, c: nat, ptr: nat, n: nat, i: nat)
    ensures ClaimOf(FindFrame(Backing(ptr, n, i))) == Build(ptr, n, i)
    ensures Needs(FindFrame(Backing(ptr, n, i))) == {PmmLock, VmmLock, HeapLock}
    ensures var pc := Release(VmmLock, Release(HeapLock, Idle));
            Shape(pc) && Needs(pc) == {VmmLock, HeapLock} && ClaimOf(pc) == NoClaim && HandsOk(used, owner, c, pc)
  {
    assert Needs(Release(HeapLock, Idle)) == {HeapLock} && ClaimOf(Release(HeapLock, Idle)) == NoClaim;
    assert InFlight(Release(HeapLock, Idle)) == {};
  }

  /** The NULL return in the middle of a range: its pages stay mapped and belong to nobody. */
  lemma LeakKeeps(s: State, c: nat, ptr: nat, n: nat, i: nat)
    requires Inv(s) && c in s.cpus && s.cpus[c].pc == FindFrame(Backing(ptr, n, i))
    ensures Inv(StepFind(s, c, Backing(ptr, n, i), NotFound))
  {
    MoverFacts(s, c);
    hide Drop, Inv, FramesOk, LiveOk, HandsOk, ClaimOk, Needs, ClaimOf, InFlight, Clearing, Shape, Mark, LocksOk;
    hide AllHands, AllClaims;
    LeakPc(s.used, s.owner, c, ptr, n, i);
    LeakRecords(s.pages, s.live, s.who, c, ptr, n, i);
    MarkFrames(s.used, s.pages, s.owner, s.who, ptr, i, Leaked);
    HandsAt(s.cpus, s.used, s.owner);
    MarkClaims(s.cpus, s.pages, s.who, c, ptr, i, Leaked);
    MoveKeeps(s, c, Release(VmmLock, Release(HeapLock, Idle)), s.used, s.pages, s.live, s.owner,
              Mark(s.who, ptr, i, Leaked));
  }

  lemma FindKeeps(s: State, c: nat, choice: Choice)
    requires Inv(s) && c in s.cpus && s.cpus[c].pc.FindFrame?
    ensures Inv(StepFind(s, c, s.cpus[c].pc.use, choice))
  {
    MoverFacts(s, c);
    hide Inv, LocksOk, FramesOk, LiveOk, ClaimOk, AllHands, AllClaims;
    var use := s.cpus[c].pc.use;
    match choice
    case Found(f) => if f !in s.used { PlainGotoKeeps(s, c, MarkFrame(use, f)); }
    case NotFound =>
      match use {
        case Bare => PlainGotoKeeps(s, c, Idle);
        case Backing(ptr, n, i) => LeakKeeps(s, c, ptr, n, i);
        case Table(ptr, n, i, f, k) => PlainGotoKeeps(s, c, Hang);
      }
    case _ =>
  }

  /** A frame that nobody owns changes hands without touching anybody else's. */
  lemma NewFrameRule(used: set<nat>, owner: map<nat, Owner>, f: nat, o: Owner, d: nat, pc: Pc)
    requires HandsOk(used, owner, d, pc) && f !in owner && Chosen(pc) == {}
    ensures HandsOk(used + {f}, owner[f := o], d, pc)
  {
  }

  lemma MarkKeeps(s: State, c: nat, use: Use, f: nat)
    requires Inv(s) && c in s.cpus && s.cpus[c].pc == MarkFrame(use, f)
    ensures Inv(StepMark(s, c, use, f))
  {
    MoverFacts(s, c);
    hide Inv, Shape, Needs, ClaimOf, HandsOk, ClaimOk, LiveOk, FramesOk, Chosen, AllClaims, AllHands, LocksOk, InFlight;
    hide AfterMark, OwnerFor;
    MarkPc(s.owner, s.used, c, use, f, s.pages, s.who);
    MarkOthers(s, c, use, f);
    ClaimsAt(s.cpus, s.pages, s.who);
    MoveKeeps(s, c, Release(PmmLock, AfterMark(use, f)), s.used + {f}, s.pages, s.live, s.owner[f := OwnerFor(use, c)],
              s.who);
  }

  lemma MarkOthers(s: State, c: nat, use: Use, f: nat)
    requires LocksOk(s.cpus, s.taken) && AllHands(s.cpus, s.used, s.owner) && c in s.cpus
             && s.cpus[c].pc == MarkFrame(use, f)
    requires f !in s.owner && PmmLock in Needs(s.cpus[c].pc)
    ensures forall d :: d in s.cpus && d != c ==> HandsOk(s.used + {f}, s.owner[f := OwnerFor(use, c)], d, s.cpus[d].pc)
  {
    hide LocksOk, HandsOk, Needs, Shape, Chosen, OwnerFor;
    forall d | d in s.cpus && d != c ensures HandsOk(s.used + {f}, s.owner[f := OwnerFor(use, c)], d, s.cpus[d].pc) {
      Exclusive(s.cpus, s.taken, c, d, PmmLock);
      if Chosen(s.cpus[d].pc) != {} {
        ChosenNeedsPmmLock(s.cpus[d].pc);
      }
      NewFrameRule(s.used, s.owner, f, OwnerFor(use, c), d, s.cpus[d].pc);
    }
  }

  lemma MarkPc(owner: map<nat, Owner>, used: set<nat>, c: nat, use: Use, f: nat, pages: map<nat, nat>,
               who: map<nat, Who>)
    requires Shape(MarkFrame(use, f)) && HandsOk(used, owner, c, MarkFrame(use, f)) && FramesOk(used, pages, owner, who)
    ensures f !in owner && PmmLock in Needs(MarkFrame(use, f))
    ensures FramesOk(used + {f}, pages, owner[f := OwnerFor(use, c)], who)
    ensures var pc' := Release(PmmLock, AfterMark(use, f));
            && Shape(pc') && Needs(pc') == Needs(MarkFrame(use, f)) && ClaimOf(pc') == ClaimOf(MarkFrame(use, f))
            && HandsOk(used + {f}, owner[f := OwnerFor(use, c)], c, pc')
  {
    assert f in Chosen(MarkFrame(use, f));
    MarkShape(use, f);
    hide Needs, ClaimOf, Shape;
    match use
    case Bare => assert InFlight(Idle) == {};
    case Backing(ptr, n, i) => assert InFlight(Descend(ptr, n, i, f, 0)) == {f};
    case Table(ptr, n, i, g, k) =>
      assert g in InFlight(MarkFrame(use, f));
      assert InFlight(Descend(ptr, n, i, g, k + 1)) == {g};
  }

  lemma MarkShape(use: Use, f: nat)
    requires Shape(MarkFrame(use, f))
    ensures var pc' := Release(PmmLock, AfterMark(use, f));
            Shape(pc') && Needs(pc') == Needs(MarkFrame(use, f)) && ClaimOf(pc') == ClaimOf(MarkFrame(use, f))
    ensures PmmLock in Needs(MarkFrame(use, f))
  {
    var next := AfterMark(use, f);
    assert Needs(next) == if use.Bare? then {} else {VmmLock, HeapLock};
    assert ClaimOf(next) == ClaimOfUse(use);
  }

  /** A page that nobody claims becomes mapped. */
  lemma NewPageRule(pages: map<nat, nat>, who: map<nat, Who>, p: nat, f: nat, c: nat, d: nat, claim: Claim)
    requires ClaimOk(pages, who, d, claim) && !claim.Scan? && !claim.Build? && p !in who
    ensures ClaimOk(pages[p := f], who[p := Making(c)], d, claim)
  {
  }

  /** A frame passes from the hands of one CPU to a page. */
  lemma HandOverRule(used: set<nat>, owner: map<nat, Owner>, f: nat, c: nat, p: nat, d: nat, pc: Pc)
    requires HandsOk(used, owner, d, pc) && f in owner && owner[f] == ByCpu(c) && c != d
    ensures HandsOk(used, owner[f := ByPage(p)], d, pc)
  {
  }

  lemma MapKeeps(s: State, c: nat, ptr: nat, n: nat, i: nat, f: nat)
    requires Inv(s) && c in s.cpus && s.cpus[c].pc == MapPage(ptr, n, i, f)
    ensures Inv(StepMap(s, c, ptr, n, i, f))
  {
    var s' := StepMap(s, c, ptr, n, i, f);
    MoverFacts(s, c);
    hide Inv, FramesOk, LiveOk, ClaimOk, HandsOk, ClaimOf, Needs, Shape, InFlight, LocksOk, AllHands, AllClaims;
    MapPc(s.used, s.owner, c, ptr, n, i, f);
    MapRecords(s, ptr, n, i, f, c);
    GotoKeepsLocks(s.cpus, s.taken, c, Loop(ptr, n, i + 1));
    MapOthers(s, c, ptr + i, f);
    HandsStep(s.cpus, s.used, s.owner, c, s'.cpus[c], s'.used, s'.owner);
    ClaimsStep(s.cpus, s.pages, s.who, c, s'.cpus[c], s'.pages, s'.who);
    InvFrom(s');
  }

  lemma MapOthers(s: State, c: nat, p: nat, f: nat)
    requires LocksOk(s.cpus, s.taken) && AllHands(s.cpus, s.used, s.owner) && AllClaims(s.cpus, s.pages, s.who)
    requires c in s.cpus && HeapLock in Needs(s.cpus[c].pc) && p !in s.who && f in s.owner && s.owner[f] == ByCpu(c)
    ensures forall d :: d in s.cpus && d != c ==> HandsOk(s.used, s.owner[f := ByPage(p)], d, s.cpus[d].pc)
    ensures forall d :: d in s.cpus && d != c ==>
            ClaimOk(s.pages[p := f], s.who[p := Making(c)], d, ClaimOf(s.cpus[d].pc))
  {
    hide LocksOk, HandsOk, ClaimOk, ClaimOf, Needs, Shape;
    forall d | d in s.cpus && d != c
      ensures HandsOk(s.used, s.owner[f := ByPage(p)], d, s.cpus[d].pc)
      ensures ClaimOk(s.pages[p := f], s.who[p := Making(c)], d, ClaimOf(s.cpus[d].pc))
    {
      Exclusive(s.cpus, s.taken, c, d, HeapLock);
      LocksFacts(s.cpus, s.taken, d);
      if ClaimOf(s.cpus[d].pc).Scan? || ClaimOf(s.cpus[d].pc).Build? {
        ClaimNeedsHeapLock(s.cpus[d].pc);
      }
      NewPageRule(s.pages, s.who, p, f, c, d, ClaimOf(s.cpus[d].pc));
      HandOverRule(s.used, s.owner, f, c, p, d, s.cpus[d].pc);
    }
  }

  lemma MapPc(used: set<nat>, owner: map<nat, Owner>, c: nat, ptr: nat, n: nat, i: nat, f: nat)
    requires HandsOk(used, owner, c, MapPage(ptr, n, i, f)) && Shape(MapPage(ptr, n, i, f))
    ensures f in owner && owner[f] == ByCpu(c) && i < n
    ensures HeapLock in Needs(MapPage(ptr, n, i, f)) && ClaimOf(MapPage(ptr, n, i, f)) == Build(ptr, n, i)
    ensures var pc' := Loop(ptr, n, i + 1);
            && Shape(pc') && Needs(pc') == Needs(MapPage(ptr, n, i, f)) && ClaimOf(pc') == Build(ptr, n, i + 1)
            && HandsOk(used, owner[f := ByPage(ptr + i)], c, pc')
  {
    assert f in InFlight(MapPage(ptr, n, i, f));
  }

  lemma MapRecords(s: State, ptr: nat, n: nat, i: nat, f: nat, c: nat)
    requires FramesOk(s.used, s.pages, s.owner, s.who) && LiveOk(s.live, s.who)
             && ClaimOk(s.pages, s.who, c, Build(ptr, n, i))
    requires i < n && f in s.owner && s.owner[f] == ByCpu(c)
    ensures ptr + i !in s.who
    ensures FramesOk(s.used, s.pages[ptr + i := f], s.owner[f := ByPage(ptr + i)], s.who[ptr + i := Making(c)])
    ensures LiveOk(s.live, s.who[ptr + i := Making(c)])
    ensures ClaimOk(s.pages[ptr + i := f], s.who[ptr + i := Making(c)], c, Build(ptr, n, i + 1))
  {
  }

  lemma FinishKeeps(s: State, c: nat)
    requires Inv(s) && c in s.cpus && s.cpus[c].pc.Finish?
    ensures var pc := s.cpus[c].pc; Inv(StepFinish(s, c, pc.ptr, pc.n))
  {
    var pc := s.cpus[c].pc;
    var s' := StepFinish(s, c, pc.ptr, pc.n);
    var pc' := Release(HeapLock, Idle);
    MoverFacts(s, c);
    hide Inv;
    assert AllAre(s.who, pc.ptr, pc.ptr + pc.n, Making(c));
    assert Shape(pc') && Needs(pc') <= s.cpus[c].held && ClaimOf(pc') == NoClaim && HandsOk(s.used, s.owner, c, pc');
    assert ClaimOk(s.pages, s'.who, c, NoClaim);
    hide Needs, ClaimOf, HandsOk, ClaimOk, FramesOk, Shape, LocksOk, AllHands, AllClaims;
    FinishRecords(s.live, s.who, pc.ptr, pc.n, c);
    hide LiveOk;
    GotoKeepsLocks(s.cpus, s.taken, c, pc');
    MarkFrames(s.used, s.pages, s.owner, s.who, pc.ptr, pc.n, Live(pc.ptr));
    HandsAt(s.cpus, s.used, s.owner);
    HandsStep(s.cpus, s.used, s.owner, c, s'.cpus[c], s.used, s.owner);
    MarkClaims(s.cpus, s.pages, s.who, c, pc.ptr, pc.n, Live(pc.ptr));
    ClaimsStep(s.cpus, s.pages, s.who, c, s'.cpus[c], s.pages, s'.who);
    InvFrom(s');
  }

  lemma FinishRecords(live: map<nat, nat>, who: map<nat, Who>, ptr: nat, n: nat, c: nat)
    requires LiveOk(live, who) && AllAre(who, ptr, ptr + n, Making(c))
    ensures LiveOk(live[ptr := n], Mark(who, ptr, n, Live(ptr)))
    ensures forall p :: p in who && ptr <= p < ptr + n ==> who[p] == Making(c)
  {
  }

  /** A frame that another CPU does not work with is freed. */
  lemma FreeFrameRule(used: set<nat>, owner: map<nat, Owner>, f: nat, d: nat, pc: Pc)
    requires HandsOk(used, owner, d, pc) && f !in InFlight(pc) && !(Clearing(pc).ClearFrame? && Clearing(pc).f == f)
    ensures HandsOk(used - {f}, Drop(owner, f), d, pc)
  {
  }

  /** Two CPUs are never about to free the same frame, and none frees a frame that another carries. */
  lemma ClearingApart(s: State, c: nat, pc: Pc, d: nat, qc: Pc)
    requires c != d && pc.ClearFrame? && Shape(pc) && Shape(qc)
    requires HandsOk(s.used, s.owner, c, pc) && ClaimOk(s.pages, s.who, c, ClaimOf(pc))
    requires HandsOk(s.used, s.owner, d, qc) && ClaimOk(s.pages, s.who, d, ClaimOf(qc))
    ensures pc.f !in InFlight(qc) && !(Clearing(qc).ClearFrame? && Clearing(qc).f == pc.f)
  {
    assert Clearing(pc) == pc;
    if pc.next.Unmap? {
      assert s.who[pc.next.ptr + pc.next.i] == Dying(c);
    }
  }

  /** The others keep their hands, whatever the frame was freed for. */
  lemma ClearOthers(s: State, c: nat, f: nat, next: Pc)
    requires LocksOk(s.cpus, s.taken) && AllHands(s.cpus, s.used, s.owner) && AllClaims(s.cpus, s.pages, s.who)
    requires c in s.cpus && s.cpus[c].pc == ClearFrame(f, next)
    ensures forall d :: d in s.cpus && d != c ==> HandsOk(s.used - {f}, Drop(s.owner, f), d, s.cpus[d].pc)
  {
    hide LocksOk, HandsOk, ClaimOk, ClaimOf, Needs, Shape, InFlight, Clearing;
    LocksFacts(s.cpus, s.taken, c);
    forall d | d in s.cpus && d != c ensures HandsOk(s.used - {f}, Drop(s.owner, f), d, s.cpus[d].pc) {
      LocksFacts(s.cpus, s.taken, d);
      ClearingApart(s, c, s.cpus[c].pc, d, s.cpus[d].pc);
      FreeFrameRule(s.used, s.owner, f, d, s.cpus[d].pc);
    }
  }

  // A frame that the CPU owns itself.

  lemma ClearOwnPc(used: set<nat>, owner: map<nat, Owner>, c: nat, f: nat)
    requires HandsOk(used, owner, c, ClearFrame(f, Idle))
    ensures f in owner && owner[f] == ByCpu(c)
    ensures var pc' := Release(PmmLock, Idle);
            && Shape(pc') && Needs(pc') == Needs(ClearFrame(f, Idle)) && ClaimOf(pc') == NoClaim
            && HandsOk(used - {f}, Drop(owner, f), c, pc')
  {
    assert Clearing(ClearFrame(f, Idle)) == ClearFrame(f, Idle);
    assert InFlight(Idle) == {} && Needs(Idle) == {} && ClaimOf(Idle) == NoClaim;
  }

  lemma ClearOwnFrames(used: set<nat>, pages: map<nat, nat>, owner: map<nat, Owner>, who: map<nat, Who>, c: nat, f: nat)
    requires FramesOk(used, pages, owner, who) && f in owner && owner[f] == ByCpu(c)
    ensures FramesOk(used - {f}, pages, Drop(owner, f), who) && ClaimOk(pages, who, c, NoClaim)
  {
  }

  lemma ClearOwnKeeps(s: State, c: nat, f: nat)
    requires Inv(s) && c in s.cpus && s.cpus[c].pc == ClearFrame(f, Idle)
    ensures Inv(StepClear(s, c, f, Idle))
  {
    MoverFacts(s, c);
    hide Drop, Inv, FramesOk, LiveOk, HandsOk, ClaimOk, Needs, ClaimOf, InFlight, Clearing, Shape, Mark, LocksOk;
    hide AllHands, AllClaims;
    ClearOwnPc(s.used, s.owner, c, f);
    ClearOwnFrames(s.used, s.pages, s.owner, s.who, c, f);
    ClearOthers(s, c, f, Idle);
    ClaimsAt(s.cpus, s.pages, s.who);
    MoveKeeps(s, c, Release(PmmLock, Idle), s.used - {f}, s.pages, s.live, Drop(s.owner, f), s.who);
  }

  // The frame of a page that is being unmapped.

  lemma ClearPagePc(used: set<nat>, owner: map<nat, Owner>, c: nat, f: nat, ptr: nat, n: nat, i: nat)
    requires Shape(ClearFrame(f, Unmap(ptr, n, i))) && HandsOk(used, owner, c, ClearFrame(f, Unmap(ptr, n, i)))
    ensures f in owner && owner[f] == ByPage(ptr + i) && i < n
    ensures ClaimOf(ClearFrame(f, Unmap(ptr, n, i))) == Tear(ptr, n, i, false)
    ensures var pc' := Release(PmmLock, Unmap(ptr, n, i));
            && Shape(pc') && Needs(pc') == Needs(ClearFrame(f, Unmap(ptr, n, i)))
               && ClaimOf(pc') == Tear(ptr, n, i, true)
            && HandsOk(used - {f}, Drop(owner, f), c, pc')
  {
    var unmap := Unmap(ptr, n, i);
    assert Clearing(ClearFrame(f, unmap)) == ClearFrame(f, unmap);
    assert InFlight(unmap) == {} && ClaimOf(unmap) == Tear(ptr, n, i, true) && Needs(unmap) == {VmmLock};
  }

  lemma ClearPageFrames(used: set<nat>, pages: map<nat, nat>, owner: map<nat, Owner>, who: map<nat, Who>, c: nat,
                        f: nat, p: nat)
    requires FramesOk(used, pages, owner, who) && f in owner && owner[f] == ByPage(p)
    ensures FramesOk(used - {f}, pages, Drop(owner, f), Mark(who, p, 1, Cleared(c)))
  {
    var who' := Mark(who, p, 1, Cleared(c));
    assert who'.Keys == who.Keys;
    forall q | q in pages && !who'[q].Cleared? ensures pages[q] in Drop(owner, f) && owner[pages[q]] == ByPage(q) {
      assert who[q] == who'[q];
    }
  }

  lemma ClearPageRecords(pages: map<nat, nat>, live: map<nat, nat>, who: map<nat, Who>, c: nat, ptr: nat, n: nat,
                         i: nat)
    requires ClaimOk(pages, who, c, Tear(ptr, n, i, false)) && LiveOk(live, who) && i < n
    ensures ClaimOk(pages, Mark(who, ptr + i, 1, Cleared(c)), c, Tear(ptr, n, i, true))
    ensures LiveOk(live, Mark(who, ptr + i, 1, Cleared(c)))
    ensures forall p :: p in who && ptr + i <= p < ptr + i + 1 ==> who[p] == Dying(c)
  {
    assert AllAre(who, ptr + i, ptr + n, Dying(c));
  }

  lemma ClearPageMover(s: State, c: nat, f: nat, ptr: nat, n: nat, i: nat)
    requires Inv(s) && c in s.cpus && s.cpus[c].pc == ClearFrame(f, Unmap(ptr, n, i))
    ensures f in s.owner && s.owner[f] == ByPage(ptr + i) && i < n && ClaimOk(s.pages, s.who, c, Tear(ptr, n, i, false))
    ensures var pc' := Release(PmmLock, Unmap(ptr, n, i));
            && Shape(pc') && Needs(pc') <= s.cpus[c].held && ClaimOf(pc') == Tear(ptr, n, i, true)
            && HandsOk(s.used - {f}, Drop(s.owner, f), c, pc')
  {
    MoverFacts(s, c);
    hide Drop, Inv, FramesOk, LiveOk, HandsOk, ClaimOk, Needs, ClaimOf, InFlight, Clearing, Shape, LocksOk, AllHands;
    hide AllClaims;
    ClearPagePc(s.used, s.owner, c, f, ptr, n, i);
  }

  lemma ClearPageOthers(s: State, c: nat, f: nat, ptr: nat, n: nat, i: nat)
    requires Inv(s) && c in s.cpus && s.cpus[c].pc == ClearFrame(f, Unmap(ptr, n, i))
    requires forall p :: p in s.who && ptr + i <= p < ptr + i + 1 ==> s.who[p] == Dying(c)
    ensures forall d :: d in s.cpus && d != c ==> HandsOk(s.used - {f}, Drop(s.owner, f), d, s.cpus[d].pc)
    ensures forall d :: d in s.cpus && d != c ==>
              ClaimOk(s.pages, Mark(s.who, ptr + i, 1, Cleared(c)), d, ClaimOf(s.cpus[d].pc))
  {
    hide Drop, Inv, FramesOk, LiveOk, HandsOk, ClaimOk, Needs, ClaimOf, InFlight, Clearing, Shape, Mark, LocksOk;
    hide AllHands, AllClaims;
    InvParts(s);
    ClearOthers(s, c, f, Unmap(ptr, n, i));
    MarkClaims(s.cpus, s.pages, s.who, c, ptr + i, 1, Cleared(c));
  }

  lemma ClearPageRest(s: State, c: nat, f: nat, ptr: nat, n: nat, i: nat)
    requires Inv(s) && c in s.cpus && f in s.owner && s.owner[f] == ByPage(ptr + i) && i < n
    requires ClaimOk(s.pages, s.who, c, Tear(ptr, n, i, false))
    ensures forall p :: p in s.who && ptr + i <= p < ptr + i + 1 ==> s.who[p] == Dying(c)
    ensures FramesOk(s.used - {f}, s.pages, Drop(s.owner, f), Mark(s.who, ptr + i, 1, Cleared(c)))
    ensures LiveOk(s.live, Mark(s.who, ptr + i, 1, Cleared(c)))
    ensures ClaimOk(s.pages, Mark(s.who, ptr + i, 1, Cleared(c)), c, Tear(ptr, n, i, true))
  {
    MoverFacts(s, c);
    hide Drop, Inv, FramesOk, LiveOk, HandsOk, ClaimOk, Mark, LocksOk, AllHands, AllClaims, Needs, ClaimOf, InFlight;
    hide Clearing, Shape;
    ClearPageFrames(s.used, s.pages, s.owner, s.who, c, f, ptr + i);
    ClearPageRecords(s.pages, s.live, s.who, c, ptr, n, i);
  }

  lemma ClearPageKeeps(s: State, c: nat, f: nat, ptr: nat, n: nat, i: nat)
    requires Inv(s) && c in s.cpus && s.cpus[c].pc == ClearFrame(f, Unmap(ptr, n, i))
    ensures Inv(StepClear(s, c, f, Unmap(ptr, n, i)))
  {
    hide Drop, Inv, FramesOk, LiveOk, HandsOk, ClaimOk, Needs, ClaimOf, InFlight, Clearing, Shape, Mark, LocksOk;
    hide AllHands, AllClaims;
    ClearPageMover(s, c, f, ptr, n, i);
    ClearPageRest(s, c, f, ptr, n, i);
    ClearPageOthers(s, c, f, ptr, n, i);
    MoveKeeps(s, c, Release(PmmLock, Unmap(ptr, n, i)), s.used - {f}, s.pages, s.live, Drop(s.owner, f),
              Mark(s.who, ptr + i, 1, Cleared(c)));
  }

  lemma ClearKeeps(s: State, c: nat, f: nat, next: Pc)
    requires Inv(s) && c in s.cpus && s.cpus[c].pc == ClearFrame(f, next)
    ensures Inv(StepClear(s, c, f, next))
  {
    MoverFacts(s, c);
    hide Drop, Inv, FramesOk, LiveOk, HandsOk, ClaimOk, Needs, ClaimOf, InFlight, Clearing, Mark, LocksOk, AllHands;
    hide AllClaims, StepClear;
    assert next.Idle? || next.Unmap?;
    match next
    case Unmap(ptr, n, i) => ClearPageKeeps(s, c, f, ptr, n, i);
    case _ => ClearOwnKeeps(s, c, f);
  }

  /** A page whose frame is gone loses its entry. */
  lemma DropPageRule(pages: map<nat, nat>, who: map<nat, Who>, p: nat, c: nat, d: nat, claim: Claim)
    requires ClaimOk(pages, who, d, claim) && p in who && who[p] == Cleared(c) && c != d
    ensures ClaimOk(Drop(pages, p), Drop(who, p), d, claim)
  {
  }

  lemma UnmapRecords(s: State, ptr: nat, n: nat, i: nat, c: nat)
    requires Inv(s) && ClaimOk(s.pages, s.who, c, Tear(ptr, n, i, true))
    ensures ptr + i in s.who && s.who[ptr + i] == Cleared(c)
    ensures FramesOk(s.used, Drop(s.pages, ptr + i), s.owner, Drop(s.who, ptr + i))
            && LiveOk(s.live, Drop(s.who, ptr + i))
    ensures ClaimOk(Drop(s.pages, ptr + i), Drop(s.who, ptr + i), c, Tear(ptr, n, i + 1, false))
  {
    hide LocksOk, AllHands, AllClaims;
    assert Drop(s.pages, ptr + i).Keys == Drop(s.who, ptr + i).Keys;
  }

  lemma UnmapMover(s: State, c: nat, ptr: nat, n: nat, i: nat)
    requires Inv(s) && c in s.cpus && s.cpus[c].pc == Unmap(ptr, n, i)
    ensures ClaimOk(s.pages, s.who, c, Tear(ptr, n, i, true))
    ensures var pc' := FreeLoop(ptr, n, i + 1);
            && Shape(pc') && Needs(pc') <= s.cpus[c].held && ClaimOf(pc') == Tear(ptr, n, i + 1, false)
            && HandsOk(s.used, s.owner, c, pc')
  {
    MoverFacts(s, c);
    hide Inv, FramesOk, LiveOk, ClaimOk, AllHands, AllClaims, LocksOk, Shape, Needs, ClaimOf, HandsOk, InFlight;
    hide Clearing, Chosen;
    UnmapPc(s.used, s.owner, c, ptr, n, i);
  }

  lemma UnmapKeeps(s: State, c: nat, ptr: nat, n: nat, i: nat)
    requires Inv(s) && c in s.cpus && s.cpus[c].pc == Unmap(ptr, n, i)
    ensures Inv(StepUnmap(s, c, ptr, n, i))
  {
    hide Drop, Inv, FramesOk, LiveOk, ClaimOk, AllHands, AllClaims, LocksOk, Shape, Needs, ClaimOf, HandsOk, InFlight;
    hide Clearing, Chosen;
    UnmapMover(s, c, ptr, n, i);
    UnmapRecords(s, ptr, n, i, c);
    UnmapOthers(s, c, ptr + i);
    MoveKeeps(s, c, FreeLoop(ptr, n, i + 1), s.used, Drop(s.pages, ptr + i), s.live, s.owner, Drop(s.who, ptr + i));
  }

  lemma UnmapOthers(s: State, c: nat, p: nat)
    requires Inv(s) && p in s.who && s.who[p] == Cleared(c)
    ensures forall d :: d in s.cpus && d != c ==> HandsOk(s.used, s.owner, d, s.cpus[d].pc)
    ensures forall d :: d in s.cpus && d != c ==> ClaimOk(Drop(s.pages, p), Drop(s.who, p), d, ClaimOf(s.cpus[d].pc))
  {
    hide ClaimOk, ClaimOf, HandsOk, FramesOk, LiveOk, LocksOk, Drop;
    forall d | d in s.cpus && d != c ensures ClaimOk(Drop(s.pages, p), Drop(s.who, p), d, ClaimOf(s.cpus[d].pc)) {
      DropPageRule(s.pages, s.who, p, c, d, ClaimOf(s.cpus[d].pc));
    }
  }

  lemma UnmapPc(used: set<nat>, owner: map<nat, Owner>, c: nat, ptr: nat, n: nat, i: nat)
    requires Shape(Unmap(ptr, n, i))
    ensures var pc' := FreeLoop(ptr, n, i + 1);
            && ClaimOf(Unmap(ptr, n, i)) == Tear(ptr, n, i, true) && ClaimOf(pc') == Tear(ptr, n, i + 1, false)
            && Shape(pc') && Needs(pc') == Needs(Unmap(ptr, n, i)) && HandsOk(used, owner, c, pc')
  {
  }

  /** Steps that only look. */
  lemma ProbeKeeps(s: State, c: nat, n: nat, ptr: nat, i: nat)
    requires Inv(s) && c in s.cpus && s.cpus[c].pc == Probe(n, ptr, i)
    ensures Inv(StepProbe(s, c, n, ptr, i))
  {
    MoverFacts(s, c);
    hide Inv, LocksOk, LiveOk, FramesOk, AllHands, AllClaims, HandsOk, Shape, Needs, ClaimOk, ClaimOf;
    ProbePc(s.used, s.owner, c, n, ptr, i);
    ProbeClaims(s.pages, s.who, c, n, ptr, i);
    if ptr + i in s.pages {
      PlainGotoKeeps(s, c, Probe(n, ptr + 1, 0));
    } else if i + 1 >= n {
      PlainGotoKeeps(s, c, Acquire(VmmLock, false, Loop(ptr, n, 0)));
    } else {
      PlainGotoKeeps(s, c, Probe(n, ptr, i + 1));
    }
  }

  lemma ProbeClaims(pages: map<nat, nat>, who: map<nat, Who>, c: nat, n: nat, ptr: nat, i: nat)
    requires ClaimOk(pages, who, c, ClaimOf(Probe(n, ptr, i))) && i < n
    ensures ClaimOk(pages, who, c, ClaimOf(Probe(n, ptr + 1, 0)))
    ensures ptr + i !in pages ==> ClaimOk(pages, who, c, ClaimOf(Probe(n, ptr, i + 1)))
    ensures ptr + i !in pages && i + 1 >= n ==> ClaimOk(pages, who, c, Build(ptr, n, 0))
  {
  }

  lemma ProbePc(used: set<nat>, owner: map<nat, Owner>, c: nat, n: nat, ptr: nat, i: nat)
    ensures forall a, b :: HandsOk(used, owner, c, Probe(n, a, b)) && Needs(Probe(n, a, b)) == {HeapLock}
    ensures forall a, b: nat :: b < n ==> Shape(Probe(n, a, b))
    ensures var pc := Acquire(VmmLock, false, Loop(ptr, n, 0));
            HandsOk(used, owner, c, pc) && Needs(pc) == {HeapLock} && ClaimOf(pc) == Build(ptr, n, 0)
                && (n > 0 ==> Shape(pc))
    ensures Shape(Probe(n, ptr, i)) ==> i < n
  {
    assert Needs(Loop(ptr, n, 0)) == {VmmLock, HeapLock} && ClaimOf(Loop(ptr, n, 0)) == Build(ptr, n, 0);
  }

  /** On the way down the tables. */
  lemma DescendKeeps(s: State, c: nat, ptr: nat, n: nat, i: nat, f: nat, k: nat, choice: Choice)
    requires Inv(s) && c in s.cpus && s.cpus[c].pc == Descend(ptr, n, i, f, k)
    ensures Inv(StepDescend(s, c, ptr, n, i, f, k, choice))
  {
    hide Inv, FramesOk, ClaimOk, Shape, Needs, HandsOk, ClaimOf, InFlight;
    MoverFacts(s, c);
    DescendPc(s.used, s.owner, c, ptr, n, i, f, k);
    if choice == Yes && k < 3 {
      PlainGotoKeeps(s, c, Acquire(PmmLock, false, FindFrame(Table(ptr, n, i, f, k))));
    } else if choice == Outside && k > 0 {
      HangPc(s, c);
      PlainGotoKeeps(s, c, Hang);
    } else {
      PlainGotoKeeps(s, c, MapPage(ptr, n, i, f));
    }
  }

  lemma HangPc(s: State, c: nat)
    ensures Shape(Hang) && Needs(Hang) == {} && ClaimOf(Hang) == NoClaim && HandsOk(s.used, s.owner, c, Hang)
    ensures ClaimOk(s.pages, s.who, c, ClaimOf(Hang))
  {
  }

  lemma DescendPc(used: set<nat>, owner: map<nat, Owner>, c: nat, ptr: nat, n: nat, i: nat, f: nat, k: nat)
    requires HandsOk(used, owner, c, Descend(ptr, n, i, f, k)) && Shape(Descend(ptr, n, i, f, k))
    ensures forall pc ::
              (pc == Acquire(PmmLock, false, FindFrame(Table(ptr, n, i, f, k))) || pc == MapPage(ptr, n, i, f)) ==>
              && Shape(pc) && Needs(pc) == Needs(Descend(ptr, n, i, f, k))
              && ClaimOf(pc) == ClaimOf(Descend(ptr, n, i, f, k))
              && HandsOk(used, owner, c, pc)
  {
    var find := FindFrame(Table(ptr, n, i, f, k));
    assert f in InFlight(Descend(ptr, n, i, f, k));
    assert InFlight(find) == {f} && Needs(find) == {PmmLock, VmmLock, HeapLock} && ClaimOf(find) == Build(ptr, n, i)
        && Shape(find);
    assert InFlight(Acquire(PmmLock, false, find)) == {f};
  }

  lemma CheckKeeps(s: State, c: nat, choice: Choice)
    requires Inv(s) && c in s.cpus && s.cpus[c].pc.Check?
    ensures Inv(Step(s, c, choice))
  {
    MoverFacts(s, c);
    hide Inv, LocksOk, LiveOk, FramesOk, AllHands, AllClaims;
    var n := s.cpus[c].pc.n;
    if choice == Yes {
      PlainGotoKeeps(s, c, Probe(n, HEAP_START, 0));
    } else {
      PlainGotoKeeps(s, c, Release(HeapLock, Idle));
    }
  }

  lemma LoopKeeps(s: State, c: nat, choice: Choice)
    requires Inv(s) && c in s.cpus && s.cpus[c].pc.Loop?
    ensures Inv(Step(s, c, choice))
  {
    MoverFacts(s, c);
    hide Inv, LocksOk, LiveOk, FramesOk, AllHands, AllClaims, ClaimOk;
    var pc := s.cpus[c].pc;
    if pc.i < pc.n {
      var use := Backing(pc.ptr, pc.n, pc.i);
      assert ClaimOf(FindFrame(use)) == Build(pc.ptr, pc.n, pc.i);
      assert Needs(FindFrame(use)) == {PmmLock, VmmLock, HeapLock} && InFlight(FindFrame(use)) == {};
      PlainGotoKeeps(s, c, Acquire(PmmLock, false, FindFrame(use)));
    } else {
      assert ClaimOf(Finish(pc.ptr, pc.n)) == Build(pc.ptr, pc.n, pc.n) && InFlight(Finish(pc.ptr, pc.n)) == {};
      assert Needs(Finish(pc.ptr, pc.n)) == {HeapLock};
      PlainGotoKeeps(s, c, Release(VmmLock, Finish(pc.ptr, pc.n)));
    }
  }

  lemma FreeLoopKeeps(s: State, c: nat, choice: Choice, ptr: nat, n: nat, i: nat)
    requires Inv(s) && c in s.cpus && s.cpus[c].pc == FreeLoop(ptr, n, i)
    ensures Inv(Step(s, c, choice))
  {
    hide Inv, FramesOk, ClaimOk, Shape, Needs, HandsOk, ClaimOf;
    if i >= n {
      FreeLoopLeave(s, c, ptr, n, i);
      PlainGotoKeeps(s, c, Release(VmmLock, Idle));
    } else {
      FreeLoopMover(s, c, ptr, n, i);
      PlainGotoKeeps(s, c, Acquire(PmmLock, false, ClearFrame(s.pages[ptr + i], Unmap(ptr, n, i))));
    }
  }

  lemma FreeLoopLeave(s: State, c: nat, ptr: nat, n: nat, i: nat)
    requires Inv(s) && c in s.cpus && s.cpus[c].pc == FreeLoop(ptr, n, i)
    ensures var pc' := Release(VmmLock, Idle);
            && Shape(pc') && Needs(pc') <= s.cpus[c].held && ClaimOk(s.pages, s.who, c, ClaimOf(pc'))
            && HandsOk(s.used, s.owner, c, pc')
  {
    MoverFacts(s, c);
    hide Inv, LocksOk, LiveOk, AllHands, AllClaims, FramesOk;
    assert Needs(Idle) == {} && ClaimOf(Idle) == NoClaim && InFlight(Idle) == {};
  }

  lemma FreeLoopMover(s: State, c: nat, ptr: nat, n: nat, i: nat)
    requires Inv(s) && c in s.cpus && s.cpus[c].pc == FreeLoop(ptr, n, i) && i < n
    ensures ptr + i in s.pages
    ensures var pc' := Acquire(PmmLock, false, ClearFrame(s.pages[ptr + i], Unmap(ptr, n, i)));
            && Shape(pc') && Needs(pc') <= s.cpus[c].held && ClaimOk(s.pages, s.who, c, ClaimOf(pc'))
            && HandsOk(s.used, s.owner, c, pc')
  {
    MoverFacts(s, c);
    hide Inv, LocksOk, LiveOk, AllHands, AllClaims;
    var p := ptr + i;
    assert p in s.who && s.who[p] == Dying(c);
    assert p in s.pages.Keys;
    var clear := ClearFrame(s.pages[p], Unmap(ptr, n, i));
    hide FramesOk, ClaimOk;
    assert Needs(Unmap(ptr, n, i)) == {VmmLock};
    assert Needs(clear) == {VmmLock, PmmLock};
    assert ClaimOf(clear) == Tear(ptr, n, i, false) && InFlight(clear) == {};
  }

  lemma StepKeeps(s: State, c: nat, choice: Choice)
    requires Inv(s)
    ensures Inv(Step(s, c, choice))
  {
    hide Inv;
    if c in s.cpus {
      match s.cpus[c].pc
      case Idle => IdleKeeps(s, c, choice);
      case Acquire(l, tested, next) => AcquireKeeps(s, c);
      case Release(l, next) => ReleaseKeeps(s, c);
      case FindFrame(use) => FindKeeps(s, c, choice);
      case MarkFrame(use, f) => MarkKeeps(s, c, use, f);
      case Descend(ptr, n, i, f, k) => DescendKeeps(s, c, ptr, n, i, f, k, choice);
      case Hang =>
      case MapPage(ptr, n, i, f) => MapKeeps(s, c, ptr, n, i, f);
      case Finish(ptr, n) => FinishKeeps(s, c);
      case ClearFrame(f, next) => ClearKeeps(s, c, f, next);
      case Unmap(ptr, n, i) => UnmapKeeps(s, c, ptr, n, i);
      case Check(n) => CheckKeeps(s, c, choice);
      case Probe(n, ptr, i) => ProbeKeeps(s, c, n, ptr, i);
      case Loop(ptr, n, i) => LoopKeeps(s, c, choice);
      case FreeLoop(ptr, n, i) => FreeLoopKeeps(s, c, choice, ptr, n, i);
    }
  }

  // ----- Theorem -----

  lemma {:induction false} RunKeeps(s: State, schedule: seq<(nat, Choice)>)
    requires Inv(s)
    ensures Inv(Run(s, schedule))
    decreases |schedule|
  {
    hide Inv, Step;
    if schedule != [] {
      StepKeeps(s, schedule[0].0, schedule[0].1);
      RunKeeps(Step(s, schedule[0].0, schedule[0].1), schedule[1..]);
    }
  }

  /** Each lock has at most one holder, and no two CPUs are in code that runs under the same lock. */
  ghost predicate MutualExclusion(s: State) {
    forall c, d :: c in s.cpus && d in s.cpus && c != d ==>
      s.cpus[c].held !! s.cpus[d].held && Needs(s.cpus[c].pc) !! Needs(s.cpus[d].pc)
  }

  /** Page `p` belongs to the live block at `a`. */
  predicate InBlock(s: State, a: nat, p: nat) {
    a in s.live && a <= p < a + s.live[a]
  }

  /** Live ranges do not overlap. */
  ghost predicate BlocksApart(s: State) {
    forall a, b, p :: InBlock(s, a, p) && InBlock(s, b, p) ==> a == b
  }

  /** Every page of a live block has a frame that is marked used and that no other live page has. */
  ghost predicate FramesApart(s: State) {
    && (forall a, p :: InBlock(s, a, p) ==> p in s.pages && s.pages[p] in s.used)
    && (forall a, b, p, q :: InBlock(s, a, p) && InBlock(s, b, q) && p != q ==> s.pages[p] != s.pages[q])
  }

  /** A frame that a CPU has chosen or carries is in no live block and in no other CPU's hands. */
  ghost predicate HandsApart(s: State) {
    && (forall c, a, p :: c in s.cpus && InBlock(s, a, p) ==>
          p in s.pages && s.pages[p] !in InFlight(s.cpus[c].pc) && s.pages[p] !in Chosen(s.cpus[c].pc))
    && (forall c, d :: c in s.cpus && d in s.cpus && c != d ==>
          (InFlight(s.cpus[c].pc) + Chosen(s.cpus[c].pc)) !! (InFlight(s.cpus[d].pc) + Chosen(s.cpus[d].pc)))
  }

  lemma InvSafe(s: State)
    requires Inv(s)
    ensures MutualExclusion(s) && BlocksApart(s) && FramesApart(s)
  {
    hide AllHands, AllClaims, Shape, Needs;
    forall a, p | InBlock(s, a, p) ensures p in s.pages && s.who[p] == Live(a) && s.pages[p] in s.owner
        && s.owner[s.pages[p]] == ByPage(p) {
    }
  }

  lemma InvHandsApart(s: State)
    requires Inv(s)
    ensures HandsApart(s)
  {
    forall c, a, p | c in s.cpus && InBlock(s, a, p)
      ensures p in s.pages && s.pages[p] !in InFlight(s.cpus[c].pc) && s.pages[p] !in Chosen(s.cpus[c].pc)
    {
      MoverFacts(s, c);
      hide Inv, ClaimOk, ClaimOf, Needs, Shape, InFlight, Chosen;
      assert s.who[p] == Live(a);
    }
    forall c, d | c in s.cpus && d in s.cpus && c != d
      ensures (InFlight(s.cpus[c].pc) + Chosen(s.cpus[c].pc)) !! (InFlight(s.cpus[d].pc) + Chosen(s.cpus[d].pc))
    {
      MoverFacts(s, c);
      MoverFacts(s, d);
      hide Inv, ClaimOk, ClaimOf;
      hide Needs, Shape;
      if Chosen(s.cpus[c].pc) != {} {
        ChosenNeedsPmmLock(s.cpus[c].pc);
        Exclusive(s.cpus, s.taken, c, d, PmmLock);
      }
      if Chosen(s.cpus[d].pc) != {} {
        ChosenNeedsPmmLock(s.cpus[d].pc);
      }
    }
  }

  /** The frame of a table is marked used, backs no page and is in no CPU's hands. */
  ghost predicate TablesApart(s: State) {
    forall f :: f in s.owner && s.owner[f] == ByTables ==>
      && f in s.used
      && (forall p :: p in s.pages && p in s.who && !s.who[p].Cleared? ==> s.pages[p] != f)
      && (forall c :: c in s.cpus ==> f !in InFlight(s.cpus[c].pc) && f !in Chosen(s.cpus[c].pc))
  }

  lemma InvTablesApart(s: State)
    requires Inv(s)
    ensures TablesApart(s)
  {
    hide LocksOk, AllClaims, InFlight, Chosen, Clearing, LiveOk;
  }

  /** A frame that a caller of `pmm_alloc_page` has is marked used, backs no page, and is in no other CPU's hands. */
  ghost predicate CallersApart(s: State) {
    forall f, c :: f in s.owner && s.owner[f] == ByCpu(c) ==>
      && f in s.used
      && (forall p :: p in s.pages && p in s.who && !s.who[p].Cleared? ==> s.pages[p] != f)
      && (forall d :: d in s.cpus ==> f !in Chosen(s.cpus[d].pc) && (d != c ==> f !in InFlight(s.cpus[d].pc)))
  }

  lemma InvCallersApart(s: State)
    requires Inv(s)
    ensures CallersApart(s)
  {
    hide LocksOk, AllClaims, InFlight, Chosen, Clearing, LiveOk;
  }

  /** Concurrent safety, in every interleaving from the start. */
  lemma ConcurrentSafety(s: State, schedule: seq<(nat, Choice)>)
    requires Initial(s)
    ensures var e := Run(s, schedule);
            && MutualExclusion(e) && BlocksApart(e) && FramesApart(e)
            && HandsApart(e) && TablesApart(e) && CallersApart(e)
  {
    InitialInv(s);
    RunKeeps(s, schedule);
    hide Inv, Run;
    InvSafe(Run(s, schedule));
    InvHandsApart(Run(s, schedule));
    InvTablesApart(Run(s, schedule));
    InvCallersApart(Run(s, schedule));
  }

  /** The frame whose record a step of a CPU at `pc` changes. */
  function Touched(pc: Pc): set<nat> {
    match pc
    case MarkFrame(_, f) => {f}
    case MapPage(_, _, _, f) => {f}
    case ClearFrame(f, _) => {f}
    case _ => {}
  }

  lemma TouchedOnly(s: State, c: nat, choice: Choice, f: nat)
    requires c in s.cpus && f !in Touched(s.cpus[c].pc) && f in s.owner
    ensures var s' := Step(s, c, choice); f in s'.owner && s'.owner[f] == s.owner[f]
  {
    hide StepIdle, StepAcquire, StepRelease, StepFind, StepFinish, StepUnmap, StepProbe, StepDescend, StepClear;
    hide StepMark, StepMap;
    match s.cpus[c].pc
    case Idle => IdleOwner(s, c, choice);
    case Acquire(l, b, next) => LockOwner(s, c, l, b, next);
    case Release(l, next) => LockOwner(s, c, l, false, next);
    case FindFrame(use) => FindOwner(s, c, use, choice);
    case MarkFrame(use, g) => MarkTouches(s, c, use, g, f);
    case MapPage(ptr, n, i, g) => MapTouches(s, c, ptr, n, i, g, f);
    case ClearFrame(g, next) => ClearTouches(s, c, g, next, f);
    case Descend(ptr, n, i, g, k) => DescendOwner(s, c, ptr, n, i, g, k, choice);
    case Probe(n, ptr, i) => PageOwner(s, c, ptr, n, i);
    case Finish(ptr, n) => PageOwner(s, c, ptr, n, 0);
    case Unmap(ptr, n, i) => PageOwner(s, c, ptr, n, i);
    case _ =>
  }

  lemma MarkTouches(s: State, c: nat, use: Use, g: nat, f: nat)
    requires c in s.cpus && f != g && f in s.owner
    ensures f in StepMark(s, c, use, g).owner && StepMark(s, c, use, g).owner[f] == s.owner[f]
  {
  }

  lemma MapTouches(s: State, c: nat, ptr: nat, n: nat, i: nat, g: nat, f: nat)
    requires c in s.cpus && f != g && f in s.owner
    ensures f in StepMap(s, c, ptr, n, i, g).owner && StepMap(s, c, ptr, n, i, g).owner[f] == s.owner[f]
  {
  }

  lemma ClearTouches(s: State, c: nat, g: nat, next: Pc, f: nat)
    requires c in s.cpus && f != g && f in s.owner
    ensures f in StepClear(s, c, g, next).owner && StepClear(s, c, g, next).owner[f] == s.owner[f]
  {
    hide Mark;
  }

  // Steps that hand over no frame.

  lemma IdleOwner(s: State, c: nat, choice: Choice)
    requires c in s.cpus
    ensures StepIdle(s, c, choice).owner == s.owner
  {
    hide Mark;
  }

  lemma LockOwner(s: State, c: nat, l: Lock, b: bool, next: Pc)
    requires c in s.cpus
    ensures StepAcquire(s, c, l, b, next).owner == s.owner && StepRelease(s, c, l, next).owner == s.owner
  {
  }

  lemma FindOwner(s: State, c: nat, use: Use, choice: Choice)
    requires c in s.cpus
    ensures StepFind(s, c, use, choice).owner == s.owner
  {
    hide Mark;
  }

  lemma DescendOwner(s: State, c: nat, ptr: nat, n: nat, i: nat, f: nat, k: nat, choice: Choice)
    requires c in s.cpus
    ensures StepDescend(s, c, ptr, n, i, f, k, choice).owner == s.owner
  {
  }

  lemma PageOwner(s: State, c: nat, ptr: nat, n: nat, i: nat)
    requires c in s.cpus
    ensures StepFinish(s, c, ptr, n).owner == s.owner && StepUnmap(s, c, ptr, n, i).owner == s.owner
            && StepProbe(s, c, n, ptr, i).owner == s.owner
  {
    hide Mark, Drop;
  }

  lemma TableUntouched(used: set<nat>, pages: map<nat, nat>, owner: map<nat, Owner>, who: map<nat, Who>, c: nat, pc: Pc,
                       f: nat)
    requires FramesOk(used, pages, owner, who) && HandsOk(used, owner, c, pc) && f in owner && owner[f] == ByTables
    ensures f !in Touched(pc)
  {
    match pc
    case MarkFrame(use, g) => assert g in Chosen(pc);
    case MapPage(ptr, n, i, g) => assert g in InFlight(pc);
    case ClearFrame(g, next) => assert Clearing(pc) == pc;
    case _ =>
  }

  /** A table frame stays one: no CPU frees it. */
  lemma TableStays(s: State, c: nat, choice: Choice, f: nat)
    requires Inv(s) && f in s.owner && s.owner[f] == ByTables
    ensures var s' := Step(s, c, choice); f in s'.owner && s'.owner[f] == ByTables
  {
    if c in s.cpus {
      MoverFacts(s, c);
      hide Inv, FramesOk, HandsOk, LocksOk, AllHands, AllClaims, LiveOk, ClaimOk, Needs, Shape, ClaimOf, Touched, Step;
      TableUntouched(s.used, s.pages, s.owner, s.who, c, s.cpus[c].pc, f);
      TouchedOnly(s, c, choice, f);
    }
  }

  /** Over every run. */
  lemma {:induction false} TablesStay(s: State, schedule: seq<(nat, Choice)>, f: nat)
    requires Inv(s) && f in s.owner && s.owner[f] == ByTables
    ensures var e := Run(s, schedule); f in e.owner && e.owner[f] == ByTables
    decreases |schedule|
  {
    hide Step, Inv;
    if schedule != [] {
      StepKeeps(s, schedule[0].0, schedule[0].1);
      TableStays(s, schedule[0].0, schedule[0].1, f);
      TablesStay(Step(s, schedule[0].0, schedule[0].1), schedule[1..], f);
    }
  }

  // ----- After a NULL return -----

  /** CPU `c` holds the frame mutex and is nowhere near code that releases it. */
  ghost predicate Stuck(s: State, c: nat) {
    c in s.cpus && PmmLock in s.cpus[c].held && PmmLock !in Needs(s.cpus[c].pc)
  }

  /** `s'` has the same frames in use as `s`; CPU `d` still does not need the frame mutex and has not given it up. */
  ghost predicate Harmless(s: State, s': State, d: nat) {
    && d in s.cpus && s'.used == s.used && s'.cpus.Keys == s.cpus.Keys
    && (forall e :: e in s.cpus && e != d ==> s'.cpus[e] == s.cpus[e])
    && (PmmLock in s.cpus[d].held ==> PmmLock in s'.cpus[d].held) && PmmLock !in Needs(s'.cpus[d].pc)
  }

  lemma GotoHarmless(s: State, d: nat, pc: Pc)
    requires d in s.cpus && PmmLock !in Needs(pc)
    ensures Harmless(s, Goto(s, d, pc), d)
  {
    hide Needs;
  }

  lemma AcquireHarmless(s: State, d: nat, l: Lock, tested: bool, next: Pc)
    requires d in s.cpus && s.cpus[d].pc == Acquire(l, tested, next) && Shape(Acquire(l, tested, next))
             && PmmLock in s.taken
    ensures Harmless(s, StepAcquire(s, d, l, tested, next), d)
  {
    AcquireNeeds(l, next);
    hide Needs, Shape;
  }

  lemma AcquireNeeds(l: Lock, next: Pc)
    requires Shape(Acquire(l, false, next))
    ensures forall b :: PmmLock !in Needs(Acquire(l, b, next))
    ensures l != PmmLock ==> PmmLock !in Needs(next)
  {
    assert l == VmmLock ==> Needs(next) <= {VmmLock, HeapLock};
    assert l == HeapLock ==> Needs(next) == {HeapLock};
  }

  lemma ReleaseHarmless(s: State, d: nat, l: Lock, next: Pc)
    requires d in s.cpus && s.cpus[d].pc == Release(l, next) && PmmLock !in Needs(Release(l, next))
    ensures Harmless(s, StepRelease(s, d, l, next), d)
  {
    assert Needs(Release(l, next)) == Needs(next) + {l};
    hide Needs;
  }

  lemma IdleHarmless(s: State, d: nat, choice: Choice)
    requires d in s.cpus && s.cpus[d].pc == Idle
    ensures Harmless(s, StepIdle(s, d, choice), d)
  {
    assert Needs(FindFrame(Bare)) == {PmmLock} && Needs(Idle) == {};
    match choice
    case CallAlloc => assert PmmLock !in Needs(Acquire(PmmLock, false, FindFrame(Bare)));
    case CallFree(f) => assert PmmLock !in Needs(Acquire(PmmLock, false, ClearFrame(f, Idle)));
    case CallMalloc(n) => assert Needs(Check(n)) == {HeapLock};
    case CallKfree(ptr) =>
      if ptr in s.live {
        assert Needs(FreeLoop(ptr, s.live[ptr], 0)) == {VmmLock};
      }
    case _ =>
  }

  /** Needs of the places that a CPU without the frame mutex goes to. */
  lemma FarNeeds(n: nat, ptr: nat, i: nat, f: nat, k: nat)
    ensures PmmLock !in Needs(Probe(n, ptr, i)) && PmmLock !in Needs(Release(HeapLock, Idle))
            && PmmLock !in Needs(Loop(ptr, n, i))
    ensures PmmLock !in Needs(Acquire(VmmLock, false, Loop(ptr, n, i)))
            && PmmLock !in Needs(Release(VmmLock, Finish(ptr, n)))
    ensures PmmLock !in Needs(Acquire(PmmLock, false, FindFrame(Backing(ptr, n, i))))
            && PmmLock !in Needs(Release(VmmLock, Idle))
    ensures PmmLock !in Needs(Acquire(PmmLock, false, ClearFrame(f, Unmap(ptr, n, i))))
            && PmmLock !in Needs(FreeLoop(ptr, n, i))
    ensures PmmLock !in Needs(Acquire(PmmLock, false, FindFrame(Table(ptr, n, i, f, k))))
    ensures PmmLock !in Needs(MapPage(ptr, n, i, f)) && PmmLock !in Needs(Hang)
  {
    assert Needs(Loop(ptr, n, i)) == {VmmLock, HeapLock} && Needs(Finish(ptr, n)) == {HeapLock} && Needs(Idle) == {};
  }

  lemma HeapStepHarmless(s: State, d: nat, choice: Choice)
    requires d in s.cpus && (s.cpus[d].pc.Check? || s.cpus[d].pc.Probe? || s.cpus[d].pc.Loop? || s.cpus[d].pc.Finish?)
    ensures Harmless(s, Step(s, d, choice), d)
  {
    hide Needs, Harmless, Mark;
    match s.cpus[d].pc
    case Check(n) =>
      FarNeeds(n, HEAP_START, 0, 0, 0);
      GotoHarmless(s, d, if choice == Yes then Probe(n, HEAP_START, 0) else Release(HeapLock, Idle));
    case Probe(n, ptr, i) =>
      FarNeeds(n, ptr + 1, 0, 0, 0);
      FarNeeds(n, ptr, 0, 0, 0);
      FarNeeds(n, ptr, i + 1, 0, 0);
      ProbeHarmless(s, d, n, ptr, i);
    case Loop(ptr, n, i) =>
      FarNeeds(n, ptr, i, 0, 0);
      GotoHarmless(s, d, if i < n then Acquire(PmmLock, false, FindFrame(Backing(ptr, n, i)))
                   else Release(VmmLock, Finish(ptr, n)));
    case Finish(ptr, n) =>
      FarNeeds(n, ptr, 0, 0, 0);
      FinishHarmless(s, d, ptr, n);
  }

  lemma ProbeHarmless(s: State, d: nat, n: nat, ptr: nat, i: nat)
    requires d in s.cpus && PmmLock !in Needs(Probe(n, ptr + 1, 0)) && PmmLock !in Needs(Probe(n, ptr, i + 1))
    requires PmmLock !in Needs(Acquire(VmmLock, false, Loop(ptr, n, 0)))
    ensures Harmless(s, StepProbe(s, d, n, ptr, i), d)
  {
    hide Needs;
  }

  lemma FinishHarmless(s: State, d: nat, ptr: nat, n: nat)
    requires d in s.cpus && PmmLock !in Needs(Release(HeapLock, Idle))
    ensures Harmless(s, StepFinish(s, d, ptr, n), d)
  {
    hide Needs, Mark;
  }

  lemma PageStepHarmless(s: State, d: nat, choice: Choice)
    requires d in s.cpus
    requires s.cpus[d].pc.FreeLoop? || s.cpus[d].pc.Unmap? || s.cpus[d].pc.MapPage?
    ensures Harmless(s, Step(s, d, choice), d)
  {
    hide Needs, Drop;
    match s.cpus[d].pc
    case FreeLoop(ptr, n, i) =>
      FarNeeds(n, ptr, i + 1, 0, 0);
      if ptr + i in s.pages {
        FarNeeds(n, ptr, i, s.pages[ptr + i], 0);
      }
    case Unmap(ptr, n, i) => FarNeeds(n, ptr, i + 1, 0, 0);
    case MapPage(ptr, n, i, f) => FarNeeds(n, ptr, i + 1, f, 0);
  }

  lemma DescendHarmless(s: State, d: nat, choice: Choice)
    requires d in s.cpus && s.cpus[d].pc.Descend?
    ensures Harmless(s, Step(s, d, choice), d)
  {
    hide Needs, Harmless;
    var pc := s.cpus[d].pc;
    FarNeeds(pc.n, pc.ptr, pc.i, pc.f, pc.k);
    GotoHarmless(s, d, Step(s, d, choice).cpus[d].pc);
  }

  /** A step of a CPU that does not need the frame mutex, while it is taken, neither takes it nor touches the bitmap. */
  lemma StepHarmless(s: State, d: nat, choice: Choice)
    requires d in s.cpus && Shape(s.cpus[d].pc) && PmmLock !in Needs(s.cpus[d].pc) && PmmLock in s.taken
    ensures Harmless(s, Step(s, d, choice), d)
  {
    hide Harmless, Shape, StepIdle, StepAcquire, StepRelease, StepFind, StepMark, StepMap, StepFinish, StepClear;
    hide StepUnmap, StepProbe, StepDescend;
    match s.cpus[d].pc
    case Idle => IdleHarmless(s, d, choice);
    case Acquire(l, tested, next) => AcquireHarmless(s, d, l, tested, next);
    case Release(l, next) => ReleaseHarmless(s, d, l, next);
    case Check(n) => HeapStepHarmless(s, d, choice);
    case Probe(n, ptr, i) => HeapStepHarmless(s, d, choice);
    case Loop(ptr, n, i) => HeapStepHarmless(s, d, choice);
    case Finish(ptr, n) => HeapStepHarmless(s, d, choice);
    case Hang => HangHarmless(s, d);
    case Descend(_, _, _, _, _) => DescendHarmless(s, d, choice);
    case _ => PageStepHarmless(s, d, choice);
  }

  lemma HangHarmless(s: State, d: nat)
    requires d in s.cpus && s.cpus[d].pc == Hang
    ensures Harmless(s, s, d)
  {
  }

  lemma StuckStays(s: State, c: nat, d: nat, choice: Choice)
    requires Inv(s) && Stuck(s, c)
    ensures Stuck(Step(s, d, choice), c) && Step(s, d, choice).used == s.used
  {
    if d in s.cpus {
      StuckFacts(s, c, d);
      hide Inv, Needs, Shape, Step;
      StepHarmless(s, d, choice);
    }
  }

  lemma StuckFacts(s: State, c: nat, d: nat)
    requires Inv(s) && Stuck(s, c) && d in s.cpus
    ensures Shape(s.cpus[d].pc) && PmmLock !in Needs(s.cpus[d].pc) && PmmLock in s.taken
  {
    hide FramesOk, LiveOk, AllHands, AllClaims, Needs, Shape;
    assert s.cpus[c].held <= s.taken && Needs(s.cpus[d].pc) <= s.cpus[d].held;
    assert c != d ==> s.cpus[c].held !! s.cpus[d].held;
  }

  lemma {:induction false} StuckForever(s: State, c: nat, schedule: seq<(nat, Choice)>)
    requires Inv(s) && Stuck(s, c)
    ensures Run(s, schedule).used == s.used && Stuck(Run(s, schedule), c)
    decreases |schedule|
  {
    hide Inv, Step, Stuck;
    if schedule != [] {
      StepKeeps(s, schedule[0].0, schedule[0].1);
      StuckStays(s, c, schedule[0].0, schedule[0].1);
      StuckForever(Step(s, schedule[0].0, schedule[0].1), c, schedule[1..]);
    }
  }

  /** Once `pmm_alloc_page` has found no frame, in whatever call, its mutex is never released: no CPU allocates or frees
      a frame ever again, in any interleaving. */
  lemma NullPathDeadlocks(s: State, c: nat, use: Use, schedule: seq<(nat, Choice)>)
    requires Inv(s) && c in s.cpus && s.cpus[c].pc == FindFrame(use)
    ensures var e := Run(Step(s, c, NotFound), schedule); e.used == s.used && PmmLock in e.taken
  {
    var s1 := Step(s, c, NotFound);
    StepKeeps(s, c, NotFound);
    NullIsStuck(s, c, use);
    hide Inv, Step;
    StuckForever(s1, c, schedule);
    RunKeeps(s1, schedule);
    StuckFacts(Run(s1, schedule), c, c);
  }

  lemma NullIsStuck(s: State, c: nat, use: Use)
    requires Inv(s) && c in s.cpus && s.cpus[c].pc == FindFrame(use)
    ensures Stuck(Step(s, c, NotFound), c) && Step(s, c, NotFound).used == s.used
  {
    MoverFacts(s, c);
    hide Inv, FramesOk, LiveOk, AllHands, AllClaims, LocksOk, ClaimOk, HandsOk, Mark;
    assert PmmLock in Needs(FindFrame(use));
    assert Needs(Release(HeapLock, Idle)) == {HeapLock} && Needs(Idle) == {};
    match use
    case Bare =>
    case Backing(ptr, n, i) => assert Needs(Release(VmmLock, Release(HeapLock, Idle))) == {VmmLock, HeapLock};
    case Table(_, _, _, _, _) =>
  }

  // ----- What the heap lock is for -----

  /** In every interleaving a CPU that searches for a range or builds one holds the heap lock, and no other CPU does. */
  lemma RangesUnderHeapLock(s: State, schedule: seq<(nat, Choice)>, c: nat)
    requires Initial(s) && c in Run(s, schedule).cpus
    requires ClaimOf(Run(s, schedule).cpus[c].pc).Scan? || ClaimOf(Run(s, schedule).cpus[c].pc).Build?
    ensures var e := Run(s, schedule);
            && HeapLock in e.cpus[c].held
            && forall d :: d in e.cpus && d != c ==>
                 HeapLock !in e.cpus[d].held && !ClaimOf(e.cpus[d].pc).Scan? && !ClaimOf(e.cpus[d].pc).Build?
  {
    var e := Run(s, schedule);
    InitialInv(s);
    RunKeeps(s, schedule);
    MoverFacts(e, c);
    hide Inv, Run, FramesOk, LiveOk, AllHands, AllClaims, HandsOk, ClaimOk;
    ClaimNeedsHeapLock(e.cpus[c].pc);
    forall d | d in e.cpus && d != c
      ensures HeapLock !in e.cpus[d].held && !ClaimOf(e.cpus[d].pc).Scan? && !ClaimOf(e.cpus[d].pc).Build?
    {
      LocksFacts(e.cpus, e.taken, d);
      assert e.cpus[c].held !! e.cpus[d].held;
      hide LocksOk, Needs, Shape, ClaimOf;
      if ClaimOf(e.cpus[d].pc).Scan? || ClaimOf(e.cpus[d].pc).Build? {
        ClaimNeedsHeapLock(e.cpus[d].pc);
      }
    }
  }

  /** Two CPUs inside `vmm_alloc` without the heap lock. */
  function WithoutHeapLock(n: nat): State {
    State(map[0 := Cpu(Check(n), {}), 1 := Cpu(Check(n), {})], {}, {}, map[], map[], map[], map[])
  }

  /** Then both find the same range and go on to build it: the search alone does not keep ranges apart. */
  lemma OverlapWithoutHeapLock()
    ensures var e := Run(WithoutHeapLock(1), [(0, Yes), (0, Yes), (1, Yes), (1, Yes)]);
            && 0 in e.cpus && 1 in e.cpus
            && ClaimOf(e.cpus[0].pc) == Build(HEAP_START, 1, 0) && ClaimOf(e.cpus[1].pc) == Build(HEAP_START, 1, 0)
  {
    var s := WithoutHeapLock(1);
    var es := [(0, Yes), (0, Yes), (1, Yes), (1, Yes)];
    var build := Acquire(VmmLock, false, Loop(HEAP_START, 1, 0));
    var s1 := Step(s, 0, Yes);
    assert s1 == Goto(s, 0, Probe(1, HEAP_START, 0));
    var s2 := Step(s1, 0, Yes);
    assert s2 == Goto(s1, 0, build);
    var s3 := Step(s2, 1, Yes);
    assert s3 == Goto(s2, 1, Probe(1, HEAP_START, 0));
    var s4 := Step(s3, 1, Yes);
    assert s4 == Goto(s3, 1, build);
    assert es[1..] == [(0, Yes), (1, Yes), (1, Yes)] && es[1..][1..] == [(1, Yes), (1, Yes)]
        && es[1..][1..][1..] == [(1, Yes)];
    RunFour(s, es);
    assert ClaimOf(Loop(HEAP_START, 1, 0)) == Build(HEAP_START, 1, 0);
  }

  lemma RunFour(s: State, es: seq<(nat, Choice)>)
    requires |es| == 4
    ensures Run(s, es) == Step(Step(Step(Step(s, es[0].0, es[0].1), es[1].0, es[1].1), es[2].0, es[2].1), es[3].0,
                               es[3].1)
  {
    hide Step;
    var s1 := Step(s, es[0].0, es[0].1);
    var s2 := Step(s1, es[1].0, es[1].1);
    var s3 := Step(s2, es[2].0, es[2].1);
    var s4 := Step(s3, es[3].0, es[3].1);
    assert Run(s3, es[3..]) == Run(s4, es[3..][1..]) == s4;
    assert es[2..][1..] == es[3..];
    assert Run(s2, es[2..]) == s4;
    assert es[1..][1..] == es[2..];
    assert Run(s1, es[1..]) == s4;
  }
}
