/**
 The thread scheduler and the synchronisation primitives as one step machine.

 Every interrupts-off section of `thread.c` and `synch.c` is one step, and so is
 every unsynchronised write the primitives make between two sections
 (`lock->holder`, the list of a condition variable).  The timer may preempt the
 current thread between any two steps.  Runs in which a caller keeps interrupts
 off across several sections are runs of this machine without those preemptions.

 Fields marked "history" are not in the kernel.  No step reads one to decide what
 to do; they record what happened, so that properties of whole runs can be stated.
 */
module KernelState {
  import opened Options

  type Tid = nat
  type LockId = nat
  type CondId = nat

  /** The semaphores: free-standing ones, the one inside each lock, and the
      private one that `cond_wait` keeps on its caller's stack. */
  datatype SemaId = Shared(n: nat) | OfLock(l: LockId) | Private(t: Tid)

  datatype Status = Running | Ready | Blocked | Dying

  /** Why a thread is inside `sema_down`. */
  datatype Why =
    | Plain(n: nat)
    | Acquire(l: LockId)
    | Await(c: CondId, l: LockId)
    | Reacquire(c: CondId, l: LockId)

  /** Whether a signal is a single one or part of a broadcast; for a broadcast,
      the waiters it found when it began and those it has taken so far (history). */
  datatype Signaller = Single | Loop(start: seq<Tid>, taken: seq<Tid>)

  /** Where a thread is inside the primitives. */
  datatype Pc =
    | User                                        // outside all of them
    | DownTest(why: Why)                          // about to test the value
    | DownAsleep(why: Why)                        // queued on the semaphore
    | DownWoken(why: Why)                         // popped, has not tested again
    | SetHolder(why: Why)                         // down done, holder not written
    | WaitRelease(c: CondId, l: LockId)           // queued on c, still holding l
    | ReleaseUp(l: LockId, wait: Option<CondId>)  // holder cleared, up not done
    | SignalUp(c: CondId, l: LockId, w: Tid, mode: Signaller)  // popped w, up not done
    | BroadcastLoop(c: CondId, l: LockId, start: seq<Tid>, taken: seq<Tid>)
    | YieldCommit                                 // thread_yield past its first test
    | CreateUnblock(child: Tid)
    | Spawned                                     // created, not yet unblocked
    | IdleEntry | IdleUp | IdleLoop
    | Exited

  datatype Thread = Thread(
    status: Status,
    priority: int,
    pc: Pc,
    owns: set<LockId>,  // history: downs of lock semaphores without their up
    since: nat)         // history: when it last entered the ready list

  datatype Sema = Sema(
    value: nat,
    waiters: seq<Tid>,
    init: nat, ups: nat, downs: nat,  // history
    popped: set<Tid>)                 // history: woken and not yet tested again

  datatype Cond = Cond(
    lock: LockId,          // the one lock this condition is used with
    waiters: seq<Tid>,
    waited: seq<Tid>,      // history: every thread that queued, in order
    signalled: seq<Tid>)   // history: every thread popped, in order

  datatype Kernel = Kernel(
    threads: map<Tid, Thread>,
    cur: Tid,
    idle: Option<Tid>,
    ready: seq<Tid>,
    semas: map<SemaId, Sema>,
    holders: map<LockId, Option<Tid>>,
    conds: map<CondId, Cond>,
    clock: nat,        // history
    freed: set<Tid>,   // threads whose page went back to the allocator
    panic: bool)       // an ASSERT of the scheduler failed

  const INITIAL: Tid := 1
  const IDLE: Tid := 2
  const PRI_MIN := 0
  const PRI_DEFAULT := 31
  const PRI_MAX := 63
  const IDLE_STARTED := Shared(0)

  function FreshSema(value: nat): Sema {
    Sema(value, [], value, 0, 0, {})
  }

  function SemaOf(why: Why, t: Tid): SemaId {
    match why
    case Plain(n) => Shared(n)
    case Acquire(l) => OfLock(l)
    case Await(_, _) => Private(t)
    case Reacquire(_, l) => OfLock(l)
  }

  function LocksTaken(why: Why): set<LockId> {
    match why
    case Plain(_) => {}
    case Acquire(l) => {l}
    case Await(_, _) => {}
    case Reacquire(_, l) => {l}
  }

  function AfterDown(why: Why): Pc {
    match why
    case Plain(_) => User
    case Acquire(_) => SetHolder(why)
    case Await(c, l) => DownTest(Reacquire(c, l))
    case Reacquire(_, _) => SetHolder(why)
  }

  // ---------------------------------------------------------------------
  // thread.c
  // ---------------------------------------------------------------------

  function Prio(k: Kernel, t: Tid): int {
    if t in k.threads then k.threads[t].priority else 0
  }

  /** Where `list_insert_ordered` with `prioritycmp` stops: the first entry of q
      whose priority is below p. */
  function Position(k: Kernel, q: seq<Tid>, p: int): (i: nat)
    ensures i <= |q|
    ensures forall j :: 0 <= j < i ==> Prio(k, q[j]) >= p
    ensures i < |q| ==> Prio(k, q[i]) < p
  {
    if q == [] || Prio(k, q[0]) < p then 0 else 1 + Position(k, q[1..], p)
  }

  function SetPc(k: Kernel, t: Tid, pc: Pc): Kernel
    requires t in k.threads
  {
    k.(threads := k.threads[t := k.threads[t].(pc := pc)])
  }

  /** Puts t on the ready list behind all entries of its own priority. */
  function Enqueue(k: Kernel, t: Tid): Kernel
    requires t in k.threads
  {
    var i := Position(k, k.ready, k.threads[t].priority);
    k.(ready := k.ready[..i] + [t] + k.ready[i..],
       threads := k.threads[t := k.threads[t].(status := Ready, since := k.clock)],
       clock := k.clock + 1)
  }

  /** thread_unblock, with its ASSERT. */
  function Unblock(k: Kernel, t: Tid): Kernel {
    if t in k.threads && k.threads[t].status == Blocked then Enqueue(k, t) else k.(panic := true)
  }

  function NextToRun(k: Kernel): Option<Tid> {
    if k.ready == [] then k.idle else Some(k.ready[0])
  }

  /** schedule and thread_schedule_tail; the caller has already changed the status
      of the current thread. */
  function Schedule(k: Kernel): Kernel
    requires k.cur in k.threads
  {
    match NextToRun(k)
    case None => k.(panic := true)
    case Some(t) =>
      if t !in k.threads || k.threads[k.cur].status == Running then k.(panic := true)
      else
        var dead := k.threads[k.cur].status == Dying && k.cur != INITIAL && t != k.cur;
        k.(cur := t,
           ready := if k.ready == [] then [] else k.ready[1..],
           threads := k.threads[t := k.threads[t].(status := Running)],
           freed := if dead then k.freed + {k.cur} else k.freed)
  }

  /** The interrupts-off part of thread_yield; pc is where the caller resumes. */
  function Yield(k: Kernel, pc: Pc): Kernel
    requires k.cur in k.threads
  {
    var k1 := SetPc(k, k.cur, pc);
    if k.idle == Some(k.cur)
    then Schedule(k1.(threads := k1.threads[k.cur := k1.threads[k.cur].(status := Ready)]))
    else Schedule(Enqueue(k1, k.cur))
  }

  /** The current thread stops in state `status` and another one is switched to. */
  function Stop(k: Kernel, status: Status, pc: Pc): Kernel
    requires k.cur in k.threads
  {
    Schedule(k.(threads := k.threads[k.cur := k.threads[k.cur].(status := status, pc := pc)]))
  }

  // ---------------------------------------------------------------------
  // synch.c
  // ---------------------------------------------------------------------

  /** The value of s goes up by one. */
  function Counted(k: Kernel, s: SemaId): Kernel
    requires s in k.semas
  {
    var m := k.semas[s];
    k.(semas := k.semas[s := m.(value := m.value + 1, ups := m.ups + 1)])
  }

  /** The thread that has waited for s longest leaves its queue. */
  function PoppedFrom(k: Kernel, s: SemaId): Kernel
    requires s in k.semas && k.semas[s].waiters != []
  {
    var m := k.semas[s];
    k.(semas := k.semas[s := m.(waiters := m.waiters[1..], popped := m.popped + {m.waiters[0]})])
  }

  /** A thread that was popped becomes ready to test again. */
  function Wake(k: Kernel, t: Tid): Kernel {
    if t in k.threads && k.threads[t].pc.DownAsleep?
    then Unblock(SetPc(k, t, DownWoken(k.threads[t].pc.why)), t)
    else k.(panic := true)
  }

  /** The interrupts-off section of sema_up. */
  function Up(k: Kernel, s: SemaId): Kernel
    requires s in k.semas
  {
    if k.semas[s].waiters == [] then Counted(k, s)
    else Wake(PoppedFrom(Counted(k, s), s), k.semas[s].waiters[0])
  }

  /** The decrement that ends a down. */
  function Take(k: Kernel, why: Why): Kernel
    requires k.cur in k.threads && SemaOf(why, k.cur) in k.semas && k.semas[SemaOf(why, k.cur)].value > 0
  {
    var s := SemaOf(why, k.cur);
    var m := k.semas[s];
    var th := k.threads[k.cur];
    k.(semas := k.semas[s := m.(value := m.value - 1, downs := m.downs + 1, popped := m.popped - {k.cur})],
       threads := k.threads[k.cur := th.(pc := AfterDown(why), owns := th.owns + LocksTaken(why))])
  }

  /** sema_down from one test of the value to the decrement or to the switch. */
  function Down(k: Kernel, why: Why): Kernel
    requires k.cur in k.threads && SemaOf(why, k.cur) in k.semas
  {
    var s := SemaOf(why, k.cur);
    var m := k.semas[s];
    if m.value > 0 then Take(k, why)
    else
      Stop(k.(semas := k.semas[s := m.(waiters := m.waiters + [k.cur], popped := m.popped - {k.cur})]),
           Blocked, DownAsleep(why))
  }

  /** The interrupts-off section of sema_try_down by thread code; `why` says what
      the caller does with a success. */
  function TryDown(k: Kernel, why: Why): Kernel
    requires k.cur in k.threads && SemaOf(why, k.cur) in k.semas
  {
    if k.semas[SemaOf(why, k.cur)].value > 0 then Take(k, why) else k
  }

  /** The same section when an interrupt handler runs it. */
  function HandlerTryDown(k: Kernel, s: SemaId): Kernel
    requires s in k.semas
  {
    var m := k.semas[s];
    if m.value > 0 then k.(semas := k.semas[s := m.(value := m.value - 1, downs := m.downs + 1)]) else k
  }

  /** cond_wait up to its lock_release. */
  function WaitEnqueue(k: Kernel, c: CondId): Kernel
    requires k.cur in k.threads && c in k.conds
  {
    var cd := k.conds[c];
    SetPc(k.(semas := k.semas[Private(k.cur) := FreshSema(0)],
             conds := k.conds[c := cd.(waiters := cd.waiters + [k.cur], waited := cd.waited + [k.cur])]),
          k.cur, WaitRelease(c, cd.lock))
  }

  /** cond_signal up to its sema_up, on a nonempty list. */
  function SignalPop(k: Kernel, c: CondId, mode: Signaller): Kernel
    requires k.cur in k.threads && c in k.conds && k.conds[c].waiters != []
  {
    var cd := k.conds[c];
    var w := cd.waiters[0];
    SetPc(k.(conds := k.conds[c := cd.(waiters := cd.waiters[1..], signalled := cd.signalled + [w])]),
          k.cur, SignalUp(c, cd.lock, w, mode))
  }

  /** The holder write of lock_acquire and lock_try_acquire. */
  function WriteHolder(k: Kernel, l: LockId): Kernel
    requires k.cur in k.threads
  {
    SetPc(k.(holders := k.holders[l := Some(k.cur)]), k.cur, User)
  }

  /** The holder write of lock_release. */
  function ClearHolder(k: Kernel, l: LockId, wait: Option<CondId>): Kernel
    requires k.cur in k.threads
  {
    SetPc(k.(holders := k.holders[l := None]), k.cur, ReleaseUp(l, wait))
  }

  /** The sema_up of lock_release; ownership ends with it. */
  function ReleaseSection(k: Kernel, l: LockId, wait: Option<CondId>): Kernel
    requires k.cur in k.threads && OfLock(l) in k.semas
  {
    var th := k.threads[k.cur];
    var pc := match wait case None => User case Some(c) => DownTest(Await(c, l));
    Up(k.(threads := k.threads[k.cur := th.(pc := pc, owns := th.owns - {l})]), OfLock(l))
  }

  // ---------------------------------------------------------------------
  // Steps
  // ---------------------------------------------------------------------

  datatype Step =
    | CallDown(n: nat) | CallTryDown(n: nat) | CallUp(n: nat)
    | CallAcquire(l: LockId) | CallTryAcquire(l: LockId) | CallRelease(l: LockId)
    | CallWait(c: CondId) | CallSignal(c: CondId) | CallBroadcast(c: CondId)
    | CallYield(commit: bool)              // outcome of the unsynchronised test
    | CallSetPriority(p: int, commit: bool)
    | CallCreate(t: Tid, p: int)
    | CallExit
    | Advance                              // the next section of a primitive
    | Preempt(commit: bool)                // timer interrupt that asks to yield
    | HandlerUp(n: nat) | HandlerTry(n: nat)

  predicate Holds(k: Kernel, l: LockId) {
    l in k.holders && k.holders[l] == Some(k.cur)
  }

  /** The test at the head of thread_yield when nothing can intervene; on an empty
      list it reads the list header as if it were a thread, so either outcome. */
  predicate YieldTest(k: Kernel, commit: bool) {
    k.ready == [] || commit == (Prio(k, k.cur) <= Prio(k, k.ready[0]))
  }

  /** Which steps the current thread, the timer and the interrupt handlers can
      take.  The lock and condition calls are guarded by their own ASSERTs. */
  predicate Enabled(k: Kernel, step: Step) {
    !k.panic && k.cur in k.threads &&
    var pc := k.threads[k.cur].pc;
    match step
    case CallDown(n) => pc.User? && Shared(n) in k.semas
    case CallTryDown(n) => pc.User? && Shared(n) in k.semas
    case CallUp(n) => pc.User? && Shared(n) in k.semas
    case CallAcquire(l) => pc.User? && l in k.holders && !Holds(k, l)
    case CallTryAcquire(l) => pc.User? && OfLock(l) in k.semas && l in k.holders && !Holds(k, l)
    case CallRelease(l) => pc.User? && Holds(k, l)
    case CallWait(c) => pc.User? && c in k.conds && Holds(k, k.conds[c].lock)
    case CallSignal(c) => pc.User? && c in k.conds && Holds(k, k.conds[c].lock)
    case CallBroadcast(c) => pc.User? && c in k.conds && Holds(k, k.conds[c].lock)
    case CallYield(_) => pc.User?
    case CallSetPriority(_, _) => pc.User?
    case CallCreate(t, p) => pc.User? && t !in k.threads && PRI_MIN <= p <= PRI_MAX
    case CallExit => pc.User?
    case Advance => CanAdvance(k, pc)
    case Preempt(commit) => YieldTest(k, commit)
    case HandlerUp(n) => Shared(n) in k.semas
    case HandlerTry(n) => Shared(n) in k.semas
  }

  predicate CanAdvance(k: Kernel, pc: Pc) {
    match pc
    case DownTest(why) => SemaOf(why, k.cur) in k.semas
    case DownWoken(why) => SemaOf(why, k.cur) in k.semas
    case SetHolder(_) => true
    case WaitRelease(_, l) => Holds(k, l)
    case ReleaseUp(l, _) => OfLock(l) in k.semas
    case SignalUp(_, _, w, _) => Private(w) in k.semas
    case BroadcastLoop(c, _, _, _) => c in k.conds
    case YieldCommit => true
    case CreateUnblock(_) => true
    case IdleEntry => true
    case IdleUp => IDLE_STARTED in k.semas
    case IdleLoop => true
    case _ => false
  }

  function AdvanceStep(k: Kernel): Kernel
    requires k.cur in k.threads && CanAdvance(k, k.threads[k.cur].pc)
  {
    var t := k.cur;
    match k.threads[t].pc
    case DownTest(why) => Down(k, why)
    case DownWoken(why) => Down(k, why)
    case SetHolder(why) => (match why
                            case Acquire(l) => WriteHolder(k, l)
                            case Reacquire(_, l) => WriteHolder(k, l)
                            case _ => k)
    case WaitRelease(c, l) => ClearHolder(k, l, Some(c))
    case ReleaseUp(l, wait) => ReleaseSection(k, l, wait)
    case SignalUp(c, l, w, mode) =>
      Up(SetPc(k, t, match mode case Single => User
                              case Loop(start, taken) => BroadcastLoop(c, l, start, taken)),
         Private(w))
    case BroadcastLoop(c, l, start, taken) =>
      if k.conds[c].waiters == [] then SetPc(k, t, User)
      else SignalPop(k, c, Loop(start, taken + [k.conds[c].waiters[0]]))
    case YieldCommit => Yield(k, User)
    case CreateUnblock(child) => Unblock(StartChild(SetPc(k, t, User), child), child)
    case IdleEntry => SetPc(k.(idle := Some(t)), t, IdleUp)
    case IdleUp => Up(SetPc(k, t, IdleLoop), IDLE_STARTED)
    case IdleLoop => Stop(k, Blocked, IdleLoop)
    case _ => k
  }

  /** A new thread begins at its thread function. */
  function StartChild(k: Kernel, child: Tid): Kernel {
    if child in k.threads then SetPc(k, child, User) else k
  }

  function Next(k: Kernel, step: Step): Kernel
    requires Enabled(k, step)
  {
    var t := k.cur;
    match step
    case CallDown(n) => SetPc(k, t, DownTest(Plain(n)))
    case CallTryDown(n) => TryDown(k, Plain(n))
    case CallUp(n) => Up(k, Shared(n))
    case CallAcquire(l) => SetPc(k, t, DownTest(Acquire(l)))
    case CallTryAcquire(l) => TryDown(k, Acquire(l))
    case CallRelease(l) => ClearHolder(k, l, None)
    case CallWait(c) => WaitEnqueue(k, c)
    case CallSignal(c) => if k.conds[c].waiters == [] then k else SignalPop(k, c, Single)
    case CallBroadcast(c) => SetPc(k, t, BroadcastLoop(c, k.conds[c].lock, k.conds[c].waiters, []))
    case CallYield(commit) => if commit then SetPc(k, t, YieldCommit) else k
    case CallSetPriority(p, commit) =>
      k.(threads := k.threads[t := k.threads[t].(priority := p, pc := if commit then YieldCommit else User)])
    case CallCreate(c, p) =>
      SetPc(k.(threads := k.threads[c := Thread(Blocked, p, Spawned, {}, 0)],
               semas := k.semas[Private(c) := FreshSema(0)]),
            t, CreateUnblock(c))
    case CallExit => Stop(k, Dying, Exited)
    case Advance => AdvanceStep(k)
    case Preempt(commit) => if commit then Yield(k, k.threads[t].pc) else k
    case HandlerUp(n) => Up(k, Shared(n))
    case HandlerTry(n) => HandlerTryDown(k, Shared(n))
  }

  /** The state thread_start leaves when it turns interrupts on: the initial thread
      runs, the idle thread waits for its first turn, and every semaphore, lock and
      condition variable is as its initialiser made it. */
  ghost predicate Init(k: Kernel) {
    && k.threads == map[INITIAL := Thread(Running, PRI_DEFAULT, User, {}, 0),
                        IDLE := Thread(Ready, PRI_MIN, IdleEntry, {}, 0)]
    && k.cur == INITIAL && k.idle == None && k.ready == [IDLE]
    && k.clock == 1 && k.freed == {} && !k.panic
    && IDLE_STARTED in k.semas
    && (forall s :: s in k.semas ==> k.semas[s] == FreshSema(k.semas[s].init))
    && (forall t :: Private(t) in k.semas <==> t in k.threads)
    && (forall l :: OfLock(l) in k.semas <==> l in k.holders)
    && (forall l :: l in k.holders ==> k.holders[l] == None && k.semas[OfLock(l)].init == 1)
    && (forall c :: c in k.conds ==>
          k.conds[c].lock in k.holders && k.conds[c] == Cond(k.conds[c].lock, [], [], []))
  }

  /** A run: states[0] is initial and each state follows from the one before. */
  ghost predicate IsRun(states: seq<Kernel>, steps: seq<Step>) {
    && |states| == |steps| + 1
    && Init(states[0])
    && forall i :: 0 <= i < |steps| ==>
         Enabled(states[i], steps[i]) && states[i + 1] == Next(states[i], steps[i])
  }
}
