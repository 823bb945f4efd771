/**
 What single steps do, said of the states before and after them and not of the functions
 that make one of the other: which steps up a semaphore, which take from it, which put a
 thread to sleep, and what all of them leave alone.
 */
module KernelSteps {
  import opened Options
  import opened KernelState
  import opened KernelInvariant
  import opened KernelSafety
  import opened KernelSchedProof
  import opened KernelRuns

  // ---------------------------------------------------------------------
  // Laws
  // ---------------------------------------------------------------------

  /** The semaphore that a step ups: a call of sema_up, from a thread or an interrupt
      handler, or the one inside lock_release, cond_signal or the idle thread's start. */
  function UpOn(k: Kernel, step: Step): Option<SemaId> {
    match step
    case CallUp(n) => Some(Shared(n))
    case HandlerUp(n) => Some(Shared(n))
    case Advance =>
      if k.cur !in k.threads then None
      else (match k.threads[k.cur].pc
            case ReleaseUp(l, _) => Some(OfLock(l))
            case SignalUp(_, _, w, _) => Some(Private(w))
            case IdleUp => Some(IDLE_STARTED)
            case _ => None)
    case _ => None
  }

  function ValueOf(k: Kernel, s: SemaId): nat {
    if s in k.semas then k.semas[s].value else 0
  }

  /** The semaphore whose value a step tests and, if it is positive, takes from. */
  function TestOn(k: Kernel, step: Step): Option<SemaId> {
    match step
    case CallTryDown(n) => Some(Shared(n))
    case CallTryAcquire(l) => Some(OfLock(l))
    case HandlerTry(n) => Some(Shared(n))
    case Advance =>
      if k.cur !in k.threads then None
      else (match k.threads[k.cur].pc
            case DownTest(why) => Some(SemaOf(why, k.cur))
            case DownWoken(why) => Some(SemaOf(why, k.cur))
            case _ => None)
    case _ => None
  }

  function DownOn(k: Kernel, step: Step): Option<SemaId> {
    var s := TestOn(k, step);
    if s.Some? && ValueOf(k, s.value) > 0 then s else None
  }

  /** One up of s: its value rises by one; the thread that has waited longest, if any does,
      leaves the queue and becomes ready; nothing else of the semaphores, locks and
      conditions changes, and nobody else becomes ready. */
  ghost predicate Upped(k: Kernel, k': Kernel, s: SemaId) {
    && s in k.semas && s in k'.semas
    && var m, m' := k.semas[s], k'.semas[s];
    && m'.value == m.value + 1 && m'.ups == m.ups + 1 && m'.downs == m.downs && m'.init == m.init
    && k'.semas == k.semas[s := m'] && k'.holders == k.holders && k'.conds == k.conds && k'.cur == k.cur
    && (if m.waiters == [] then m'.waiters == [] && k'.ready == k.ready
        else
          && m'.waiters == m.waiters[1..]
          && m.waiters[0] in k'.threads && k'.threads[m.waiters[0]].status == Ready && k'.threads[m.waiters[0]].pc.DownWoken?
          && forall u :: u in k'.ready <==> u in k.ready || u == m.waiters[0])
  }

  /** One down of s: its value was positive and falls by one, and nobody notices. */
  ghost predicate Downed(k: Kernel, k': Kernel, s: SemaId) {
    && s in k.semas && s in k'.semas
    && var m, m' := k.semas[s], k'.semas[s];
    && m.value > 0 && m'.value == m.value - 1 && m'.downs == m.downs + 1 && m'.ups == m.ups && m'.init == m.init
    && m'.waiters == m.waiters && k'.semas == k.semas[s := m']
    && k'.holders == k.holders && k'.conds == k.conds && k'.cur == k.cur && k'.ready == k.ready
  }

  /** Thread t found the value of s zero: it is queued last, blocked, and another runs. */
  ghost predicate Slept(k: Kernel, k': Kernel, s: SemaId, t: Tid) {
    && s in k.semas && s in k'.semas && t in k'.threads
    && var m, m' := k.semas[s], k'.semas[s];
    && m.value == 0 == m'.value && m'.downs == m.downs && m'.ups == m.ups && m'.init == m.init
    && m'.waiters == m.waiters + [t] && k'.semas == k.semas[s := m']
    && k'.holders == k.holders && k'.conds == k.conds
    && k'.cur != t && k'.threads[t].status == Blocked
  }

  /** Same place, locks and priority. */
  predicate Same(th: Thread, th': Thread) {
    th'.pc == th.pc && th'.owns == th.owns && th'.priority == th.priority
  }

  /** The same, except that a sleeper may have been woken and a new thread started. */
  predicate Stays(th: Thread, th': Thread) {
    && th'.owns == th.owns && th'.priority == th.priority
    && (th'.pc == th.pc || (th.pc.DownAsleep? && th'.pc == DownWoken(th.pc.why)) || (th.pc.Spawned? && th'.pc.User?))
  }

  // ---------------------------------------------------------------------
  // Sections
  // ---------------------------------------------------------------------

  /** What synchronisation sees of a state, apart from the threads. */
  ghost predicate SameSync(k: Kernel, k': Kernel) {
    k'.semas == k.semas && k'.holders == k.holders && k'.conds == k.conds
  }

  lemma ScheduleDoes(k: Kernel, u: Tid)
    requires k.cur in k.threads
    ensures SameSync(k, Schedule(k))
    ensures u in k.threads ==> u in Schedule(k).threads && Same(k.threads[u], Schedule(k).threads[u])
  {
  }

  lemma EnqueueDoes(k: Kernel, t: Tid, u: Tid)
    requires t in k.threads
    ensures SameSync(k, Enqueue(k, t)) && Enqueue(k, t).cur == k.cur && Enqueue(k, t).threads[t].status == Ready
    ensures u in k.threads ==> u in Enqueue(k, t).threads && Same(k.threads[u], Enqueue(k, t).threads[u])
    ensures u in Enqueue(k, t).ready <==> u in k.ready || u == t
  {
    var i := Position(k, k.ready, k.threads[t].priority);
    assert k.ready == k.ready[..i] + k.ready[i..];
  }

  lemma StopDoes(k: Kernel, status: Status, pc: Pc, u: Tid)
    requires k.cur in k.threads
    ensures SameSync(k, Stop(k, status, pc))
    ensures u in k.threads && u != k.cur ==> u in Stop(k, status, pc).threads && Same(k.threads[u], Stop(k, status, pc).threads[u])
    ensures k.cur in Stop(k, status, pc).threads
    ensures Same(k.threads[k.cur].(pc := pc), Stop(k, status, pc).threads[k.cur])
  {
    var k1 := k.(threads := k.threads[k.cur := k.threads[k.cur].(status := status, pc := pc)]);
    ScheduleDoes(k1, u);
    ScheduleDoes(k1, k.cur);
  }

  lemma YieldDoes(k: Kernel, pc: Pc, u: Tid)
    requires k.cur in k.threads
    ensures SameSync(k, Yield(k, pc))
    ensures u in k.threads && u != k.cur ==> u in Yield(k, pc).threads && Same(k.threads[u], Yield(k, pc).threads[u])
    ensures k.cur in Yield(k, pc).threads && Same(k.threads[k.cur].(pc := pc), Yield(k, pc).threads[k.cur])
  {
    var k1 := SetPc(k, k.cur, pc);
    if k.idle == Some(k.cur) {
      var k2 := k1.(threads := k1.threads[k.cur := k1.threads[k.cur].(status := Ready)]);
      ScheduleDoes(k2, u);
      ScheduleDoes(k2, k.cur);
    } else {
      EnqueueDoes(k1, k.cur, u);
      EnqueueDoes(k1, k.cur, k.cur);
      ScheduleDoes(Enqueue(k1, k.cur), u);
      ScheduleDoes(Enqueue(k1, k.cur), k.cur);
    }
  }

  lemma WakeDoes(k: Kernel, t: Tid, u: Tid)
    requires !Wake(k, t).panic
    ensures var k' := Wake(k, t);
      && SameSync(k, k') && k'.cur == k.cur && t in k.threads && t in k'.threads
      && k'.threads[t].status == Ready && k'.threads[t].pc.DownWoken?
      && (u in k'.ready <==> u in k.ready || u == t)
      && (u in k.threads ==> u in k'.threads && Stays(k.threads[u], k'.threads[u]))
  {
    var k1 := SetPc(k, t, DownWoken(k.threads[t].pc.why));
    assert Wake(k, t) == Enqueue(k1, t);
    EnqueueDoes(k1, t, u);
    EnqueueDoes(k1, t, t);
  }

  /** sema_up is one up. */
  lemma UpDoes(k: Kernel, s: SemaId)
    requires s in k.semas && !Up(k, s).panic
    ensures Upped(k, Up(k, s), s)
  {
    if k.semas[s].waiters != [] {
      var k1, t := PoppedFrom(Counted(k, s), s), k.semas[s].waiters[0];
      var k' := Wake(k1, t);
      forall u ensures u in k'.ready <==> u in k.ready || u == t { WakeDoes(k1, t, u); }
      WakeDoes(k1, t, t);
      CountPop(k, s);
    }
  }

  lemma CountPop(k: Kernel, s: SemaId)
    requires s in k.semas && k.semas[s].waiters != []
    ensures var k1, m := PoppedFrom(Counted(k, s), s), k.semas[s];
      && k1 == k.(semas := k.semas[s := k1.semas[s]])
      && k1.semas[s] == m.(value := m.value + 1, ups := m.ups + 1, waiters := m.waiters[1..], popped := m.popped + {m.waiters[0]})
  {
  }

  lemma UpLeaves(k: Kernel, s: SemaId, u: Tid)
    requires s in k.semas && !Up(k, s).panic && u in k.threads
    ensures u in Up(k, s).threads && Stays(k.threads[u], Up(k, s).threads[u])
  {
    if k.semas[s].waiters != [] { WakeDoes(PoppedFrom(Counted(k, s), s), k.semas[s].waiters[0], u); }
  }

  /** The same up seen from a state in which only the current thread's record differs. */
  lemma UpFrom(k: Kernel, kd: Kernel, s: SemaId)
    requires kd == k.(threads := kd.threads) && s in kd.semas && Upped(kd, Up(kd, s), s)
    ensures Upped(k, Up(kd, s), s)
  {
  }

  lemma TakeDoes(k: Kernel, why: Why)
    requires k.cur in k.threads && SemaOf(why, k.cur) in k.semas && ValueOf(k, SemaOf(why, k.cur)) > 0
    ensures Downed(k, Take(k, why), SemaOf(why, k.cur))
    ensures var th := k.threads[k.cur];
      Take(k, why).threads == k.threads[k.cur := th.(pc := AfterDown(why), owns := th.owns + LocksTaken(why))]
  {
  }

  lemma SleepDoes(k: Kernel, why: Why)
    requires SchedOk(k) && k.cur != IDLE && SemaOf(why, k.cur) in k.semas && ValueOf(k, SemaOf(why, k.cur)) == 0
    ensures Slept(k, Down(k, why), SemaOf(why, k.cur), k.cur)
    ensures Same(k.threads[k.cur].(pc := DownAsleep(why)), Down(k, why).threads[k.cur])
  {
    var s, t := SemaOf(why, k.cur), k.cur;
    var m := k.semas[s];
    var kx := k.(semas := k.semas[s := m.(waiters := m.waiters + [t], popped := m.popped - {t})]);
    StopDoes(kx, Blocked, DownAsleep(why), t);
    SchedFrame(k, kx);
    StopKeeps(kx, Blocked, DownAsleep(why));
    var k' := Down(k, why);
    assert k' == Stop(kx, Blocked, DownAsleep(why));
    assert StatusOk(k', t);
  }

  // ---------------------------------------------------------------------
  // Steps
  // ---------------------------------------------------------------------

  lemma ReleaseUps(k: Kernel, l: LockId, wait: Option<CondId>)
    requires k.cur in k.threads && OfLock(l) in k.semas && !ReleaseSection(k, l, wait).panic
    ensures Upped(k, ReleaseSection(k, l, wait), OfLock(l))
  {
    var pc := match wait case None => User case Some(c) => DownTest(Await(c, l));
    UpDoes(Disowned(k, l, pc), OfLock(l));
    UpFrom(k, Disowned(k, l, pc), OfLock(l));
  }

  lemma MovedUps(k: Kernel, pc: Pc, s: SemaId)
    requires k.cur in k.threads && s in k.semas && !Up(SetPc(k, k.cur, pc), s).panic
    ensures Upped(k, Up(SetPc(k, k.cur, pc), s), s)
  {
    UpDoes(SetPc(k, k.cur, pc), s);
    UpFrom(k, SetPc(k, k.cur, pc), s);
  }

  lemma UpInside(k: Kernel)
    requires Enabled(k, Advance) && UpOn(k, Advance).Some? && !AdvanceStep(k).panic
    ensures Upped(k, AdvanceStep(k), UpOn(k, Advance).value)
  {
    match k.threads[k.cur].pc {
      case ReleaseUp(l, wait) => ReleaseUps(k, l, wait);
      case SignalUp(c, l, w, mode) =>
        SignalUpIs(k);
        MovedUps(k, AfterSignal(k.threads[k.cur].pc), Private(w));
      case IdleUp => MovedUps(k, IdleLoop, IDLE_STARTED);
    }
  }

  /** Every step that is an up does what an up does. */
  lemma UpStep(k: Kernel, step: Step, s: SemaId)
    requires Inv(k) && Enabled(k, step) && UpOn(k, step) == Some(s)
    ensures Upped(k, Next(k, step), s)
  {
    StepKeeps(k, step);
    if step.Advance? { UpInside(k); } else { UpDoes(k, s); }
  }

  /** Every step that takes from a semaphore does what a down does. */
  lemma DownStep(k: Kernel, step: Step, s: SemaId)
    requires Inv(k) && Enabled(k, step) && DownOn(k, step) == Some(s)
    ensures Downed(k, Next(k, step), s)
  {
    match step {
      case CallTryDown(n) => TakeDoes(k, Plain(n));
      case CallTryAcquire(l) => TakeDoes(k, Acquire(l));
      case HandlerTry(n) =>
      case Advance => TakeDoes(k, k.threads[k.cur].pc.why);
    }
  }

  /** A thread that finds the value zero goes to sleep; sema_try_down does nothing then. */
  lemma ZeroStep(k: Kernel, step: Step, s: SemaId)
    requires Inv(k) && Enabled(k, step) && TestOn(k, step) == Some(s) && ValueOf(k, s) == 0
    ensures if step.Advance? then Slept(k, Next(k, step), s, k.cur) else Next(k, step) == k
  {
    if step.Advance? {
      assert StatusOk(k, k.cur) && WaitOk(k, k.cur);
      SleepDoes(k, k.threads[k.cur].pc.why);
    }
  }

  /** The counts of s are the same. */
  ghost predicate SameCounts(k: Kernel, k': Kernel, s: SemaId) {
    && s in k.semas && s in k'.semas && k'.semas[s].value == k.semas[s].value && k'.semas[s].init == k.semas[s].init
    && k'.semas[s].ups == k.semas[s].ups && k'.semas[s].downs == k.semas[s].downs
  }

  lemma AdvanceCounts(k: Kernel, s: SemaId)
    requires Enabled(k, Advance) && !AdvanceStep(k).panic && s in k.semas && UpOn(k, Advance).None? && TestOn(k, Advance).None?
    ensures SameCounts(k, AdvanceStep(k), s)
  {
    match k.threads[k.cur].pc {
      case YieldCommit => YieldDoes(k, User, k.cur);
      case IdleLoop => StopDoes(k, Blocked, IdleLoop, k.cur);
      case CreateUnblock(child) => UnblockCounts(k, s);
      case _ =>
    }
  }

  lemma UnblockCounts(k: Kernel, s: SemaId)
    requires k.cur in k.threads && k.threads[k.cur].pc.CreateUnblock? && s in k.semas && !AdvanceStep(k).panic
    ensures SameCounts(k, AdvanceStep(k), s)
  {
    var child := k.threads[k.cur].pc.child;
    EnqueueDoes(StartChild(SetPc(k, k.cur, User), child), child, child);
  }

  /** Apart from a private semaphore, which cond_wait initialises, nothing but ups and
      downs of s changes its counts. */
  lemma OtherStep(k: Kernel, step: Step, s: SemaId)
    requires Inv(k) && Enabled(k, step) && s in k.semas && !s.Private?
    requires UpOn(k, step) != Some(s) && DownOn(k, step) != Some(s)
    ensures SameCounts(k, Next(k, step), s)
  {
    if UpOn(k, step).Some? {
      UpStep(k, step, UpOn(k, step).value);
    } else if TestOn(k, step).Some? {
      TestCounts(k, step, TestOn(k, step).value, s);
    } else {
      StepKeeps(k, step);
      PlainCounts(k, step, s);
    }
  }

  lemma PlainCounts(k: Kernel, step: Step, s: SemaId)
    requires Enabled(k, step) && !Next(k, step).panic && s in k.semas && !s.Private? && UpOn(k, step).None? && TestOn(k, step).None?
    ensures SameCounts(k, Next(k, step), s)
  {
    match step {
      case Advance => AdvanceCounts(k, s);
      case Preempt(commit) => YieldDoes(k, k.threads[k.cur].pc, k.cur);
      case CallExit => StopDoes(k, Dying, Exited, k.cur);
      case _ =>
    }
  }

  lemma TestCounts(k: Kernel, step: Step, r: SemaId, s: SemaId)
    requires Inv(k) && Enabled(k, step) && s in k.semas && TestOn(k, step) == Some(r) && DownOn(k, step) != Some(s)
    ensures SameCounts(k, Next(k, step), s)
  {
    if ValueOf(k, r) > 0 { DownStep(k, step, r); } else { ZeroStep(k, step, r); }
  }

  // ---------------------------------------------------------------------
  // What a step leaves of a thread
  // ---------------------------------------------------------------------

  /** A thread that is being created has not started. */
  ghost predicate ChildSpawned(k: Kernel) {
    k.cur in k.threads && k.threads[k.cur].pc.CreateUnblock? ==>
      k.threads[k.cur].pc.child in k.threads && k.threads[k.threads[k.cur].pc.child].pc.Spawned?
  }

  lemma UpInsideStays(k: Kernel, u: Tid)
    requires Enabled(k, Advance) && UpOn(k, Advance).Some? && !AdvanceStep(k).panic && u in k.threads && u != k.cur
    ensures u in AdvanceStep(k).threads && Stays(k.threads[u], AdvanceStep(k).threads[u])
  {
    var t := k.cur;
    match k.threads[t].pc {
      case ReleaseUp(l, wait) =>
        UpLeaves(Disowned(k, l, match wait case None => User case Some(c) => DownTest(Await(c, l))), OfLock(l), u);
      case SignalUp(c, l, w, mode) =>
        SignalUpIs(k);
        UpLeaves(SetPc(k, t, AfterSignal(k.threads[t].pc)), Private(w), u);
      case IdleUp => UpLeaves(SetPc(k, t, IdleLoop), IDLE_STARTED, u);
    }
  }

  lemma CreateStays(k: Kernel, u: Tid)
    requires k.cur in k.threads && k.threads[k.cur].pc.CreateUnblock? && ChildSpawned(k) && !AdvanceStep(k).panic
    requires u in k.threads && u != k.cur
    ensures u in AdvanceStep(k).threads && Stays(k.threads[u], AdvanceStep(k).threads[u])
  {
    var child := k.threads[k.cur].pc.child;
    EnqueueDoes(StartChild(SetPc(k, k.cur, User), child), child, u);
  }

  lemma AdvanceStays(k: Kernel, u: Tid)
    requires Enabled(k, Advance) && !AdvanceStep(k).panic && ChildSpawned(k) && u in k.threads && u != k.cur
    ensures u in AdvanceStep(k).threads && Stays(k.threads[u], AdvanceStep(k).threads[u])
  {
    match k.threads[k.cur].pc {
      case DownTest(why) => DownStays(k, why, u);
      case DownWoken(why) => DownStays(k, why, u);
      case ReleaseUp(l, wait) => UpInsideStays(k, u);
      case SignalUp(c, l, w, mode) => UpInsideStays(k, u);
      case IdleUp => UpInsideStays(k, u);
      case YieldCommit => YieldDoes(k, User, u);
      case IdleLoop => StopDoes(k, Blocked, IdleLoop, u);
      case CreateUnblock(child) => CreateStays(k, u);
      case _ =>
    }
  }

  lemma DownStays(k: Kernel, why: Why, u: Tid)
    requires k.cur in k.threads && SemaOf(why, k.cur) in k.semas && u in k.threads && u != k.cur
    ensures u in Down(k, why).threads && Stays(k.threads[u], Down(k, why).threads[u])
  {
    var s := SemaOf(why, k.cur);
    var m := k.semas[s];
    if m.value == 0 {
      StopDoes(k.(semas := k.semas[s := m.(waiters := m.waiters + [k.cur], popped := m.popped - {k.cur})]),
               Blocked, DownAsleep(why), u);
    }
  }

  /** Only a thread's own steps move it, except that it may be woken or started; a tick and
      an interrupt handler do not move it either. */
  lemma Bystander(k: Kernel, step: Step, u: Tid)
    requires Inv(k) && Enabled(k, step) && u in k.threads
    requires u != k.cur || step.Preempt? || step.HandlerUp? || step.HandlerTry?
    ensures u in Next(k, step).threads && Stays(k.threads[u], Next(k, step).threads[u])
  {
    StepKeeps(k, step);
    StepStays(k, step, u);
  }

  lemma StepStays(k: Kernel, step: Step, u: Tid)
    requires Enabled(k, step) && !Next(k, step).panic && ChildSpawned(k) && u in k.threads
    requires u != k.cur || step.Preempt? || step.HandlerUp? || step.HandlerTry?
    ensures u in Next(k, step).threads && Stays(k.threads[u], Next(k, step).threads[u])
  {
    match step {
      case Advance => AdvanceStays(k, u);
      case Preempt(commit) => if commit { YieldDoes(k, k.threads[k.cur].pc, u); }
      case CallUp(n) => UpLeaves(k, Shared(n), u);
      case HandlerUp(n) => UpLeaves(k, Shared(n), u);
      case CallExit => StopDoes(k, Dying, Exited, u);
      case _ =>
    }
  }
}
