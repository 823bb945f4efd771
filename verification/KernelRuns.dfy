/** Properties of all runs of the scheduler and the synchronisation primitives. */
module KernelRuns {
  import opened Options
  import opened Sequences
  import opened KernelState
  import opened KernelInvariant
  import opened KernelSchedProof
  import opened KernelCondProof
  import opened KernelSafety

  lemma InitSched(k: Kernel)
    requires Init(k)
    ensures SchedOk(k) && CreateOk(k)
  {
    assert StatusOk(k, INITIAL) && StatusOk(k, IDLE);
  }

  lemma InitSemas(k: Kernel)
    requires Init(k)
    ensures SemasOk(k)
  {
    forall s | s in k.semas ensures WaitersOk(k, s) && CountOk(k.semas[s]) { }
    forall t | t in k.threads ensures WaitOk(k, t) { }
  }

  lemma InitLocks(k: Kernel)
    requires Init(k)
    ensures LocksOk(k)
  {
    forall l | l in k.holders ensures LockOk(k, l) { }
    forall t | t in k.threads ensures OwnOk(k, t) { }
  }

  lemma InitConds(k: Kernel)
    requires Init(k)
    ensures CondsOk(k)
  {
    forall c | c in k.conds ensures CondOk(k, c) { }
    forall t | t in k.threads ensures CondThreadOk(k, t) { }
  }

  lemma InitOk(k: Kernel)
    requires Init(k)
    ensures Inv(k)
  {
    InitSched(k);
    InitSemas(k);
    InitLocks(k);
    InitConds(k);
  }

  lemma AdvanceKeeps(k: Kernel)
    requires Inv(k) && CanAdvance(k, k.threads[k.cur].pc)
    ensures Inv(AdvanceStep(k))
  {
    var pc := k.threads[k.cur].pc;
    match pc {
      case DownTest(why) => DownKeeps(k, why);
      case DownWoken(why) => DownKeeps(k, why);
      case SetHolder(why) =>
        assert OwnOk(k, k.cur);
        WriteHolderKeeps(k, why.l);
      case WaitRelease(c, l) => ClearHolderKeeps(k, l, Some(c));
      case ReleaseUp(l, wait) => ReleaseKeeps(k, l, wait);
      case SignalUp(_, _, _, _) => SignalUpKeeps(k);
      case BroadcastLoop(c, l, start, taken) => BroadcastKeeps(k);
      case YieldCommit => YieldsKeep(k, User);
      case CreateUnblock(_) => UnblockChildKeeps(k);
      case IdleEntry => IdleStepKeeps(k);
      case IdleUp => IdleStepKeeps(k);
      case IdleLoop => IdleStepKeeps(k);
    }
  }

  lemma BroadcastKeeps(k: Kernel)
    requires Inv(k) && k.threads[k.cur].pc.BroadcastLoop?
    ensures CanAdvance(k, k.threads[k.cur].pc) && Inv(AdvanceStep(k))
  {
    var pc := k.threads[k.cur].pc;
    assert OwnOk(k, k.cur) && CondThreadOk(k, k.cur);
    var q := k.conds[pc.c].waiters;
    if q == [] {
      ReturnKeeps(k);
    } else {
      assert pc.taken + q == (pc.taken + [q[0]]) + q[1..];
      PopKeeps(k, pc.c, Loop(pc.start, pc.taken + [q[0]]));
    }
  }

  lemma CallsKeep(k: Kernel, step: Step)
    requires Inv(k) && Enabled(k, step) && k.threads[k.cur].pc.User? && !step.Advance? && !step.Preempt? && !step.HandlerUp? && !step.HandlerTry?
    ensures Inv(Next(k, step))
  {
    match step {
      case CallDown(n) => CallKeeps(k, DownTest(Plain(n)));
      case CallTryDown(n) => if k.semas[Shared(n)].value > 0 { TakeKeeps(k, Plain(n)); }
      case CallUp(n) => UpSharedKeeps(k, n);
      case CallAcquire(l) =>
        assert LockOk(k, l);
        CallKeeps(k, DownTest(Acquire(l)));
      case CallTryAcquire(l) => if k.semas[OfLock(l)].value > 0 { TakeKeeps(k, Acquire(l)); }
      case CallRelease(l) => ClearHolderKeeps(k, l, None);
      case CallWait(c) => WaitKeeps(k, c);
      case CallSignal(c) =>
        HolderOwns(k, k.conds[c].lock);
        if k.conds[c].waiters != [] { PopKeeps(k, c, Single); }
      case CallBroadcast(c) => CallKeeps(k, BroadcastLoop(c, k.conds[c].lock, k.conds[c].waiters, []));
      case CallYield(commit) => if commit { CallKeeps(k, YieldCommit); }
      case CallSetPriority(p, commit) => SetPriorityKeeps(k, p, if commit then YieldCommit else User);
      case CallCreate(t, p) => CreateKeeps(k, t, p);
      case CallExit => ExitKeeps(k);
    }
  }

  lemma StepKeeps(k: Kernel, step: Step)
    requires Inv(k) && Enabled(k, step)
    ensures Inv(Next(k, step))
  {
    match step {
      case Advance => AdvanceKeeps(k);
      case Preempt(commit) => if commit { YieldsKeep(k, k.threads[k.cur].pc); }
      case HandlerUp(n) => UpSharedKeeps(k, n);
      case HandlerTry(n) => HandlerTryKeeps(k, n);
      case _ => CallsKeep(k, step);
    }
  }

  /** The invariant holds in every state of every run. */
  lemma {:induction false} RunOk(states: seq<Kernel>, steps: seq<Step>, i: nat)
    requires IsRun(states, steps) && i < |states|
    ensures Inv(states[i])
  {
    if i == 0 {
      InitOk(states[0]);
    } else {
      RunOk(states, steps, i - 1);
      StepKeeps(states[i - 1], steps[i - 1]);
    }
  }

  // ---------------------------------------------------------------------
  // Queues
  // ---------------------------------------------------------------------

  lemma {:induction false} OnceOnly(q: seq<Tid>, t: Tid)
    requires NoDup(q)
    ensures multiset(q)[t] == if t in q then 1 else 0
  {
    if q != [] {
      var front, last := q[..|q| - 1], q[|q| - 1];
      assert q == front + [last];
      OnceOnly(front, t);
      assert t in q <==> t in front || t == last;
    }
  }

  /** No ASSERT of the scheduler fails: a thread that is unblocked was blocked, and
      a switch always finds a thread. */
  lemma NeverPanics(states: seq<Kernel>, steps: seq<Step>, i: nat)
    requires IsRun(states, steps) && i < |states|
    ensures !states[i].panic
  {
    RunOk(states, steps, i);
  }

  /** The uses of a thread's one list element exclude each other. */
  lemma QueueExclusivity(states: seq<Kernel>, steps: seq<Step>, i: nat, t: Tid)
    requires IsRun(states, steps) && i < |states| && t in states[i].threads
    ensures var k := states[i]; var th := k.threads[t];
      && (th.status == Running <==> t == k.cur)
      && multiset(k.ready)[t] == (if th.status == Ready && k.idle != Some(t) then 1 else 0)
      && (forall s :: s in k.semas ==>
            multiset(k.semas[s].waiters)[t] == if th.pc.DownAsleep? && SemaOf(th.pc.why, t) == s then 1 else 0)
      && (th.pc.DownAsleep? ==> th.status == Blocked && SemaOf(th.pc.why, t) in k.semas)
      && (k.idle == Some(t) ==> t !in k.ready && !th.pc.DownAsleep?)
  {
    RunOk(states, steps, i);
    var k := states[i];
    assert StatusOk(k, t) && WaitOk(k, t);
    OnceOnly(k.ready, t);
    forall s | s in k.semas
      ensures multiset(k.semas[s].waiters)[t] ==
              if k.threads[t].pc.DownAsleep? && SemaOf(k.threads[t].pc.why, t) == s then 1 else 0
    {
      assert WaitersOk(k, s);
      OnceOnly(k.semas[s].waiters, t);
    }
  }

  /** A thread whose page has been freed is on no list and not current. */
  lemma FreedIsGone(states: seq<Kernel>, steps: seq<Step>, i: nat, t: Tid)
    requires IsRun(states, steps) && i < |states| && t in states[i].freed
    ensures var k := states[i];
      && t != k.cur && t !in k.ready
      && (forall s :: s in k.semas ==> t !in k.semas[s].waiters)
      && (forall c :: c in k.conds ==> t !in k.conds[c].waiters)
  {
    RunOk(states, steps, i);
    var k := states[i];
    assert StatusOk(k, t);
    forall s | s in k.semas ensures t !in k.semas[s].waiters { assert WaitersOk(k, s); }
    forall c | c in k.conds ensures t !in k.conds[c].waiters { assert CondOk(k, c); }
  }

  lemma ScheduleFreed(k: Kernel)
    requires k.cur in k.threads
    ensures k.freed <= Schedule(k).freed
  {
  }

  lemma StopFreed(k: Kernel, status: Status, pc: Pc)
    requires k.cur in k.threads
    ensures k.freed <= Stop(k, status, pc).freed
  {
    ScheduleFreed(k.(threads := k.threads[k.cur := k.threads[k.cur].(status := status, pc := pc)]));
  }

  lemma YieldFreed(k: Kernel, pc: Pc)
    requires k.cur in k.threads
    ensures k.freed <= Yield(k, pc).freed
  {
    var k1 := SetPc(k, k.cur, pc);
    if k.idle == Some(k.cur) {
      ScheduleFreed(k1.(threads := k1.threads[k.cur := k1.threads[k.cur].(status := Ready)]));
    } else {
      ScheduleFreed(Enqueue(k1, k.cur));
    }
  }

  lemma UpFreed(k: Kernel, s: SemaId)
    requires s in k.semas
    ensures Up(k, s).freed == k.freed
  {
  }

  lemma DownFreed(k: Kernel, why: Why)
    requires k.cur in k.threads && SemaOf(why, k.cur) in k.semas
    ensures k.freed <= Down(k, why).freed
  {
    var s := SemaOf(why, k.cur);
    var m := k.semas[s];
    if m.value == 0 {
      StopFreed(k.(semas := k.semas[s := m.(waiters := m.waiters + [k.cur], popped := m.popped - {k.cur})]),
                Blocked, DownAsleep(why));
    }
  }

  lemma AdvanceUpFreed(k: Kernel)
    requires k.cur in k.threads && CanAdvance(k, k.threads[k.cur].pc)
    requires k.threads[k.cur].pc.ReleaseUp? || k.threads[k.cur].pc.SignalUp? || k.threads[k.cur].pc.IdleUp?
    ensures AdvanceStep(k).freed == k.freed
  {
    var t := k.cur;
    match k.threads[t].pc {
      case ReleaseUp(l, wait) =>
        var pc := match wait case None => User case Some(c) => DownTest(Await(c, l));
        UpFreed(Disowned(k, l, pc), OfLock(l));
      case SignalUp(c, l, w, mode) => UpFreed(SetPc(k, t, AfterSignal(k.threads[t].pc)), Private(w));
      case IdleUp => UpFreed(SetPc(k, t, IdleLoop), IDLE_STARTED);
    }
  }

  lemma AdvanceFreed(k: Kernel)
    requires k.cur in k.threads && CanAdvance(k, k.threads[k.cur].pc)
    ensures k.freed <= AdvanceStep(k).freed
  {
    match k.threads[k.cur].pc {
      case DownTest(why) => DownFreed(k, why);
      case DownWoken(why) => DownFreed(k, why);
      case ReleaseUp(l, wait) => AdvanceUpFreed(k);
      case SignalUp(c, l, w, mode) => AdvanceUpFreed(k);
      case IdleUp => AdvanceUpFreed(k);
      case YieldCommit => YieldFreed(k, User);
      case IdleLoop => StopFreed(k, Blocked, IdleLoop);
      case _ =>
    }
  }

  lemma StepFreed(k: Kernel, step: Step)
    requires Enabled(k, step)
    ensures k.freed <= Next(k, step).freed
  {
    match step {
      case CallUp(n) => UpFreed(k, Shared(n));
      case HandlerUp(n) => UpFreed(k, Shared(n));
      case Advance => AdvanceFreed(k);
      case Preempt(commit) => YieldFreed(k, k.threads[k.cur].pc);
      case CallExit => StopFreed(k, Dying, Exited);
      case _ =>
    }
  }

  /** Once its page has been freed, a thread is never current or ready again. */
  lemma {:induction false} FreedForever(states: seq<Kernel>, steps: seq<Step>, i: nat, j: nat, t: Tid)
    requires IsRun(states, steps) && i <= j < |states| && t in states[i].freed
    ensures t in states[j].freed && t != states[j].cur && t !in states[j].ready
    decreases j - i
  {
    if i < j {
      assert Enabled(states[i], steps[i]) && states[i + 1] == Next(states[i], steps[i]);
      StepFreed(states[i], steps[i]);
      FreedForever(states, steps, i + 1, j, t);
    } else {
      FreedIsGone(states, steps, i, t);
    }
  }

  // ---------------------------------------------------------------------
  // Scheduling order
  // ---------------------------------------------------------------------

  /** Whenever another thread is switched to, it is of the highest priority among
      those ready, and among equals it has been ready longest; the idle thread is
      switched to only when nothing is ready. */
  lemma SwitchPicksBest(states: seq<Kernel>, steps: seq<Step>, i: nat)
    requires IsRun(states, steps) && i < |steps| && states[i + 1].cur != states[i].cur
    ensures PickedBest(states[i + 1])
    ensures Ordered(states[i + 1])
  {
    RunOk(states, steps, i);
    RunOk(states, steps, i + 1);
    StepPicksBest(states[i], steps[i]);
  }

  /** Only these steps switch. */
  predicate Switches(k: Kernel, step: Step)
    requires k.cur in k.threads
  {
    var pc := k.threads[k.cur].pc;
    step.CallExit? || step.Preempt? ||
    (step.Advance? && (pc.DownTest? || pc.DownWoken? || pc.YieldCommit? || pc.IdleLoop?))
  }

  lemma UpStays(k: Kernel, s: SemaId)
    requires s in k.semas
    ensures Up(k, s).cur == k.cur
  {
  }

  lemma OthersStay(k: Kernel, step: Step)
    requires Enabled(k, step) && !Switches(k, step)
    ensures Next(k, step).cur == k.cur
  {
    match step {
      case CallUp(n) => UpStays(k, Shared(n));
      case HandlerUp(n) => UpStays(k, Shared(n));
      case Advance =>
        match k.threads[k.cur].pc {
          case ReleaseUp(l, wait) =>
          case SignalUp(c, l, w, mode) =>
          case IdleUp =>
          case _ =>
        }
      case _ =>
    }
  }

  lemma StepPicksBest(k: Kernel, step: Step)
    requires SchedOk(k) && Enabled(k, step) && Next(k, step).cur != k.cur
    ensures PickedBest(Next(k, step))
  {
    if !Switches(k, step) {
      OthersStay(k, step);
    }
    assert StatusOk(k, k.cur);
    match step {
      case CallExit => StopKeeps(k, Dying, Exited);
      case Preempt(commit) => YieldKeeps(k, k.threads[k.cur].pc);
      case Advance => AdvancePicksBest(k);
      case _ =>
    }
  }

  lemma AdvancePicksBest(k: Kernel)
    requires SchedOk(k) && CanAdvance(k, k.threads[k.cur].pc) && Switches(k, Advance) && AdvanceStep(k).cur != k.cur
    ensures PickedBest(AdvanceStep(k))
  {
    assert StatusOk(k, k.cur);
    match k.threads[k.cur].pc {
      case DownTest(why) => DownPicksBest(k, why);
      case DownWoken(why) => DownPicksBest(k, why);
      case YieldCommit => YieldKeeps(k, User);
      case IdleLoop => StopKeeps(k, Blocked, IdleLoop);
    }
  }

  lemma DownPicksBest(k: Kernel, why: Why)
    requires SchedOk(k) && SemaOf(why, k.cur) in k.semas && k.cur != IDLE && Down(k, why).cur != k.cur
    ensures PickedBest(Down(k, why))
  {
    var s := SemaOf(why, k.cur);
    var m := k.semas[s];
    var kx := k.(semas := k.semas[s := m.(waiters := m.waiters + [k.cur], popped := m.popped - {k.cur})]);
    SchedFrame(k, kx);
    StopKeeps(kx, Blocked, DownAsleep(why));
  }

  // ---------------------------------------------------------------------
  // Semaphores
  // ---------------------------------------------------------------------

  /** The threads popped from s that have not tested its value again. */
  ghost function Woken(k: Kernel, s: SemaId): set<Tid> {
    set t | t in k.threads && k.threads[t].pc.DownWoken? && SemaOf(k.threads[t].pc.why, t) == s
  }

  /** No lost wake-up.  While threads sleep on a semaphore, its value never exceeds
      the number of woken threads that are still to test it; those are ready or
      running, so they will; and ups and downs account for the value. */
  lemma NoLostWakeUp(states: seq<Kernel>, steps: seq<Step>, i: nat, s: SemaId)
    requires IsRun(states, steps) && i < |states| && s in states[i].semas
    ensures var k := states[i]; var m := k.semas[s];
      && m.value == m.init + m.ups - m.downs
      && (m.waiters != [] ==> m.value <= |Woken(k, s)|)
      && (m.waiters != [] && Woken(k, s) == {} ==> m.value == 0)
      && (forall t :: t in Woken(k, s) ==> k.threads[t].status == Ready || k.threads[t].status == Running)
  {
    RunOk(states, steps, i);
    var k := states[i];
    assert WaitersOk(k, s) && CountOk(k.semas[s]);
    forall t | t in Woken(k, s) ensures t in k.semas[s].popped && StatusOk(k, t) {
      assert WaitOk(k, t);
    }
    assert Woken(k, s) == k.semas[s].popped;
  }

  // ---------------------------------------------------------------------
  // Locks
  // ---------------------------------------------------------------------

  /** The threads between a completed down of l's semaphore and the matching up. */
  ghost function Owners(k: Kernel, l: LockId): set<Tid> {
    set t | t in k.threads && l in k.threads[t].owns
  }

  /** Mutual exclusion: the value of the lock's semaphore plus the number of owners
      is always one.  A non-null holder is the owner; the owner is the holder
      except in the two windows where the field lags behind. */
  lemma MutualExclusion(states: seq<Kernel>, steps: seq<Step>, i: nat, l: LockId)
    requires IsRun(states, steps) && i < |states| && l in states[i].holders
    ensures var k := states[i];
      && OfLock(l) in k.semas
      && k.semas[OfLock(l)].value + |Owners(k, l)| == 1
      && (k.holders[l].Some? ==> Owners(k, l) == {k.holders[l].value})
      && (forall t :: t in Owners(k, l) ==> (k.holders[l] == Some(t) <==> !InWindow(k.threads[t].pc, l)))
      && (forall t :: t in k.threads && InWindow(k.threads[t].pc, l) ==> Owners(k, l) == {t} && k.holders[l] == None)
  {
    RunOk(states, steps, i);
    var k := states[i];
    assert LockOk(k, l);
    forall t | t in k.threads ensures OwnOk(k, t) { }
    if Owned(k, l) {
      var o :| o in k.threads && l in k.threads[o].owns;
      assert Owners(k, l) == {o};
      assert OwnOk(k, o);
    } else {
      assert Owners(k, l) == {};
    }
  }

  // ---------------------------------------------------------------------
  // Condition variables
  // ---------------------------------------------------------------------

  /** A thread in cond_wait whose private semaphore has not let it through is in one
      of three situations, and only one: queued and not signalled; popped by one
      signaller whose up is pending; or upped once, in which case it is not asleep.
      So a signal that lands between the release of the lock and the sleep is kept
      in the value of the private semaphore. */
  lemma SignalNotLost(states: seq<Kernel>, steps: seq<Step>, i: nat, t: Tid, c: CondId)
    requires IsRun(states, steps) && i < |states| && t in states[i].threads && Waiting(states[i].threads[t].pc, c)
    ensures c in states[i].conds && Private(t) in states[i].semas
    ensures var k := states[i]; var m := k.semas[Private(t)];
      && ((t in k.conds[c].waiters && !Claimed(k, t, c) && m.ups == 0 && m.value == 0) ||
          (t !in k.conds[c].waiters && Claimed(k, t, c) && m.ups == 0 && m.value == 0) ||
          (t !in k.conds[c].waiters && !Claimed(k, t, c) && m.ups == 1 && m.value == 1 &&
             !k.threads[t].pc.DownAsleep?))
  {
    RunOk(states, steps, i);
    var k := states[i];
    assert CondThreadOk(k, t) && WaitOk(k, t) && CountOk(k.semas[Private(t)]);
    var m := k.semas[Private(t)];
    if PrivateIs(k, t, 0, 0) {
      assert CondOk(k, c);
      ClaimedNotQueued(k, t, c);
    } else {
      AwaitUnclaimed(k, t, c);
      UppedNotAsleep(k, t, c);
    }
  }

  lemma ClaimedNotQueued(k: Kernel, t: Tid, c: CondId)
    requires CondsOk(k) && c in k.conds
    ensures !(Claimed(k, t, c) && t in k.conds[c].waiters)
  {
    assert CondOk(k, c);
  }

  lemma UppedNotAsleep(k: Kernel, t: Tid, c: CondId)
    requires SemasOk(k) && t in k.threads && Waiting(k.threads[t].pc, c) && PrivateIs(k, t, 1, 0)
    ensures !k.threads[t].pc.DownAsleep?
  {
    var m := k.semas[Private(t)];
    assert WaitOk(k, t) && WaitersOk(k, Private(t)) && CountOk(m);
    if m.waiters != [] {
      assert m.popped != {};
      var u :| u in m.popped;
      assert u == t;
    }
  }

  /** When a signaller is about to up the semaphore it popped, the semaphore is still
      on the stack of a thread inside cond_wait; nobody else is about to up it. */
  lemma SignalTargetIsLive(states: seq<Kernel>, steps: seq<Step>, i: nat, x: Tid)
    requires IsRun(states, steps) && i < |states| && x in states[i].threads && states[i].threads[x].pc.SignalUp?
    ensures var k := states[i]; var pc := k.threads[x].pc;
      && pc.w in k.threads && Waiting(k.threads[pc.w].pc, pc.c)
      && Private(pc.w) in k.semas && k.semas[Private(pc.w)].value == 0
      && (forall y :: y in k.threads && WorksOn(k.threads[y].pc, pc.c) ==> y == x)
  {
    RunOk(states, steps, i);
    var k := states[i];
    var pc := k.threads[x].pc;
    assert CondThreadOk(k, x) && OwnOk(k, x) && PrivateIs(k, pc.w, 0, 0);
    assert CountOk(k.semas[Private(pc.w)]);
    forall y | y in k.threads && WorksOn(k.threads[y].pc, pc.c) ensures y == x {
      WorksAlone(k, x, y, pc.c);
    }
  }

  /** cond_wait returns as owner and holder of the lock, its private semaphore having
      been upped exactly once and downed exactly once. */
  lemma WaitReturnsHolding(states: seq<Kernel>, steps: seq<Step>, i: nat, c: CondId, l: LockId)
    requires IsRun(states, steps) && i < |steps| && steps[i].Advance?
    requires states[i].cur in states[i].threads && states[i].threads[states[i].cur].pc == SetHolder(Reacquire(c, l))
    ensures var k := states[i + 1]; var t := states[i].cur;
      && k.cur == t && k.threads[t].pc.User? && l in k.threads[t].owns
      && l in k.holders && k.holders[l] == Some(t)
      && PrivateIs(k, t, 1, 1)
  {
    RunOk(states, steps, i);
    var k := states[i];
    assert CondThreadOk(k, k.cur) && OwnOk(k, k.cur);
    assert PrivateIs(k, k.cur, 1, 1);
    assert states[i + 1] == WriteHolder(k, l);
  }

  /** Waiters are signalled in the order in which they queued: the log of signals
      followed by the present queue is the log of waits. */
  lemma SignalledInOrder(states: seq<Kernel>, steps: seq<Step>, i: nat, c: CondId)
    requires IsRun(states, steps) && i < |states| && c in states[i].conds
    ensures states[i].conds[c].waited == states[i].conds[c].signalled + states[i].conds[c].waiters
    ensures NoDup(states[i].conds[c].waiters)
  {
    RunOk(states, steps, i);
    assert CondOk(states[i], c);
  }

  // ---------------------------------------------------------------------
  // Broadcast
  // ---------------------------------------------------------------------

  /** The broadcast, if any, that a thread at pc is in: its condition and the queue it
      found. */
  function Broadcast(pc: Pc): Option<(CondId, seq<Tid>)> {
    match pc
    case BroadcastLoop(c, _, start, _) => Some((c, start))
    case SignalUp(c, _, _, Loop(start, _)) => Some((c, start))
    case _ => None
  }

  function BroadcastOf(k: Kernel, u: Tid): Option<(CondId, seq<Tid>)> {
    if u in k.threads then Broadcast(k.threads[u].pc) else None
  }

  lemma ScheduleBroadcast(k: Kernel, u: Tid)
    requires k.cur in k.threads
    ensures BroadcastOf(Schedule(k), u) == BroadcastOf(k, u)
  {
  }

  lemma UpBroadcast(k: Kernel, s: SemaId, u: Tid)
    requires s in k.semas
    ensures BroadcastOf(Up(k, s), u) in {BroadcastOf(k, u), None}
  {
  }

  lemma StopBroadcast(k: Kernel, status: Status, pc: Pc, u: Tid)
    requires k.cur in k.threads && Broadcast(pc) == None
    ensures BroadcastOf(Stop(k, status, pc), u) in {BroadcastOf(k, u), None}
  {
    ScheduleBroadcast(k.(threads := k.threads[k.cur := k.threads[k.cur].(status := status, pc := pc)]), u);
  }

  lemma YieldBroadcast(k: Kernel, pc: Pc, u: Tid)
    requires k.cur in k.threads && (pc == k.threads[k.cur].pc || pc.User?)
    ensures BroadcastOf(Yield(k, pc), u) in {BroadcastOf(k, u), None}
  {
    var k1 := SetPc(k, k.cur, pc);
    if k.idle == Some(k.cur) {
      ScheduleBroadcast(k1.(threads := k1.threads[k.cur := k1.threads[k.cur].(status := Ready)]), u);
    } else {
      ScheduleBroadcast(Enqueue(k1, k.cur), u);
    }
  }

  lemma DownBroadcast(k: Kernel, why: Why, u: Tid)
    requires k.cur in k.threads && SemaOf(why, k.cur) in k.semas
    ensures BroadcastOf(Down(k, why), u) in {BroadcastOf(k, u), None}
  {
    var s := SemaOf(why, k.cur);
    var m := k.semas[s];
    if m.value == 0 {
      var kx := k.(semas := k.semas[s := m.(waiters := m.waiters + [k.cur], popped := m.popped - {k.cur})]);
      StopBroadcast(kx, Blocked, DownAsleep(why), u);
    }
  }

  lemma UnblockBroadcast(k: Kernel, u: Tid)
    requires k.cur in k.threads && k.threads[k.cur].pc.CreateUnblock?
    ensures BroadcastOf(AdvanceStep(k), u) in {BroadcastOf(k, u), None}
  {
  }

  lemma AdvanceUpBroadcast(k: Kernel, u: Tid)
    requires k.cur in k.threads && CanAdvance(k, k.threads[k.cur].pc)
    requires k.threads[k.cur].pc.ReleaseUp? || k.threads[k.cur].pc.SignalUp? || k.threads[k.cur].pc.IdleUp?
    ensures BroadcastOf(AdvanceStep(k), u) in {BroadcastOf(k, u), None}
  {
    var t := k.cur;
    match k.threads[t].pc {
      case ReleaseUp(l, wait) =>
        var pc := match wait case None => User case Some(c) => DownTest(Await(c, l));
        UpBroadcast(Disowned(k, l, pc), OfLock(l), u);
      case SignalUp(c, l, w, mode) => UpBroadcast(SetPc(k, t, AfterSignal(k.threads[t].pc)), Private(w), u);
      case IdleUp => UpBroadcast(SetPc(k, t, IdleLoop), IDLE_STARTED, u);
    }
  }

  lemma AdvanceBroadcast(k: Kernel, u: Tid)
    requires k.cur in k.threads && CanAdvance(k, k.threads[k.cur].pc)
    ensures BroadcastOf(AdvanceStep(k), u) in {BroadcastOf(k, u), None}
  {
    match k.threads[k.cur].pc {
      case DownTest(why) => DownBroadcast(k, why, u);
      case DownWoken(why) => DownBroadcast(k, why, u);
      case ReleaseUp(l, wait) => AdvanceUpBroadcast(k, u);
      case SignalUp(c, l, w, mode) => AdvanceUpBroadcast(k, u);
      case IdleUp => AdvanceUpBroadcast(k, u);
      case YieldCommit => YieldBroadcast(k, User, u);
      case CreateUnblock(child) => UnblockBroadcast(k, u);
      case IdleLoop => StopBroadcast(k, Blocked, IdleLoop, u);
      case _ =>
    }
  }

  lemma StepBroadcast(k: Kernel, step: Step, u: Tid)
    requires Enabled(k, step)
    ensures BroadcastOf(Next(k, step), u) in {BroadcastOf(k, u), None} ||
            (u == k.cur && step.CallBroadcast? && BroadcastOf(Next(k, step), u) == Some((step.c, k.conds[step.c].waiters)))
  {
    match step {
      case CallUp(n) => UpBroadcast(k, Shared(n), u);
      case HandlerUp(n) => UpBroadcast(k, Shared(n), u);
      case Advance => AdvanceBroadcast(k, u);
      case Preempt(commit) => YieldBroadcast(k, k.threads[k.cur].pc, u);
      case CallExit => StopBroadcast(k, Dying, Exited, u);
      case _ =>
    }
  }

  lemma InitBroadcast(k: Kernel, u: Tid)
    requires Init(k)
    ensures BroadcastOf(k, u) == None
  {
  }

  lemma RunBroadcast(states: seq<Kernel>, steps: seq<Step>, i: nat, u: Tid)
    requires IsRun(states, steps) && i < |steps|
    ensures states[i].cur in states[i].threads
    ensures BroadcastOf(states[i + 1], u) in {BroadcastOf(states[i], u), None} ||
            (u == states[i].cur && steps[i].CallBroadcast? && steps[i].c in states[i].conds &&
             BroadcastOf(states[i + 1], u) == Some((steps[i].c, states[i].conds[steps[i].c].waiters)))
  {
    assert Enabled(states[i], steps[i]) && states[i + 1] == Next(states[i], steps[i]);
    StepBroadcast(states[i], steps[i], u);
  }

  /** What a sequence holds at i, if it is something, came in at a step that began it and
      has been there since. */
  lemma {:induction false} Origin<T(!new)>(b: seq<Option<T>>, began: seq<bool>, i: nat) returns (j: nat)
    requires |b| == |began| + 1 && i < |b| && b[0] == None && b[i].Some?
    requires forall m :: 0 <= m < |began| ==> b[m + 1] == b[m] || b[m + 1] == None || began[m]
    ensures j < i && began[j] && forall m :: j < m <= i ==> b[m] == b[i]
  {
    if b[i - 1] == b[i] && !began[i - 1] {
      j := Origin(b, began, i - 1);
    } else {
      j := i - 1;
    }
  }

  ghost predicate Begins(k: Kernel, step: Step, k': Kernel, u: Tid) {
    u == k.cur && step.CallBroadcast? && step.c in k.conds && BroadcastOf(k', u) == Some((step.c, k.conds[step.c].waiters))
  }

  /** Step j is u's call of a broadcast of c, it found the queue q, and u has been in that
      broadcast in every state from then to i. */
  ghost predicate CalledAt(states: seq<Kernel>, steps: seq<Step>, j: nat, i: nat, u: Tid, c: CondId, q: seq<Tid>) {
    && |states| == |steps| + 1 && j < i < |states|
    && steps[j] == CallBroadcast(c) && states[j].cur == u && c in states[j].conds && states[j].conds[c].waiters == q
    && forall m {:trigger states[m]} :: j < m <= i ==> BroadcastOf(states[m], u) == Some((c, q))
  }

  /** A thread in a broadcast called it at an earlier step and has been in it since, and
      what it noted is the queue at that step. */
  lemma BroadcastBegan(states: seq<Kernel>, steps: seq<Step>, i: nat, u: Tid) returns (j: nat)
    requires IsRun(states, steps) && i < |states| && BroadcastOf(states[i], u).Some?
    ensures var (c, q) := BroadcastOf(states[i], u).value; CalledAt(states, steps, j, i, u, c, q)
  {
    var b := seq(|states|, m requires 0 <= m < |states| => BroadcastOf(states[m], u));
    var began := seq(|steps|, m requires 0 <= m < |steps| && |states| == |steps| + 1 => Begins(states[m], steps[m], states[m + 1], u));
    InitBroadcast(states[0], u);
    forall m | 0 <= m < |steps| ensures b[m + 1] == b[m] || b[m + 1] == None || began[m] {
      RunBroadcast(states, steps, m, u);
    }
    j := Origin(b, began, i);
    assert Begins(states[j], steps[j], states[j + 1], u);
    assert b[j + 1] == BroadcastOf(states[j + 1], u);
    forall m | j < m <= i ensures BroadcastOf(states[m], u) == BroadcastOf(states[i], u) {
      assert b[m] == b[i];
    }
  }

  /** When a broadcast ends it has popped exactly the waiters that were queued when it
      was called, in order, and every thread still in a wait on c has had its up. */
  lemma BroadcastIsExact(states: seq<Kernel>, steps: seq<Step>, i: nat)
    requires IsRun(states, steps) && i < |steps| && steps[i].Advance?
    requires states[i].cur in states[i].threads && states[i].threads[states[i].cur].pc.BroadcastLoop?
    requires states[i].threads[states[i].cur].pc.c in states[i].conds
    requires states[i].conds[states[i].threads[states[i].cur].pc.c].waiters == []
    ensures var k := states[i]; var pc := k.threads[k.cur].pc;
      && (exists j :: CalledAt(states, steps, j, i, k.cur, pc.c, pc.taken))
      && (forall t :: t in k.threads && Waiting(k.threads[t].pc, pc.c) ==> PrivateIs(k, t, 1, 0))
  {
    RunOk(states, steps, i);
    var k := states[i];
    var x, pc := k.cur, k.threads[k.cur].pc;
    assert CondThreadOk(k, x) && OwnOk(k, x);
    assert pc.taken + [] == pc.taken;
    var j := BroadcastBegan(states, steps, i, x);
    forall t | t in k.threads && Waiting(k.threads[t].pc, pc.c) ensures PrivateIs(k, t, 1, 0) {
      assert CondThreadOk(k, t);
      forall y | y in k.threads && WorksOn(k.threads[y].pc, pc.c) ensures y == x {
        WorksAlone(k, x, y, pc.c);
      }
      assert !Claimed(k, t, pc.c);
    }
  }
}
