/** Every step keeps the invariant, so it holds in every state of every run. */
module KernelSafety {
  import opened Options
  import opened KernelState
  import opened KernelInvariant
  import opened KernelSchedProof
  import opened KernelSemaProof
  import opened KernelLockProof
  import opened KernelCondProof

  /** The parts of the invariant that the scheduler's own fields do not affect. */
  ghost predicate SyncOk(k: Kernel) {
    SemasOk(k) && CreateOk(k) && LocksOk(k) && CondsOk(k)
  }

  lemma SyncView(a: Kernel, b: Kernel)
    requires SyncOk(a) && SameView(a, b)
    ensures SyncOk(b)
  {
    SemasView(a, b);
    LocksView(a, b);
    CondsView(a, b);
  }

  /** What a place must satisfy for the current thread to move there from a place
      with the same windows and the same wait. */
  ghost predicate MayMove(k: Kernel, pc: Pc) {
    && k.cur in k.threads
    && var was := k.threads[k.cur].pc;
    && !Queued(was) && !Queued(pc) && !Creating(pc) && !Creating(was)
    && (pc.DownTest? ==> SemaOf(pc.why, k.cur) in k.semas)
    && (forall l :: InWindow(pc, l) <==> InWindow(was, l))
    && (forall c {:trigger Waiting(pc, c)} :: Waiting(pc, c) <==> Waiting(was, c))
    && !pc.SignalUp? && !was.SignalUp?
    && OwnOk(SetPc(k, k.cur, pc), k.cur)
    && CondThreadOk(SetPc(k, k.cur, pc), k.cur)
  }

  lemma MoveKeeps(k: Kernel, pc: Pc)
    requires SyncOk(k) && MayMove(k, pc)
    ensures SyncOk(SetPc(k, k.cur, pc))
  {
    var k' := SetPc(k, k.cur, pc);
    MoveSemas(k, k.cur, pc);
    CreateFrame(k, k', k.cur);
    LocksFrame(k, k', k.cur);
    CondsFrame(k, k', k.cur);
  }

  lemma WakeSync(k: Kernel, t: Tid)
    requires CreateOk(k) && LocksOk(k) && CondsOk(k) && t in k.threads && k.threads[t].pc.DownAsleep?
    ensures var k' := SetPc(k, t, DownWoken(k.threads[t].pc.why)); CreateOk(k') && LocksOk(k') && CondsOk(k')
  {
    var why := k.threads[t].pc.why;
    var k' := SetPc(k, t, DownWoken(why));
    CreateFrame(k, k', t);
    assert OwnOk(k, t) && CondThreadOk(k, t);
    LocksFrame(k, k', t);
    assert forall c :: Waiting(DownWoken(why), c) <==> Waiting(DownAsleep(why), c);
    ClaimsFrame(k, k', t);
    assert CondThreadOk(k', t) by {
      forall c | Waiting(DownWoken(why), c)
        ensures c in k'.conds && (t in k'.conds[c].waiters || Claimed(k', t, c) || PrivateIs(k', t, 1, 0))
      {
        assert Waiting(k.threads[t].pc, c);
        assert t in k.conds[c].waiters || Claimed(k, t, c) || PrivateIs(k, t, 1, 0);
      }
    }
    CondsFrame(k, k', t);
  }

  /** k with the semaphores that sema_up leaves, nobody woken yet. */
  function UppedSemas(k: Kernel, s: SemaId): Kernel
    requires s in k.semas
  {
    if k.semas[s].waiters == [] then Counted(k, s) else PoppedFrom(Counted(k, s), s)
  }

  lemma SchedFrame(k: Kernel, k': Kernel)
    requires SchedOk(k) && k' == k.(semas := k'.semas, holders := k'.holders, conds := k'.conds)
    ensures SchedOk(k')
  {
    forall t | t in k'.threads ensures StatusOk(k', t) { assert StatusOk(k, t); }
    QueueFrame(k, k');
  }

  lemma UpIs(k: Kernel, s: SemaId, t: Tid)
    requires s in k.semas && k.semas[s].waiters != [] && t == k.semas[s].waiters[0]
    requires t in k.threads && k.threads[t].pc.DownAsleep? && k.threads[t].status == Blocked
    ensures UpView(k, s) == SetPc(UppedSemas(k, s), t, DownWoken(k.threads[t].pc.why))
    ensures Up(k, s) == Unblock(UpView(k, s), t)
    ensures SameView(UpView(k, s), Up(k, s))
  {
  }

  lemma UpWakes(k: Kernel, s: SemaId, t: Tid)
    requires SchedOk(k) && s in k.semas && k.semas[s].waiters != [] && t == k.semas[s].waiters[0]
    requires t in k.threads && k.threads[t].pc.DownAsleep?
    requires SemasOk(UpView(k, s)) && CreateOk(k) && LocksOk(UppedSemas(k, s)) && CondsOk(UppedSemas(k, s))
    ensures Inv(Up(k, s))
  {
    var kx := UppedSemas(k, s);
    var pc := DownWoken(k.threads[t].pc.why);
    assert StatusOk(k, t);
    WakeSync(kx, t);
    SchedFrame(k, kx);
    WakeKeeps(kx, t, pc);
    UpIs(k, s, t);
    SyncView(UpView(k, s), Up(k, s));
  }

  /** sema_up, given that the new semaphores fit the locks and conditions. */
  lemma UpKeeps(k: Kernel, s: SemaId)
    requires SchedOk(k) && SemasOk(k) && s in k.semas
    requires CreateOk(k) && LocksOk(UppedSemas(k, s)) && CondsOk(UppedSemas(k, s))
    ensures Inv(Up(k, s))
  {
    UpSemas(k, s);
    if k.semas[s].waiters == [] {
      assert Up(k, s) == UppedSemas(k, s) == UpView(k, s);
      SchedFrame(k, Up(k, s));
    } else {
      FirstWaiter(k, s);
      UpWakes(k, s, k.semas[s].waiters[0]);
    }
  }

  /** sema_up on a free-standing semaphore, from a thread or an interrupt handler. */
  lemma UpSharedKeeps(k: Kernel, n: nat)
    requires Inv(k) && Shared(n) in k.semas
    ensures Inv(Up(k, Shared(n)))
  {
    var kx := UppedSemas(k, Shared(n));
    assert OwnOk(k, k.cur) && CondThreadOk(k, k.cur);
    LocksFrame(k, kx, k.cur);
    assert SamePrivate(k, kx);
    CondsFrame(k, kx, k.cur) by {
      ClaimsFrame(k, kx, k.cur);
      ThreadFrame(k, kx, k.cur);
    }
    UpKeeps(k, Shared(n));
  }

  // ---------------------------------------------------------------------
  // sema_down and sema_try_down
  // ---------------------------------------------------------------------

  /** The places from which a thread tests a value. */
  predicate MayTest(pc: Pc, why: Why) {
    pc == DownTest(why) || pc == DownWoken(why) || (pc.User? && (why.Plain? || why.Acquire?))
  }

  lemma TakeSched(k: Kernel, why: Why)
    requires SchedOk(k) && SemaOf(why, k.cur) in k.semas && k.semas[SemaOf(why, k.cur)].value > 0
    requires MayTest(k.threads[k.cur].pc, why)
    ensures SchedOk(Take(k, why))
  {
    assert StatusOk(k, k.cur);
    LocalKeeps(k, Take(k, why));
  }

  lemma TakeLocks(k: Kernel, why: Why)
    requires LocksOk(k) && k.cur in k.threads
    requires SemaOf(why, k.cur) in k.semas && k.semas[SemaOf(why, k.cur)].value > 0
    requires MayTest(k.threads[k.cur].pc, why)
    ensures LocksOk(Take(k, why))
  {
    assert OwnOk(k, k.cur);
    if why.Acquire? || why.Reacquire? {
      AcquireLocks(k, why);
    } else {
      LocksFrame(k, Take(k, why), k.cur);
    }
  }

  lemma AwaitLock(k: Kernel, why: Why)
    requires LocksOk(k) && CondsOk(k) && k.cur in k.threads && why.Await? && MayTest(k.threads[k.cur].pc, why)
    ensures OfLock(why.l) in k.semas
  {
    assert CondThreadOk(k, k.cur);
    assert Waiting(k.threads[k.cur].pc, why.c);
    assert CondOk(k, why.c);
  }

  lemma TakeKeeps(k: Kernel, why: Why)
    requires Inv(k) && SemaOf(why, k.cur) in k.semas && k.semas[SemaOf(why, k.cur)].value > 0
    requires MayTest(k.threads[k.cur].pc, why)
    ensures Inv(Take(k, why))
  {
    TakeSched(k, why);
    TakeLocks(k, why);
    CreateFrame(k, Take(k, why), k.cur);
    if why.Await? {
      AwaitLock(k, why);
      AwaitEnds(k, why);
    } else {
      TakeConds(k, why);
    }
    TakeSemas(k, why);
  }

  lemma TakeConds(k: Kernel, why: Why)
    requires CondsOk(k) && k.cur in k.threads && !why.Await? && MayTest(k.threads[k.cur].pc, why)
    requires SemaOf(why, k.cur) in k.semas && k.semas[SemaOf(why, k.cur)].value > 0
    ensures CondsOk(Take(k, why))
  {
    var k', t := Take(k, why), k.cur;
    assert CondThreadOk(k, t);
    assert SamePrivate(k, k');
    assert forall c :: !Waiting(k.threads[t].pc, c) && !Waiting(k'.threads[t].pc, c);
    CondsFrame(k, k', t);
  }

  lemma SleepSync(k: Kernel, why: Why)
    requires SyncOk(k) && k.cur in k.threads && SemaOf(why, k.cur) in k.semas && k.semas[SemaOf(why, k.cur)].value == 0
    requires k.threads[k.cur].pc == DownTest(why) || k.threads[k.cur].pc == DownWoken(why)
    ensures SyncOk(SleepView(k, why))
  {
    var k', t := SleepView(k, why), k.cur;
    assert WaitOk(k, t) && OwnOk(k, t) && CondThreadOk(k, t);
    SleepSemas(k, why);
    CreateFrame(k, k', t);
    LocksFrame(k, k', t);
    SleepConds(k, why);
  }

  lemma SleepConds(k: Kernel, why: Why)
    requires CondsOk(k) && k.cur in k.threads && SemaOf(why, k.cur) in k.semas
    requires k.threads[k.cur].pc == DownTest(why) || k.threads[k.cur].pc == DownWoken(why)
    ensures CondsOk(SleepView(k, why))
  {
    var k', t := SleepView(k, why), k.cur;
    assert CondThreadOk(k, t);
    assert SamePrivate(k, k');
    ClaimsFrame(k, k', t);
    forall c | Waiting(k'.threads[t].pc, c)
      ensures c in k'.conds && (t in k'.conds[c].waiters || Claimed(k', t, c) || PrivateIs(k', t, 1, 0))
    {
      assert Waiting(k.threads[t].pc, c);
      assert t in k.conds[c].waiters || Claimed(k, t, c) || PrivateIs(k, t, 1, 0);
    }
    CondsFrame(k, k', t);
  }

  lemma DownKeeps(k: Kernel, why: Why)
    requires Inv(k) && SemaOf(why, k.cur) in k.semas
    requires k.threads[k.cur].pc == DownTest(why) || k.threads[k.cur].pc == DownWoken(why)
    ensures Inv(Down(k, why))
  {
    var s := SemaOf(why, k.cur);
    var m := k.semas[s];
    if m.value > 0 {
      TakeKeeps(k, why);
    } else {
      SleepSync(k, why);
      var kx := k.(semas := k.semas[s := m.(waiters := m.waiters + [k.cur], popped := m.popped - {k.cur})]);
      assert StatusOk(k, k.cur);
      SchedFrame(k, kx);
      StopKeeps(kx, Blocked, DownAsleep(why));
      StopView(kx, Blocked, DownAsleep(why));
      SyncView(SleepView(k, why), Down(k, why));
    }
  }

  /** A switch changes nothing the primitives look at. */
  lemma StopView(k: Kernel, status: Status, pc: Pc)
    requires k.cur in k.threads
    ensures SameView(SetPc(k, k.cur, pc), Stop(k, status, pc))
  {
  }

  lemma ScheduleView(k: Kernel)
    requires k.cur in k.threads
    ensures SameView(k, Schedule(k))
  {
  }

  lemma YieldView(k: Kernel, pc: Pc)
    requires k.cur in k.threads
    ensures SameView(SetPc(k, k.cur, pc), Yield(k, pc))
  {
    var k1 := SetPc(k, k.cur, pc);
    if k.idle == Some(k.cur) {
      ScheduleView(k1.(threads := k1.threads[k.cur := k1.threads[k.cur].(status := Ready)]));
    } else {
      ScheduleView(Enqueue(k1, k.cur));
    }
  }

  lemma HandlerTryKeeps(k: Kernel, n: nat)
    requires Inv(k) && Shared(n) in k.semas
    ensures Inv(HandlerTryDown(k, Shared(n)))
  {
    var k' := HandlerTryDown(k, Shared(n));
    HandlerTrySemas(k, Shared(n));
    SchedFrame(k, k');
    assert OwnOk(k, k.cur) && CondThreadOk(k, k.cur);
    CreateFrameSame(k, k');
    LocksFrame(k, k', k.cur);
    assert SamePrivate(k, k');
    ClaimsFrame(k, k', k.cur);
    ThreadFrame(k, k', k.cur);
    CondsFrame(k, k', k.cur);
  }

  lemma CreateFrameSame(k: Kernel, k': Kernel)
    requires CreateOk(k) && k'.threads == k.threads
    ensures CreateOk(k')
  {
  }

  // ---------------------------------------------------------------------
  // Steps of the current thread that wake nobody
  // ---------------------------------------------------------------------

  /** From thread code into a primitive, or back out of one. */
  lemma MovesKeep(k: Kernel, pc: Pc)
    requires Inv(k) && MayMove(k, pc) && Awake(pc) && k.cur != IDLE
    ensures Inv(SetPc(k, k.cur, pc))
  {
    MoveKeeps(k, pc);
    LocalKeeps(k, SetPc(k, k.cur, pc));
  }

  /** Places reached from thread code by a call. */
  ghost predicate Callable(k: Kernel, pc: Pc) {
    match pc
    case User => true
    case YieldCommit => true
    case DownTest(Plain(n)) => Shared(n) in k.semas
    case DownTest(Acquire(l)) => OfLock(l) in k.semas
    case BroadcastLoop(c, l, start, taken) =>
      c in k.conds && l == k.conds[c].lock && Holds(k, l) && taken == [] && start == k.conds[c].waiters
    case _ => false
  }

  lemma CallKeeps(k: Kernel, pc: Pc)
    requires Inv(k) && k.threads[k.cur].pc.User? && Callable(k, pc)
    ensures Inv(SetPc(k, k.cur, pc))
  {
    var t := k.cur;
    assert StatusOk(k, t) && OwnOk(k, t) && CondThreadOk(k, t) && WaitOk(k, t);
    if pc.BroadcastLoop? {
      HolderOwns(k, pc.l);
      assert [] + k.conds[pc.c].waiters == k.conds[pc.c].waiters;
    }
    assert forall c :: !Waiting(pc, c);
    MovesKeep(k, pc);
  }

  lemma ReturnKeeps(k: Kernel)
    requires Inv(k) && (k.threads[k.cur].pc.BroadcastLoop? || k.threads[k.cur].pc.YieldCommit?)
    ensures Inv(SetPc(k, k.cur, User))
  {
    var t := k.cur;
    assert StatusOk(k, t) && OwnOk(k, t) && CondThreadOk(k, t) && WaitOk(k, t);
    MovesKeep(k, User);
  }

  lemma WriteHolderKeeps(k: Kernel, l: LockId)
    requires Inv(k) && k.threads[k.cur].pc.SetHolder? && l in LocksTaken(k.threads[k.cur].pc.why)
    ensures Inv(WriteHolder(k, l))
  {
    var k', t := WriteHolder(k, l), k.cur;
    assert StatusOk(k, t) && OwnOk(k, t) && CondThreadOk(k, t) && WaitOk(k, t);
    WriteHolderLocks(k, l);
    MoveSemas(k, t, User);
    HolderFrame(SetPc(k, t, User), k');
    CreateFrame(k, k', t);
    LocalKeeps(k, k');
    assert l in k.holders && k'.holders.Keys == k.holders.Keys;
    CondsFrame(k, k', t);
  }

  /** The semaphores do not depend on the holder fields. */
  lemma HolderFrame(k: Kernel, k': Kernel)
    requires SemasOk(k) && k' == k.(holders := k'.holders)
    ensures SemasOk(k')
  {
    forall s | s in k'.semas ensures WaitersOk(k', s) { assert WaitersOk(k, s); }
    forall t | t in k'.threads ensures WaitOk(k', t) { assert WaitOk(k, t); }
  }

  /** lock_release up to its sema_up, from thread code or from cond_wait. */
  lemma ClearHolderKeeps(k: Kernel, l: LockId, wait: Option<CondId>)
    requires Inv(k) && Holds(k, l)
    requires match wait case None => k.threads[k.cur].pc.User? case Some(c) => k.threads[k.cur].pc == WaitRelease(c, l)
    ensures Inv(ClearHolder(k, l, wait))
  {
    var k', t := ClearHolder(k, l, wait), k.cur;
    assert StatusOk(k, t) && WaitOk(k, t);
    ClearHolderLocks(k, l, wait);
    MoveSemas(k, t, ReleaseUp(l, wait));
    HolderFrame(SetPc(k, t, ReleaseUp(l, wait)), k');
    CreateFrame(k, k', t);
    LocalKeeps(k, k');
    ClearConds(k, l, wait);
  }

  lemma ClearConds(k: Kernel, l: LockId, wait: Option<CondId>)
    requires CondsOk(k) && Holds(k, l) && k.cur in k.threads
    requires match wait case None => k.threads[k.cur].pc.User? case Some(c) => k.threads[k.cur].pc == WaitRelease(c, l)
    ensures CondsOk(ClearHolder(k, l, wait))
  {
    var k', t := ClearHolder(k, l, wait), k.cur;
    assert CondThreadOk(k, t);
    assert k'.holders.Keys == k.holders.Keys;
    ClaimsFrame(k, k', t);
    forall c | Waiting(k'.threads[t].pc, c)
      ensures c in k'.conds && (t in k'.conds[c].waiters || Claimed(k', t, c) || PrivateIs(k', t, 1, 0))
    {
      assert Waiting(k.threads[t].pc, c);
      assert t in k.conds[c].waiters || Claimed(k, t, c) || PrivateIs(k, t, 1, 0);
    }
    CondsFrame(k, k', t);
  }

  lemma WaitKeeps(k: Kernel, c: CondId)
    requires Inv(k) && c in k.conds && Holds(k, k.conds[c].lock) && k.threads[k.cur].pc.User?
    ensures Inv(WaitEnqueue(k, c))
  {
    var k', t := WaitEnqueue(k, c), k.cur;
    assert StatusOk(k, t) && OwnOk(k, t) && WaitOk(k, t);
    HolderOwns(k, k.conds[c].lock);
    WaitEnqueueSemas(k, c);
    CreateFrame(k, k', t);
    LocksFrame(k, k', t);
    WaitBegins(k, c);
    LocalKeeps(k, k');
  }

  lemma PopKeeps(k: Kernel, c: CondId, mode: Signaller)
    requires Inv(k) && CanPop(k, c) && (k.threads[k.cur].pc.User? || k.threads[k.cur].pc.BroadcastLoop?)
    requires mode.Loop? ==> mode.start == mode.taken + k.conds[c].waiters[1..]
    ensures Inv(SignalPop(k, c, mode))
  {
    var k', t := SignalPop(k, c, mode), k.cur;
    assert StatusOk(k, t) && OwnOk(k, t) && WaitOk(k, t);
    SignalPops(k, c, mode);
    MoveSemas(k, t, k'.threads[t].pc);
    CondFieldFrame(SetPc(k, t, k'.threads[t].pc), k');
    CreateFrame(k, k', t);
    LocksFrame(k, k', t);
    LocalKeeps(k, k');
  }

  lemma CondFieldFrame(k: Kernel, k': Kernel)
    requires SemasOk(k) && k' == k.(conds := k'.conds)
    ensures SemasOk(k')
  {
    forall s | s in k'.semas ensures WaitersOk(k', s) { assert WaitersOk(k, s); }
    forall t | t in k'.threads ensures WaitOk(k', t) { assert WaitOk(k, t); }
  }

  // ---------------------------------------------------------------------
  // Steps that wake a thread or switch
  // ---------------------------------------------------------------------

  /** lock_release just before the up: the caller no longer counts as owner. */
  function Disowned(k: Kernel, l: LockId, pc: Pc): Kernel
    requires k.cur in k.threads
  {
    k.(threads := k.threads[k.cur := k.threads[k.cur].(pc := pc, owns := k.threads[k.cur].owns - {l})])
  }

  lemma ReleaseConds(k: Kernel, l: LockId, wait: Option<CondId>, pc: Pc)
    requires CondsOk(k) && k.cur in k.threads && k.threads[k.cur].pc == ReleaseUp(l, wait) && OfLock(l) in k.semas
    requires pc == match wait case None => User case Some(c) => DownTest(Await(c, l))
    ensures CondsOk(UppedSemas(Disowned(k, l, pc), OfLock(l)))
  {
    var k', t := UppedSemas(Disowned(k, l, pc), OfLock(l)), k.cur;
    assert CondThreadOk(k, t);
    assert SamePrivate(k, k');
    ClaimsFrame(k, k', t);
    forall c | Waiting(k'.threads[t].pc, c)
      ensures c in k'.conds && (t in k'.conds[c].waiters || Claimed(k', t, c) || PrivateIs(k', t, 1, 0))
    {
      assert Waiting(k.threads[t].pc, c);
      assert t in k.conds[c].waiters || Claimed(k, t, c) || PrivateIs(k, t, 1, 0);
    }
    CondsFrame(k, k', t);
  }

  /** The releasing thread's own part of lock_release. */
  lemma DisownKeeps(k: Kernel, l: LockId, pc: Pc)
    requires SchedOk(k) && SemasOk(k) && CreateOk(k) && k.threads[k.cur].pc.ReleaseUp?
    requires pc.User? || (pc.DownTest? && pc.why.Await?)
    ensures SchedOk(Disowned(k, l, pc)) && SemasOk(Disowned(k, l, pc)) && CreateOk(Disowned(k, l, pc))
  {
    var kd, t := Disowned(k, l, pc), k.cur;
    assert StatusOk(k, t) && WaitOk(k, t);
    LocalKeeps(k, kd);
    MoveSemas(k, t, pc);
    PcFrame(SetPc(k, t, pc), kd);
    CreateFrame(k, kd, t);
  }

  lemma ReleaseKeeps(k: Kernel, l: LockId, wait: Option<CondId>)
    requires Inv(k) && k.threads[k.cur].pc == ReleaseUp(l, wait) && OfLock(l) in k.semas
    ensures Inv(ReleaseSection(k, l, wait))
  {
    var pc := match wait case None => User case Some(c) => DownTest(Await(c, l));
    var kd := Disowned(k, l, pc);
    DisownKeeps(k, l, pc);
    ReleaseLocks(k, UppedSemas(kd, OfLock(l)), k.cur, l);
    ReleaseConds(k, l, wait, pc);
    UpKeeps(kd, OfLock(l));
  }

  lemma PcFrame(k: Kernel, k': Kernel)
    requires SemasOk(k) && k'.threads.Keys == k.threads.Keys && k'.semas == k.semas
    requires forall t :: t in k.threads ==> k'.threads[t].pc == k.threads[t].pc
    ensures SemasOk(k')
  {
    forall s | s in k'.semas ensures WaitersOk(k', s) { assert WaitersOk(k, s); }
    forall t | t in k'.threads ensures WaitOk(k', t) { assert WaitOk(k, t); }
  }

  function AfterSignal(pc: Pc): Pc
    requires pc.SignalUp?
  {
    match pc.mode case Single => User case Loop(start, taken) => BroadcastLoop(pc.c, pc.l, start, taken)
  }

  lemma SignalLocks(k: Kernel, w: Tid)
    requires LocksOk(k) && k.cur in k.threads && k.threads[k.cur].pc.SignalUp? && Private(w) in k.semas
    ensures LocksOk(UppedSemas(SetPc(k, k.cur, AfterSignal(k.threads[k.cur].pc)), Private(w)))
  {
    assert OwnOk(k, k.cur);
    LocksFrame(k, UppedSemas(SetPc(k, k.cur, AfterSignal(k.threads[k.cur].pc)), Private(w)), k.cur);
  }

  /** The signaller's own part of the up. */
  lemma SignalMoves(k: Kernel)
    requires SchedOk(k) && SemasOk(k) && CreateOk(k) && k.threads[k.cur].pc.SignalUp?
    ensures var ks := SetPc(k, k.cur, AfterSignal(k.threads[k.cur].pc)); SchedOk(ks) && SemasOk(ks) && CreateOk(ks)
  {
    var t, pc := k.cur, AfterSignal(k.threads[k.cur].pc);
    assert StatusOk(k, t) && WaitOk(k, t);
    LocalKeeps(k, SetPc(k, t, pc));
    MoveSemas(k, t, pc);
    CreateFrame(k, SetPc(k, t, pc), t);
  }

  lemma SignalUpIs(k: Kernel)
    requires k.cur in k.threads && k.threads[k.cur].pc.SignalUp? && Private(k.threads[k.cur].pc.w) in k.semas
    ensures AdvanceStep(k) == Up(SetPc(k, k.cur, AfterSignal(k.threads[k.cur].pc)), Private(k.threads[k.cur].pc.w))
  {
  }

  lemma SignalUpKeeps(k: Kernel)
    requires Inv(k) && k.threads[k.cur].pc.SignalUp? && Private(k.threads[k.cur].pc.w) in k.semas
    ensures Inv(AdvanceStep(k))
  {
    var t, w := k.cur, k.threads[k.cur].pc.w;
    var ks := SetPc(k, t, AfterSignal(k.threads[t].pc));
    SignalMoves(k);
    SignalLocks(k, w);
    SignalConds(k, w);
    UpKeeps(ks, Private(w));
    SignalUpIs(k);
  }

  lemma SignalConds(k: Kernel, w: Tid)
    requires LocksOk(k) && CondsOk(k) && k.cur in k.threads
    requires k.threads[k.cur].pc.SignalUp? && w == k.threads[k.cur].pc.w && Private(w) in k.semas
    ensures CondsOk(UppedSemas(SetPc(k, k.cur, AfterSignal(k.threads[k.cur].pc)), Private(w)))
  {
    var ks := SetPc(k, k.cur, AfterSignal(k.threads[k.cur].pc));
    UppedIs(ks, Private(w));
    SignalUps(k, UppedSemas(ks, Private(w)), k.cur, w);
  }

  lemma UppedIs(k: Kernel, s: SemaId)
    requires s in k.semas
    ensures var k' := UppedSemas(k, s);
      && k' == k.(semas := k'.semas) && k'.semas.Keys == k.semas.Keys
      && (forall r :: r in k.semas && r != s ==> k'.semas[r] == k.semas[r])
      && k'.semas[s].init == k.semas[s].init && k'.semas[s].ups == k.semas[s].ups + 1 && k'.semas[s].downs == k.semas[s].downs
  {
  }

  lemma YieldsKeep(k: Kernel, pc: Pc)
    requires Inv(k) && (pc == k.threads[k.cur].pc || (k.threads[k.cur].pc.YieldCommit? && pc.User?))
    ensures Inv(Yield(k, pc))
  {
    if pc == k.threads[k.cur].pc {
      assert SetPc(k, k.cur, pc) == k;
    } else {
      ReturnKeeps(k);
      assert StatusOk(k, k.cur);
    }
    YieldKeeps(k, pc);
    YieldView(k, pc);
    SyncView(SetPc(k, k.cur, pc), Yield(k, pc));
  }

  lemma SetPriorityKeeps(k: Kernel, p: int, pc: Pc)
    requires Inv(k) && k.threads[k.cur].pc.User? && (pc.User? || pc.YieldCommit?)
    ensures Inv(k.(threads := k.threads[k.cur := k.threads[k.cur].(priority := p, pc := pc)]))
  {
    var k' := k.(threads := k.threads[k.cur := k.threads[k.cur].(priority := p, pc := pc)]);
    assert StatusOk(k, k.cur);
    CallKeeps(k, pc);
    LocalKeeps(k, k');
    SyncView(SetPc(k, k.cur, pc), k');
  }

  lemma ExitKeeps(k: Kernel)
    requires Inv(k) && k.threads[k.cur].pc.User?
    ensures Inv(Stop(k, Dying, Exited))
  {
    var t := k.cur;
    assert StatusOk(k, t) && WaitOk(k, t) && OwnOk(k, t) && CondThreadOk(k, t);
    MoveKeeps(k, Exited);
    StopKeeps(k, Dying, Exited);
    StopView(k, Dying, Exited);
    SyncView(SetPc(k, t, Exited), Stop(k, Dying, Exited));
  }

  lemma CreateSched(k: Kernel, n: Tid, th: Thread, pc: Pc)
    requires SchedOk(k) && n !in k.threads && th.pc.Spawned? && th.status == Blocked
    requires k.cur != IDLE && Awake(pc)
    ensures SchedOk(SetPc(k.(threads := k.threads[n := th]), k.cur, pc))
  {
    var k' := SetPc(k.(threads := k.threads[n := th]), k.cur, pc);
    QueueFrame(k, k');
    forall t | t in k'.threads ensures StatusOk(k', t) { if t != n { assert StatusOk(k, t); } }
  }

  lemma CreateKeeps(k: Kernel, n: Tid, p: int)
    requires Inv(k) && k.threads[k.cur].pc.User? && n !in k.threads && PRI_MIN <= p <= PRI_MAX
    ensures Inv(Next(k, CallCreate(n, p)))
  {
    var t := k.cur;
    var th := Thread(Blocked, p, Spawned, {}, 0);
    var k1 := k.(threads := k.threads[n := th], semas := k.semas[Private(n) := FreshSema(0)]);
    var k' := SetPc(k1, t, CreateUnblock(n));
    assert StatusOk(k, t);
    CreateSched(k, n, th, CreateUnblock(n));
    SchedFrame(SetPc(k.(threads := k.threads[n := th]), t, CreateUnblock(n)), k');
    CreateSemas(k, n, th);
    LocksCreate(k, k1, n);
    CondsCreate(k, k1, n);
    CreateBegins(k, n, th);
    CreateFrameSame(SetPc(k.(threads := k.threads[n := th]), t, CreateUnblock(n)), k');
    CreateMove(k1, n);
  }

  lemma CreateMove(k: Kernel, n: Tid)
    requires SemasOk(k) && LocksOk(k) && CondsOk(k) && k.cur in k.threads && k.threads[k.cur].pc.User?
    ensures var k' := SetPc(k, k.cur, CreateUnblock(n)); SemasOk(k') && LocksOk(k') && CondsOk(k')
  {
    var k', t := SetPc(k, k.cur, CreateUnblock(n)), k.cur;
    assert OwnOk(k, t) && CondThreadOk(k, t) && WaitOk(k, t);
    MoveSemas(k, t, CreateUnblock(n));
    LocksFrame(k, k', t);
    CondsFrame(k, k', t);
  }

  /** Moving a thread that is in no window, no wait and on no queue. */
  lemma PlainMove(k: Kernel, t: Tid, pc: Pc)
    requires SemasOk(k) && LocksOk(k) && CondsOk(k) && t in k.threads
    requires k.threads[t].pc.CreateUnblock? || k.threads[t].pc.Spawned? || OfIdle(k.threads[t].pc)
    requires pc.User? || OfIdle(pc)
    ensures SemasOk(SetPc(k, t, pc)) && LocksOk(SetPc(k, t, pc)) && CondsOk(SetPc(k, t, pc))
  {
    var k' := SetPc(k, t, pc);
    assert OwnOk(k, t) && CondThreadOk(k, t) && WaitOk(k, t);
    MoveSemas(k, t, pc);
    LocksFrame(k, k', t);
    CondsFrame(k, k', t);
  }

  lemma UnblockView(k: Kernel, n: Tid)
    ensures SameView(k, Unblock(k, n))
  {
  }

  lemma UnblockChildSched(k: Kernel, n: Tid)
    requires SchedOk(k) && k.threads[k.cur].pc.CreateUnblock? && n in k.threads && k.threads[n].pc.Spawned?
    ensures SchedOk(Unblock(SetPc(SetPc(k, k.cur, User), n, User), n))
  {
    var k1 := SetPc(k, k.cur, User);
    assert StatusOk(k, k.cur) && StatusOk(k, n);
    LocalKeeps(k, k1);
    WakeKeeps(k1, n, User);
  }

  lemma UnblockChildSync(k: Kernel, n: Tid)
    requires SyncOk(k) && k.cur in k.threads && k.threads[k.cur].pc == CreateUnblock(n)
    ensures n in k.threads && k.threads[n].pc.Spawned?
    ensures SyncOk(SetPc(SetPc(k, k.cur, User), n, User))
  {
    PlainMove(k, k.cur, User);
    PlainMove(SetPc(k, k.cur, User), n, User);
    CreateEnds(k);
  }

  lemma UnblockChildKeeps(k: Kernel)
    requires Inv(k) && k.threads[k.cur].pc.CreateUnblock?
    ensures Inv(AdvanceStep(k))
  {
    var n := k.threads[k.cur].pc.child;
    UnblockChildSync(k, n);
    UnblockChildSched(k, n);
    var k2 := SetPc(SetPc(k, k.cur, User), n, User);
    UnblockView(k2, n);
    SyncView(k2, Unblock(k2, n));
    assert AdvanceStep(k) == Unblock(k2, n);
  }

  lemma IdleStepKeeps(k: Kernel)
    requires Inv(k) && OfIdle(k.threads[k.cur].pc)
    ensures Inv(AdvanceStep(k))
  {
    var t := k.cur;
    assert StatusOk(k, t);
    match k.threads[t].pc {
      case IdleEntry =>
        IdleKeeps(k, Some(t), IdleUp);
        PlainMove(k, t, IdleUp);
        CreateFrame(k, SetPc(k, t, IdleUp), t);
        SyncView(SetPc(k, t, IdleUp), AdvanceStep(k));
      case IdleUp =>
        IdleKeeps(k, Some(t), IdleLoop);
        assert k.(idle := Some(t)) == k;
        PlainMove(k, t, IdleLoop);
        CreateFrame(k, SetPc(k, t, IdleLoop), t);
        UpSharedKeeps(SetPc(k, t, IdleLoop), 0);
      case IdleLoop =>
        assert SetPc(k, t, IdleLoop) == k;
        StopKeeps(k, Blocked, IdleLoop);
        StopView(k, Blocked, IdleLoop);
        SyncView(k, Stop(k, Blocked, IdleLoop));
    }
  }
}
