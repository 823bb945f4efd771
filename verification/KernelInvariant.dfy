/** What holds in every state of every run of the step machine. */
module KernelInvariant {
  import opened Options
  import opened Sequences
  import opened KernelState

  // ---------------------------------------------------------------------
  // Scheduling
  // ---------------------------------------------------------------------

  /** The status of t agrees with where it is. */
  ghost predicate StatusOk(k: Kernel, t: Tid)
    requires t in k.threads
  {
    var th := k.threads[t];
    && (th.status == Ready && k.idle != Some(t) ==> t in k.ready)
    && (th.status == Blocked ==> th.pc.DownAsleep? || th.pc.Spawned? || th.pc.IdleLoop?)
    && (th.pc.DownAsleep? || th.pc.Spawned? ==> th.status == Blocked)
    && (th.status == Dying <==> th.pc.Exited?)
    && (th.pc.IdleEntry? || th.pc.IdleUp? || th.pc.IdleLoop? <==> t == IDLE)
    && (th.pc.IdleEntry? <==> t == IDLE && k.idle == None)
  }

  ghost predicate ReadyOk(k: Kernel) {
    && NoDup(k.ready)
    && forall t {:trigger t in k.ready} :: t in k.ready ==>
         t in k.threads && k.threads[t].status == Ready && k.idle != Some(t) && k.threads[t].since < k.clock
  }

  /** Higher priority first; first come first served among equals. */
  ghost predicate Before(k: Kernel, a: Tid, b: Tid) {
    Prio(k, a) > Prio(k, b) ||
    (Prio(k, a) == Prio(k, b) && a in k.threads && b in k.threads && k.threads[a].since < k.threads[b].since)
  }

  ghost predicate Ordered(k: Kernel) {
    forall i, j :: 0 <= i < j < |k.ready| ==> Before(k, k.ready[i], k.ready[j])
  }

  /** What the scheduler keeps even in the middle of a switch. */
  ghost predicate QueuesOk(k: Kernel) {
    && !k.panic
    && k.cur in k.threads
    && IDLE in k.threads
    && (k.idle == None || k.idle == Some(IDLE))
    && (forall t {:trigger StatusOk(k, t)} :: t in k.threads ==> StatusOk(k, t))
    && ReadyOk(k)
    && Ordered(k)
    && (forall t {:trigger t in k.freed} :: t in k.freed ==> t in k.threads && k.threads[t].status == Dying)
  }

  ghost predicate SchedOk(k: Kernel) {
    && QueuesOk(k)
    && (forall t :: t in k.threads ==> (k.threads[t].status == Running <==> t == k.cur))
  }

  // ---------------------------------------------------------------------
  // Semaphores
  // ---------------------------------------------------------------------

  /** Being queued on s is the same as sleeping in a down of s, and having been
      popped from s the same as being about to test s again. */
  ghost predicate WaitersOk(k: Kernel, s: SemaId)
    requires s in k.semas
  {
    && NoDup(k.semas[s].waiters)
    && (forall t {:trigger t in k.semas[s].waiters} :: t in k.semas[s].waiters ==>
          t in k.threads && k.threads[t].pc.DownAsleep? && SemaOf(k.threads[t].pc.why, t) == s)
    && (forall t {:trigger t in k.semas[s].popped} :: t in k.semas[s].popped ==>
          t in k.threads && k.threads[t].pc.DownWoken? && SemaOf(k.threads[t].pc.why, t) == s)
  }

  ghost predicate WaitOk(k: Kernel, t: Tid)
    requires t in k.threads
  {
    var pc := k.threads[t].pc;
    && Private(t) in k.semas
    && (pc.DownTest? || pc.DownAsleep? || pc.DownWoken? ==> SemaOf(pc.why, t) in k.semas)
    && (pc.DownAsleep? ==> t in k.semas[SemaOf(pc.why, t)].waiters)
    && (pc.DownWoken? ==> t in k.semas[SemaOf(pc.why, t)].popped)
  }

  /** Ups and downs account for the value, and a value that a sleeper could take is
      already promised to a thread that has been woken. */
  ghost predicate CountOk(m: Sema) {
    && m.value + m.downs == m.init + m.ups
    && (m.waiters != [] ==> m.value <= |m.popped|)
  }

  ghost predicate SemasOk(k: Kernel) {
    && IDLE_STARTED in k.semas
    && (forall s {:trigger WaitersOk(k, s)} :: s in k.semas ==> WaitersOk(k, s))
    && (forall t {:trigger WaitOk(k, t)} :: t in k.threads ==> WaitOk(k, t))
    && (forall s {:trigger CountOk(k.semas[s])} :: s in k.semas ==> CountOk(k.semas[s]))
    && (forall t :: Private(t) in k.semas ==> t in k.threads)
  }

  // ---------------------------------------------------------------------
  // Thread creation
  // ---------------------------------------------------------------------

  ghost predicate CreateOk(k: Kernel) {
    && (forall t :: t in k.threads && k.threads[t].pc.CreateUnblock? ==>
          k.threads[t].pc.child in k.threads && k.threads[k.threads[t].pc.child].pc.Spawned?)
    && (forall t, u ::
          t in k.threads && u in k.threads && k.threads[t].pc.CreateUnblock? && k.threads[u].pc == k.threads[t].pc
          ==> t == u)
  }

  // ---------------------------------------------------------------------
  // Locks
  // ---------------------------------------------------------------------

  /** The lock whose holder field t is about to write or has just cleared. */
  predicate InWindow(pc: Pc, l: LockId) {
    match pc
    case SetHolder(why) => l in LocksTaken(why)
    case ReleaseUp(m, _) => m == l
    case _ => false
  }

  ghost predicate Owned(k: Kernel, l: LockId) {
    exists t :: t in k.threads && l in k.threads[t].owns
  }

  ghost predicate LockOk(k: Kernel, l: LockId)
    requires l in k.holders
  {
    && OfLock(l) in k.semas
    && k.semas[OfLock(l)].init == 1
    && (k.semas[OfLock(l)].value == 0 <==> Owned(k, l))
    && k.semas[OfLock(l)].value <= 1
    && (k.holders[l].Some? ==>
          && k.holders[l].value in k.threads
          && l in k.threads[k.holders[l].value].owns
          && !InWindow(k.threads[k.holders[l].value].pc, l))
  }

  /** The locks a thread must own to be where it is. */
  ghost predicate OwnOk(k: Kernel, t: Tid)
    requires t in k.threads
  {
    var th := k.threads[t];
    && (forall l {:trigger l in th.owns} :: l in th.owns ==> l in k.holders)
    && (forall l {:trigger l in th.owns} :: l in th.owns && !InWindow(th.pc, l) ==> k.holders[l] == Some(t))
    && (match th.pc
        case SetHolder(why) => (why.Acquire? || why.Reacquire?) && why.l in th.owns
        case WaitRelease(_, l) => l in th.owns
        case ReleaseUp(l, _) => l in th.owns
        case SignalUp(_, l, _, _) => l in th.owns
        case BroadcastLoop(_, l, _, _) => l in th.owns
        case _ => true)
  }

  ghost predicate LocksOk(k: Kernel) {
    && (forall l :: OfLock(l) in k.semas <==> l in k.holders)
    && (forall l {:trigger LockOk(k, l)} :: l in k.holders ==> LockOk(k, l))
    && (forall t {:trigger OwnOk(k, t)} :: t in k.threads ==> OwnOk(k, t))
    && (forall t, u, l {:trigger l in k.threads[t].owns, l in k.threads[u].owns} ::
          t in k.threads && u in k.threads && l in k.threads[t].owns && l in k.threads[u].owns ==> t == u)
  }

  // ---------------------------------------------------------------------
  // Condition variables
  // ---------------------------------------------------------------------

  /** t has queued on c and its private down has not completed. */
  predicate Waiting(pc: Pc, c: CondId) {
    match pc
    case WaitRelease(d, _) => d == c
    case ReleaseUp(_, wait) => wait == Some(c)
    case DownTest(why) => why.Await? && why.c == c
    case DownAsleep(why) => why.Await? && why.c == c
    case DownWoken(why) => why.Await? && why.c == c
    case _ => false
  }

  ghost predicate PrivateIs(k: Kernel, t: Tid, ups: nat, downs: nat) {
    && Private(t) in k.semas
    && k.semas[Private(t)].init == 0
    && k.semas[Private(t)].ups == ups
    && k.semas[Private(t)].downs == downs
  }

  /** Some signaller has popped w from c and not yet upped its semaphore. */
  ghost predicate Claimed(k: Kernel, w: Tid, c: CondId) {
    exists x :: x in k.threads && k.threads[x].pc.SignalUp? && k.threads[x].pc.w == w && k.threads[x].pc.c == c
  }

  ghost predicate CondOk(k: Kernel, c: CondId)
    requires c in k.conds
  {
    var cd := k.conds[c];
    && cd.lock in k.holders
    && NoDup(cd.waiters)
    && cd.waited == cd.signalled + cd.waiters
    && (forall t {:trigger t in cd.waiters} :: t in cd.waiters ==>
          t in k.threads && Waiting(k.threads[t].pc, c) && PrivateIs(k, t, 0, 0) && !Claimed(k, t, c))
  }

  /** Where t is in a wait, a signal or a broadcast determines its semaphore. */
  ghost predicate CondThreadOk(k: Kernel, t: Tid)
    requires t in k.threads
  {
    var pc := k.threads[t].pc;
    && (forall c {:trigger Waiting(pc, c)} :: Waiting(pc, c) ==>
          && c in k.conds
          && (t in k.conds[c].waiters || Claimed(k, t, c) || PrivateIs(k, t, 1, 0)))
    && (match pc
        case WaitRelease(c, l) => c in k.conds && l == k.conds[c].lock
        case ReleaseUp(l, Some(c)) => c in k.conds && l == k.conds[c].lock
        case DownTest(Await(c, l)) => c in k.conds && l == k.conds[c].lock
        case DownAsleep(Await(c, l)) => c in k.conds && l == k.conds[c].lock
        case DownWoken(Await(c, l)) => c in k.conds && l == k.conds[c].lock
        case DownTest(Reacquire(c, l)) => PrivateIs(k, t, 1, 1)
        case DownAsleep(Reacquire(c, l)) => PrivateIs(k, t, 1, 1)
        case DownWoken(Reacquire(c, l)) => PrivateIs(k, t, 1, 1)
        case SetHolder(Reacquire(c, l)) => PrivateIs(k, t, 1, 1)
        case SignalUp(c, l, w, mode) =>
          && c in k.conds && l == k.conds[c].lock
          && w in k.threads && Waiting(k.threads[w].pc, c) && PrivateIs(k, w, 0, 0)
          && w !in k.conds[c].waiters
          && (mode.Loop? ==> mode.start == mode.taken + k.conds[c].waiters)
        case BroadcastLoop(c, l, start, taken) =>
          && c in k.conds && l == k.conds[c].lock
          && start == taken + k.conds[c].waiters
        case _ => true)
  }

  ghost predicate CondsOk(k: Kernel) {
    && (forall c {:trigger CondOk(k, c)} :: c in k.conds ==> CondOk(k, c))
    && (forall t {:trigger CondThreadOk(k, t)} :: t in k.threads ==> CondThreadOk(k, t))
  }

  ghost predicate Inv(k: Kernel) {
    SchedOk(k) && SemasOk(k) && CreateOk(k) && LocksOk(k) && CondsOk(k)
  }
}
