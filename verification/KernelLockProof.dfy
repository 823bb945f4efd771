/** Mutual exclusion and thread creation are kept by every section. */
module KernelLockProof {
  import opened Options
  import opened KernelState
  import opened KernelInvariant
  import opened KernelSemaProof

  // ---------------------------------------------------------------------
  // Creation
  // ---------------------------------------------------------------------

  predicate Creating(pc: Pc) {
    pc.CreateUnblock? || pc.Spawned?
  }

  lemma CreateFrame(k: Kernel, k': Kernel, t: Tid)
    requires CreateOk(k) && k'.threads.Keys == k.threads.Keys && t in k.threads
    requires forall u :: u in k.threads && u != t ==> k'.threads[u].pc == k.threads[u].pc
    requires !k.threads[t].pc.Spawned? && !Creating(k'.threads[t].pc)
    ensures CreateOk(k')
  {
  }

  /** thread_create makes a thread that only its creator can unblock. */
  lemma CreateBegins(k: Kernel, c: Tid, th: Thread)
    requires CreateOk(k) && k.cur in k.threads && k.threads[k.cur].pc.User? && c !in k.threads && th.pc.Spawned?
    ensures CreateOk(SetPc(k.(threads := k.threads[c := th]), k.cur, CreateUnblock(c)))
  {
  }

  lemma CreateEnds(k: Kernel)
    requires CreateOk(k) && k.cur in k.threads && k.threads[k.cur].pc.CreateUnblock?
    ensures CreateOk(StartChild(SetPc(k, k.cur, User), k.threads[k.cur].pc.child))
  {
  }

  // ---------------------------------------------------------------------
  // Locks
  // ---------------------------------------------------------------------

  lemma LocksView(a: Kernel, b: Kernel)
    requires SameView(a, b) && LocksOk(a) && CreateOk(a)
    ensures LocksOk(b) && CreateOk(b)
  {
    OwnedFrame(a, b);
    forall l | l in b.holders ensures LockOk(b, l) { assert LockOk(a, l); }
    forall t | t in b.threads ensures OwnOk(b, t) { assert OwnOk(a, t); }
  }

  lemma OwnedFrame(k: Kernel, k': Kernel)
    requires k'.threads.Keys == k.threads.Keys
    requires forall t :: t in k.threads ==> k'.threads[t].owns == k.threads[t].owns
    ensures forall l :: Owned(k', l) <==> Owned(k, l)
  {
    forall l ensures Owned(k', l) <==> Owned(k, l) {
      if Owned(k, l) { var t :| t in k.threads && l in k.threads[t].owns; assert l in k'.threads[t].owns; }
      if Owned(k', l) { var t :| t in k'.threads && l in k'.threads[t].owns; assert l in k.threads[t].owns; }
    }
  }

  /** The values of the lock semaphores are as before. */
  ghost predicate SameLockValues(k: Kernel, k': Kernel) {
    forall l :: (OfLock(l) in k.semas <==> OfLock(l) in k'.semas) &&
                (OfLock(l) in k.semas ==> k'.semas[OfLock(l)].value == k.semas[OfLock(l)].value &&
                                          k'.semas[OfLock(l)].init == k.semas[OfLock(l)].init)
  }

  /** t moves without acquiring or releasing anything. */
  lemma LocksFrame(k: Kernel, k': Kernel, t: Tid)
    requires LocksOk(k) && k'.threads.Keys == k.threads.Keys && t in k.threads
    requires forall u :: u in k.threads && u != t ==> k'.threads[u].pc == k.threads[u].pc
    requires forall u :: u in k.threads ==> k'.threads[u].owns == k.threads[u].owns
    requires k'.holders == k.holders && SameLockValues(k, k')
    requires forall l :: InWindow(k'.threads[t].pc, l) <==> InWindow(k.threads[t].pc, l)
    requires OwnOk(k', t)
    ensures LocksOk(k')
  {
    OwnedFrame(k, k');
    forall l | l in k'.holders ensures LockOk(k', l) { assert LockOk(k, l); }
    forall u | u in k'.threads && u != t ensures OwnOk(k', u) { assert OwnOk(k, u); }
  }

  /** A new thread owns nothing. */
  lemma LocksCreate(k: Kernel, k': Kernel, c: Tid)
    requires LocksOk(k) && c !in k.threads && c in k'.threads && k'.threads == k.threads[c := k'.threads[c]]
    requires k'.threads[c].owns == {} && k'.threads[c].pc.Spawned?
    requires k'.holders == k.holders && SameLockValues(k, k')
    ensures LocksOk(k')
  {
    forall l ensures Owned(k', l) <==> Owned(k, l) {
      if Owned(k, l) { var t :| t in k.threads && l in k.threads[t].owns; assert l in k'.threads[t].owns; }
      if Owned(k', l) { var t :| t in k'.threads && l in k'.threads[t].owns; assert l in k.threads[t].owns; }
    }
    forall l | l in k'.holders ensures LockOk(k', l) { assert LockOk(k, l); }
    forall u | u in k'.threads ensures OwnOk(k', u) { if u != c { assert OwnOk(k, u); } }
  }

  /** Only the semaphore of l differs among the lock semaphores. */
  ghost predicate OnlyLock(k: Kernel, k': Kernel, l: LockId) {
    && OfLock(l) in k.semas && OfLock(l) in k'.semas
    && k'.semas[OfLock(l)].init == k.semas[OfLock(l)].init
    && forall m {:trigger OfLock(m)} :: m != l ==>
         && (OfLock(m) in k.semas <==> OfLock(m) in k'.semas)
         && (OfLock(m) in k.semas ==> k'.semas[OfLock(m)] == k.semas[OfLock(m)])
  }

  lemma FreeLock(k: Kernel, l: LockId)
    requires LocksOk(k) && OfLock(l) in k.semas && k.semas[OfLock(l)].value > 0
    ensures !Owned(k, l) && k.holders[l] == None && k.semas[OfLock(l)].value == 1
  {
    assert LockOk(k, l);
  }

  lemma GainLock(k: Kernel, k': Kernel, t: Tid, l: LockId)
    requires LocksOk(k) && t in k.threads && k'.holders == k.holders && OnlyLock(k, k', l)
    requires k.semas[OfLock(l)].value > 0 && k'.semas[OfLock(l)].value == k.semas[OfLock(l)].value - 1
    requires t in k'.threads && k'.threads == k.threads[t := k'.threads[t]]
    requires k'.threads[t].owns == k.threads[t].owns + {l} && k'.threads[t].pc.SetHolder?
    requires LocksTaken(k'.threads[t].pc.why) == {l}
    requires forall m :: !InWindow(k.threads[t].pc, m)
    ensures LocksOk(k')
  {
    FreeLock(k, l);
    forall m ensures m != l ==> (Owned(k', m) <==> Owned(k, m)) {
      if Owned(k, m) { var u :| u in k.threads && m in k.threads[u].owns; assert m in k'.threads[u].owns; }
      if Owned(k', m) { var u :| u in k'.threads && m in k'.threads[u].owns; assert m != l ==> m in k.threads[u].owns; }
    }
    forall m | m in k'.holders ensures LockOk(k', m) {
      assert LockOk(k, m);
      if m == l { assert l in k'.threads[t].owns; }
    }
    forall u | u in k'.threads ensures OwnOk(k', u) { assert OwnOk(k, u); }
    forall u | u in k.threads && l in k.threads[u].owns ensures false { assert Owned(k, l); }
  }

  /** A completed down of a lock's semaphore finds the lock unowned. */
  lemma AcquireLocks(k: Kernel, why: Why)
    requires LocksOk(k) && k.cur in k.threads && (why.Acquire? || why.Reacquire?)
    requires OfLock(why.l) in k.semas && k.semas[OfLock(why.l)].value > 0
    requires forall l :: !InWindow(k.threads[k.cur].pc, l)
    ensures LocksOk(Take(k, why))
  {
    GainLock(k, Take(k, why), k.cur, why.l);
  }

  /** Writing the holder after a down. */
  lemma WriteHolderLocks(k: Kernel, l: LockId)
    requires LocksOk(k) && k.cur in k.threads && k.threads[k.cur].pc.SetHolder? && l in LocksTaken(k.threads[k.cur].pc.why)
    ensures LocksOk(WriteHolder(k, l))
  {
    var k' := WriteHolder(k, l);
    assert OwnOk(k, k.cur);
    OwnedFrame(k, k');
    forall m | m in k'.holders ensures LockOk(k', m) { assert LockOk(k, m); }
    forall u | u in k'.threads ensures OwnOk(k', u) { assert OwnOk(k, u); }
  }

  /** Clearing the holder before an up. */
  lemma ClearHolderLocks(k: Kernel, l: LockId, wait: Option<CondId>)
    requires LocksOk(k) && k.cur in k.threads && Holds(k, l)
    requires forall m :: !InWindow(k.threads[k.cur].pc, m)
    ensures LocksOk(ClearHolder(k, l, wait))
  {
    var k' := ClearHolder(k, l, wait);
    assert LockOk(k, l);
    OwnedFrame(k, k');
    forall m | m in k'.holders ensures LockOk(k', m) { assert LockOk(k, m); }
    forall u | u in k'.threads ensures OwnOk(k', u) { assert OwnOk(k, u); }
  }

  /** After the up that ends lock_release nobody owns the lock. */
  lemma ReleaseLocks(k: Kernel, k': Kernel, t: Tid, l: LockId)
    requires LocksOk(k) && t in k.threads && k.threads[t].pc.ReleaseUp? && k.threads[t].pc.l == l
    requires t in k'.threads && k'.threads == k.threads[t := k'.threads[t]]
    requires k'.threads[t].owns == k.threads[t].owns - {l} && (k'.threads[t].pc.User? || k'.threads[t].pc.DownTest?)
    requires k'.holders == k.holders && OnlyLock(k, k', l)
    requires k'.semas[OfLock(l)].value == k.semas[OfLock(l)].value + 1
    ensures LocksOk(k')
  {
    assert OwnOk(k, t) && LockOk(k, l);
    assert l in k.threads[t].owns;
    forall m ensures Owned(k', m) <==> Owned(k, m) && m != l {
      if Owned(k, m) && m != l { var u :| u in k.threads && m in k.threads[u].owns; assert m in k'.threads[u].owns; }
      if Owned(k', m) { var u :| u in k'.threads && m in k'.threads[u].owns; assert m in k.threads[u].owns; }
    }
    forall m | m in k'.holders ensures LockOk(k', m) { assert LockOk(k, m); }
    forall u | u in k'.threads ensures OwnOk(k', u) { assert OwnOk(k, u); }
  }
}
