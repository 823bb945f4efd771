/** The condition-variable part of the invariant is kept by every section. */
module KernelCondProof {
  import opened Options
  import opened KernelState
  import opened KernelInvariant
  import opened KernelSemaProof

  /** The history of every private semaphore is as before. */
  ghost predicate SamePrivate(k: Kernel, k': Kernel) {
    forall u {:trigger Private(u)} ::
      && (Private(u) in k.semas <==> Private(u) in k'.semas)
      && (Private(u) in k.semas ==>
            && k'.semas[Private(u)].init == k.semas[Private(u)].init
            && k'.semas[Private(u)].ups == k.semas[Private(u)].ups
            && k'.semas[Private(u)].downs == k.semas[Private(u)].downs)
  }

  /** Every thread but t is where it was. */
  ghost predicate OnlyMoves(k: Kernel, k': Kernel, t: Tid) {
    && k'.threads.Keys == k.threads.Keys
    && t in k.threads
    && forall u {:trigger k'.threads[u]} :: u in k.threads && u != t ==> k'.threads[u].pc == k.threads[u].pc
  }

  ghost predicate SameClaims(k: Kernel, k': Kernel) {
    forall w, c :: Claimed(k', w, c) <==> Claimed(k, w, c)
  }

  lemma ClaimsFrame(k: Kernel, k': Kernel, t: Tid)
    requires OnlyMoves(k, k', t)
    requires k.threads[t].pc.SignalUp? || k'.threads[t].pc.SignalUp? ==> k'.threads[t].pc == k.threads[t].pc
    ensures SameClaims(k, k')
  {
    forall w, c ensures Claimed(k', w, c) <==> Claimed(k, w, c) {
      if Claimed(k, w, c) {
        var x :| x in k.threads && k.threads[x].pc.SignalUp? && k.threads[x].pc.w == w && k.threads[x].pc.c == c;
        assert k'.threads[x].pc == k.threads[x].pc;
      }
      if Claimed(k', w, c) {
        var x :| x in k'.threads && k'.threads[x].pc.SignalUp? && k'.threads[x].pc.w == w && k'.threads[x].pc.c == c;
        assert k'.threads[x].pc == k.threads[x].pc;
      }
    }
  }

  /** The same threads wait on the same conditions. */
  ghost predicate SameWaiting(k: Kernel, k': Kernel) {
    && k'.threads.Keys == k.threads.Keys
    && forall u, c {:trigger Waiting(k'.threads[u].pc, c)} {:trigger Waiting(k.threads[u].pc, c)} ::
         u in k.threads ==> (Waiting(k'.threads[u].pc, c) <==> Waiting(k.threads[u].pc, c))
  }

  ghost predicate SameConds(k: Kernel, k': Kernel) {
    && SamePrivate(k, k') && SameClaims(k, k') && SameWaiting(k, k')
    && k'.conds == k.conds && k'.holders.Keys == k.holders.Keys
  }

  lemma CondFrame(k: Kernel, k': Kernel, c: CondId)
    requires SameConds(k, k') && c in k.conds && CondOk(k, c)
    ensures CondOk(k', c)
  {
    forall u | u in k.conds[c].waiters
      ensures u in k'.threads && Waiting(k'.threads[u].pc, c) && PrivateIs(k', u, 0, 0) && !Claimed(k', u, c)
    {
      assert PrivateIs(k, u, 0, 0) && !Claimed(k, u, c);
    }
  }

  lemma ThreadFrame(k: Kernel, k': Kernel, u: Tid)
    requires SameConds(k, k') && u in k.threads && k'.threads[u].pc == k.threads[u].pc && CondThreadOk(k, u)
    ensures CondThreadOk(k', u)
  {
    var pc := k.threads[u].pc;
    forall c | Waiting(pc, c) ensures c in k'.conds && (u in k'.conds[c].waiters || Claimed(k', u, c) || PrivateIs(k', u, 1, 0)) {
      assert u in k.conds[c].waiters || Claimed(k, u, c) || PrivateIs(k, u, 1, 0);
    }
    if pc.SignalUp? {
      assert Waiting(k'.threads[pc.w].pc, pc.c) by { assert Waiting(k.threads[pc.w].pc, pc.c); }
    }
  }

  lemma CondsView(a: Kernel, b: Kernel)
    requires SameView(a, b) && CondsOk(a)
    ensures CondsOk(b)
  {
    forall w, c ensures Claimed(b, w, c) <==> Claimed(a, w, c) {
      if Claimed(a, w, c) {
        var x :| x in a.threads && a.threads[x].pc.SignalUp? && a.threads[x].pc.w == w && a.threads[x].pc.c == c;
        assert b.threads[x].pc == a.threads[x].pc;
      }
      if Claimed(b, w, c) {
        var x :| x in b.threads && b.threads[x].pc.SignalUp? && b.threads[x].pc.w == w && b.threads[x].pc.c == c;
        assert b.threads[x].pc == a.threads[x].pc;
      }
    }
    forall c | c in b.conds ensures CondOk(b, c) { CondFrame(a, b, c); }
    forall u | u in b.threads ensures CondThreadOk(b, u) { ThreadFrame(a, b, u); }
  }

  /** t moves without entering or leaving a wait or a signal. */
  lemma CondsFrame(k: Kernel, k': Kernel, t: Tid)
    requires CondsOk(k) && OnlyMoves(k, k', t) && SamePrivate(k, k')
    requires k'.conds == k.conds && k.holders.Keys == k'.holders.Keys
    requires forall c {:trigger Waiting(k'.threads[t].pc, c)} :: Waiting(k'.threads[t].pc, c) <==> Waiting(k.threads[t].pc, c)
    requires k.threads[t].pc.SignalUp? || k'.threads[t].pc.SignalUp? ==> k'.threads[t].pc == k.threads[t].pc
    requires SameConds(k, k') ==> CondThreadOk(k', t)
    ensures CondsOk(k')
  {
    ClaimsFrame(k, k', t);
    assert SameWaiting(k, k');
    forall c | c in k'.conds ensures CondOk(k', c) { CondFrame(k, k', c); }
    forall u | u in k'.threads && u != t ensures CondThreadOk(k', u) { ThreadFrame(k, k', u); }
  }

  /** The conditions whose lists a thread at pc is working on. */
  predicate WorksOn(pc: Pc, c: CondId) {
    (pc.SignalUp? || pc.BroadcastLoop?) && pc.c == c
  }

  /** Two threads never work on the list of one condition, which is not protected by
      turning interrupts off. */
  lemma WorksAlone(k: Kernel, t: Tid, u: Tid, c: CondId)
    requires LocksOk(k) && CondsOk(k) && t in k.threads && u in k.threads && c in k.conds
    requires k.conds[c].lock in k.threads[t].owns
    requires WorksOn(k.threads[u].pc, c)
    ensures u == t
  {
    assert OwnOk(k, u) && CondThreadOk(k, u);
    assert k.conds[c].lock in k.threads[u].owns;
  }

  lemma HolderOwns(k: Kernel, l: LockId)
    requires LocksOk(k) && Holds(k, l)
    ensures k.cur in k.threads && l in k.threads[k.cur].owns
  {
    assert LockOk(k, l);
  }

  /** A thread that is not waiting is on no condition's list and claimed by nobody. */
  lemma NotWaiting(k: Kernel, t: Tid, c: CondId)
    requires CondsOk(k) && t in k.threads && c in k.conds && !Waiting(k.threads[t].pc, c)
    ensures t !in k.conds[c].waiters && !Claimed(k, t, c)
  {
    assert CondOk(k, c);
    forall x | x in k.threads && k.threads[x].pc.SignalUp?
      ensures k.threads[x].pc.w in k.threads && Waiting(k.threads[k.threads[x].pc.w].pc, k.threads[x].pc.c)
    {
      assert CondThreadOk(k, x);
    }
  }

  lemma WaitBeginsCond(k: Kernel, c: CondId, d: CondId)
    requires LocksOk(k) && CondsOk(k) && c in k.conds && d in k.conds && Holds(k, k.conds[c].lock) && k.cur in k.threads && k.threads[k.cur].pc.User?
    requires SameClaims(k, WaitEnqueue(k, c))
    ensures CondOk(WaitEnqueue(k, c), d)
  {
    var k', t := WaitEnqueue(k, c), k.cur;
    NotWaiting(k, t, d);
    assert CondOk(k, d);
    if d == c {
      AppendNoDup(k.conds[c].waiters, t);
      assert k.conds[c].signalled + (k.conds[c].waiters + [t]) == (k.conds[c].signalled + k.conds[c].waiters) + [t];
    }
    forall u | u in k'.conds[d].waiters
      ensures u in k'.threads && Waiting(k'.threads[u].pc, d) && PrivateIs(k', u, 0, 0) && !Claimed(k', u, d)
    {
      if u != t {
        assert u in k.conds[d].waiters;
        assert PrivateIs(k, u, 0, 0) && !Claimed(k, u, d);
      } else {
        assert !Claimed(k, t, d);
      }
    }
  }

  lemma WaitBeginsThread(k: Kernel, c: CondId, u: Tid)
    requires LocksOk(k) && CondsOk(k) && c in k.conds && Holds(k, k.conds[c].lock) && k.cur in k.threads && k.threads[k.cur].pc.User?
    requires SameClaims(k, WaitEnqueue(k, c)) && u in k.threads && u != k.cur
    ensures CondThreadOk(WaitEnqueue(k, c), u)
  {
    var k', t := WaitEnqueue(k, c), k.cur;
    assert CondThreadOk(k, u);
    var pc := k.threads[u].pc;
    HolderOwns(k, k.conds[c].lock);
    if WorksOn(pc, c) { WorksAlone(k, t, u, c); }
    forall d | Waiting(pc, d) ensures d in k'.conds && (u in k'.conds[d].waiters || Claimed(k', u, d) || PrivateIs(k', u, 1, 0)) {
      assert u in k.conds[d].waiters || Claimed(k, u, d) || PrivateIs(k, u, 1, 0);
      if u in k.conds[d].waiters && d == c { AppendIn(k.conds[c].waiters, t, u); }
    }
    if pc.SignalUp? {
      assert Waiting(k.threads[pc.w].pc, pc.c) && PrivateIs(k, pc.w, 0, 0);
    }
  }

  lemma AppendIn(q: seq<Tid>, t: Tid, u: Tid)
    requires u in q
    ensures u in q + [t]
  {
    var i :| 0 <= i < |q| && q[i] == u;
    assert (q + [t])[i] == u;
  }

  /** cond_wait joins the list: it owns the condition's lock, so nobody else is
      working on that list. */
  lemma WaitBegins(k: Kernel, c: CondId)
    requires LocksOk(k) && CondsOk(k) && c in k.conds && Holds(k, k.conds[c].lock) && k.cur in k.threads && k.threads[k.cur].pc.User?
    ensures CondsOk(WaitEnqueue(k, c))
  {
    var k', t := WaitEnqueue(k, c), k.cur;
    ClaimsFrame(k, k', t);
    forall d | d in k'.conds ensures CondOk(k', d) { WaitBeginsCond(k, c, d); }
    forall u | u in k'.threads ensures CondThreadOk(k', u) {
      if u != t { WaitBeginsThread(k, c, u); }
      else { assert (k.conds[c].waiters + [t])[|k.conds[c].waiters|] == t; }
    }
  }

  /** The pc a signaller may pop from: it holds the lock and is not in a signal. */
  ghost predicate CanPop(k: Kernel, c: CondId) {
    && LocksOk(k) && CondsOk(k) && k.cur in k.threads && c in k.conds && k.conds[c].waiters != []
    && k.conds[c].lock in k.threads[k.cur].owns
    && !k.threads[k.cur].pc.SignalUp? && (forall d :: !Waiting(k.threads[k.cur].pc, d))
  }

  lemma PopClaims(k: Kernel, c: CondId, mode: Signaller)
    requires CanPop(k, c)
    ensures forall w, d :: Claimed(SignalPop(k, c, mode), w, d) <==> Claimed(k, w, d) || (w == k.conds[c].waiters[0] && d == c)
  {
    var k' := SignalPop(k, c, mode);
    forall w, d ensures Claimed(k', w, d) <==> Claimed(k, w, d) || (w == k.conds[c].waiters[0] && d == c) {
      assert k'.threads[k.cur].pc.SignalUp?;
      if Claimed(k, w, d) {
        var x :| x in k.threads && k.threads[x].pc.SignalUp? && k.threads[x].pc.w == w && k.threads[x].pc.c == d;
        assert k'.threads[x].pc == k.threads[x].pc;
      }
      if Claimed(k', w, d) {
        var x :| x in k'.threads && k'.threads[x].pc.SignalUp? && k'.threads[x].pc.w == w && k'.threads[x].pc.c == d;
        assert x != k.cur ==> k'.threads[x].pc == k.threads[x].pc;
      }
    }
  }

  lemma PopCond(k: Kernel, c: CondId, mode: Signaller, d: CondId)
    requires CanPop(k, c) && d in k.conds
    ensures CondOk(SignalPop(k, c, mode), d)
  {
    var k', w := SignalPop(k, c, mode), k.conds[c].waiters[0];
    assert CondOk(k, d) && CondOk(k, c);
    PopClaims(k, c, mode);
    PopFront(k.conds[c].waiters);
    if d == c {
      var cd := k.conds[c];
      assert cd.signalled + cd.waiters == (cd.signalled + [w]) + cd.waiters[1..];
    }
    forall u | u in k'.conds[d].waiters
      ensures u in k'.threads && Waiting(k'.threads[u].pc, d) && PrivateIs(k', u, 0, 0) && !Claimed(k', u, d)
    {
      assert u in k.conds[d].waiters;
      assert PrivateIs(k, u, 0, 0) && !Claimed(k, u, d);
    }
  }

  lemma PopThread(k: Kernel, c: CondId, mode: Signaller, u: Tid)
    requires CanPop(k, c) && u in k.threads && u != k.cur
    ensures CondThreadOk(SignalPop(k, c, mode), u)
  {
    var k', w := SignalPop(k, c, mode), k.conds[c].waiters[0];
    var pc := k.threads[u].pc;
    assert CondThreadOk(k, u) && CondOk(k, c);
    PopClaims(k, c, mode);
    PopFront(k.conds[c].waiters);
    if WorksOn(pc, c) { WorksAlone(k, k.cur, u, c); }
    forall d | Waiting(pc, d) ensures d in k'.conds && (u in k'.conds[d].waiters || Claimed(k', u, d) || PrivateIs(k', u, 1, 0)) {
      assert u in k.conds[d].waiters || Claimed(k, u, d) || PrivateIs(k, u, 1, 0);
    }
    if pc.SignalUp? {
      assert Waiting(k.threads[pc.w].pc, pc.c) && PrivateIs(k, pc.w, 0, 0);
    }
  }

  /** Popping a waiter claims it for the signaller. */
  lemma SignalPops(k: Kernel, c: CondId, mode: Signaller)
    requires CanPop(k, c)
    requires mode.Loop? ==> mode.start == mode.taken + k.conds[c].waiters[1..]
    ensures CondsOk(SignalPop(k, c, mode))
  {
    var k', t, w := SignalPop(k, c, mode), k.cur, k.conds[c].waiters[0];
    forall d | d in k'.conds ensures CondOk(k', d) { PopCond(k, c, mode, d); }
    forall u | u in k'.threads && u != t ensures CondThreadOk(k', u) { PopThread(k, c, mode, u); }
    assert CondOk(k, c) && w in k.conds[c].waiters;
    PopFront(k.conds[c].waiters);
    assert w != t && Waiting(k.threads[w].pc, c) && PrivateIs(k, w, 0, 0);
    assert PrivateIs(k', w, 0, 0);
    assert CondThreadOk(k', t);
  }

  /** The up of a signal: it turns a claim into the one up of that wait. */
  ghost predicate IsSignalUp(k: Kernel, k': Kernel, t: Tid, w: Tid) {
    && LocksOk(k) && CondsOk(k) && OnlyMoves(k, k', t)
    && k.threads[t].pc.SignalUp? && k.threads[t].pc.w == w
    && k'.conds == k.conds && k'.holders.Keys == k.holders.Keys
    && (match k.threads[t].pc.mode
        case Single => k'.threads[t].pc.User?
        case Loop(start, taken) => k'.threads[t].pc == BroadcastLoop(k.threads[t].pc.c, k.threads[t].pc.l, start, taken))
    && k'.semas.Keys == k.semas.Keys && Private(w) in k.semas
    && (forall s :: s in k.semas && s != Private(w) ==> k'.semas[s] == k.semas[s])
    && k'.semas[Private(w)].init == k.semas[Private(w)].init
    && k'.semas[Private(w)].ups == k.semas[Private(w)].ups + 1
    && k'.semas[Private(w)].downs == k.semas[Private(w)].downs
  }

  lemma UpClaims(k: Kernel, k': Kernel, t: Tid, w: Tid)
    requires IsSignalUp(k, k', t, w)
    ensures forall u, d :: Claimed(k', u, d) <==> Claimed(k, u, d) && !(u == w && d == k.threads[t].pc.c)
  {
    var c := k.threads[t].pc.c;
    assert OwnOk(k, t) && CondThreadOk(k, t);
    forall u, d ensures Claimed(k', u, d) <==> Claimed(k, u, d) && !(u == w && d == c) {
      if Claimed(k, u, d) && !(u == w && d == c) {
        var x :| x in k.threads && k.threads[x].pc.SignalUp? && k.threads[x].pc.w == u && k.threads[x].pc.c == d;
        assert k'.threads[x].pc == k.threads[x].pc;
      }
      if Claimed(k', u, d) {
        var x :| x in k'.threads && k'.threads[x].pc.SignalUp? && k'.threads[x].pc.w == u && k'.threads[x].pc.c == d;
        assert x != t && k'.threads[x].pc == k.threads[x].pc;
        if d == c { WorksAlone(k, t, x, c); }
      }
    }
  }

  lemma SignalUpThread(k: Kernel, k': Kernel, t: Tid, w: Tid, u: Tid)
    requires IsSignalUp(k, k', t, w) && u in k.threads && u != t
    ensures CondThreadOk(k', u)
  {
    var c := k.threads[t].pc.c;
    var pc := k.threads[u].pc;
    assert k'.threads[u].pc == pc;
    assert CondThreadOk(k, t) && CondThreadOk(k, u) && OwnOk(k, t);
    UpClaims(k, k', t, w);
    forall d | Waiting(pc, d) ensures d in k'.conds && (u in k'.conds[d].waiters || Claimed(k', u, d) || PrivateIs(k', u, 1, 0)) {
      assert u in k.conds[d].waiters || Claimed(k, u, d) || PrivateIs(k, u, 1, 0);
      assert PrivateIs(k, w, 0, 0);
    }
    if pc.SignalUp? {
      if pc.c == c { WorksAlone(k, t, u, c); }
      assert Waiting(k.threads[pc.w].pc, pc.c) && PrivateIs(k, pc.w, 0, 0);
      assert pc.w != w;
    }
  }

  lemma SignalUpCond(k: Kernel, k': Kernel, t: Tid, w: Tid, d: CondId)
    requires IsSignalUp(k, k', t, w) && d in k.conds
    ensures CondOk(k', d)
  {
    assert CondOk(k, d) && CondThreadOk(k, t);
    UpClaims(k, k', t, w);
    forall u | u in k.conds[d].waiters
      ensures u in k'.threads && Waiting(k'.threads[u].pc, d) && PrivateIs(k', u, 0, 0) && !Claimed(k', u, d)
    {
      assert PrivateIs(k, u, 0, 0) && !Claimed(k, u, d);
      assert u != w;
    }
  }

  lemma SignalUpSelf(k: Kernel, k': Kernel, t: Tid, w: Tid)
    requires IsSignalUp(k, k', t, w)
    ensures CondThreadOk(k', t)
  {
    assert CondThreadOk(k, t);
  }

  lemma SignalUps(k: Kernel, k': Kernel, t: Tid, w: Tid)
    requires IsSignalUp(k, k', t, w)
    ensures CondsOk(k')
  {
    forall d | d in k'.conds ensures CondOk(k', d) { SignalUpCond(k, k', t, w, d); }
    forall u | u in k'.threads ensures CondThreadOk(k', u) {
      if u != t { SignalUpThread(k, k', t, w, u); } else { SignalUpSelf(k, k', t, w); }
    }
  }

  /** The private down completes: it can only do so after its one up. */
  lemma AwaitEnds(k: Kernel, why: Why)
    requires SemasOk(k) && CondsOk(k) && k.cur in k.threads && why.Await?
    requires k.threads[k.cur].pc == DownTest(why) || k.threads[k.cur].pc == DownWoken(why)
    requires Private(k.cur) in k.semas && k.semas[Private(k.cur)].value > 0
    ensures PrivateIs(k, k.cur, 1, 0)
    ensures CondsOk(Take(k, why))
  {
    var t, k' := k.cur, Take(k, why);
    assert CondThreadOk(k, t) && CountOk(k.semas[Private(t)]);
    assert Waiting(k.threads[t].pc, why.c);
    forall d | d in k.conds ensures t !in k.conds[d].waiters && !Claimed(k, t, d) {
      AwaitUnclaimed(k, t, d);
    }
    ClaimsFrame(k, k', t);
    forall d | d in k'.conds ensures CondOk(k', d) { AwaitCond(k, why, d); }
    forall u | u in k'.threads && u != t ensures CondThreadOk(k', u) { AwaitThread(k, why, u); }
    assert forall d :: !Waiting(k'.threads[t].pc, d);
  }

  lemma AwaitUnclaimed(k: Kernel, t: Tid, d: CondId)
    requires CondsOk(k) && d in k.conds && !PrivateIs(k, t, 0, 0)
    ensures t !in k.conds[d].waiters && !Claimed(k, t, d)
  {
    assert CondOk(k, d);
    forall x | x in k.threads && k.threads[x].pc.SignalUp? ensures PrivateIs(k, k.threads[x].pc.w, 0, 0) {
      assert CondThreadOk(k, x);
    }
  }

  lemma AwaitCond(k: Kernel, why: Why, d: CondId)
    requires CondsOk(k) && k.cur in k.threads && why.Await? && d in k.conds
    requires Private(k.cur) in k.semas && k.semas[Private(k.cur)].value > 0
    requires k.cur !in k.conds[d].waiters && SameClaims(k, Take(k, why))
    ensures CondOk(Take(k, why), d)
  {
    var k' := Take(k, why);
    assert CondOk(k, d);
    forall u | u in k.conds[d].waiters
      ensures u in k'.threads && Waiting(k'.threads[u].pc, d) && PrivateIs(k', u, 0, 0) && !Claimed(k', u, d)
    {
      assert PrivateIs(k, u, 0, 0) && !Claimed(k, u, d);
    }
  }

  lemma AwaitThread(k: Kernel, why: Why, u: Tid)
    requires CondsOk(k) && k.cur in k.threads && why.Await? && u in k.threads && u != k.cur
    requires Private(k.cur) in k.semas && k.semas[Private(k.cur)].value > 0
    requires SameClaims(k, Take(k, why)) && forall d :: d in k.conds ==> !Claimed(k, k.cur, d)
    ensures CondThreadOk(Take(k, why), u)
  {
    var k', pc := Take(k, why), k.threads[u].pc;
    assert CondThreadOk(k, u);
    forall d | Waiting(pc, d) ensures d in k'.conds && (u in k'.conds[d].waiters || Claimed(k', u, d) || PrivateIs(k', u, 1, 0)) {
      assert u in k.conds[d].waiters || Claimed(k, u, d) || PrivateIs(k, u, 1, 0);
    }
    if pc.SignalUp? {
      assert Claimed(k, pc.w, pc.c);
      assert Waiting(k.threads[pc.w].pc, pc.c) && PrivateIs(k, pc.w, 0, 0);
    }
  }

  /** A new thread waits on nothing. */
  lemma CondsCreate(k: Kernel, k': Kernel, n: Tid)
    requires CondsOk(k) && n !in k.threads && n in k'.threads && k'.threads == k.threads[n := k'.threads[n]]
    requires k'.threads[n].pc.Spawned? && k'.conds == k.conds && k'.holders == k.holders
    requires k'.semas == k.semas[Private(n) := FreshSema(0)]
    ensures CondsOk(k')
  {
    forall w, d ensures Claimed(k', w, d) <==> Claimed(k, w, d) {
      if Claimed(k, w, d) {
        var x :| x in k.threads && k.threads[x].pc.SignalUp? && k.threads[x].pc.w == w && k.threads[x].pc.c == d;
        assert k'.threads[x].pc == k.threads[x].pc;
      }
      if Claimed(k', w, d) {
        var x :| x in k'.threads && k'.threads[x].pc.SignalUp? && k'.threads[x].pc.w == w && k'.threads[x].pc.c == d;
        assert x != n && k'.threads[x].pc == k.threads[x].pc;
      }
    }
    forall d | d in k'.conds ensures CondOk(k', d) {
      assert CondOk(k, d);
      forall u | u in k.conds[d].waiters
        ensures u in k'.threads && Waiting(k'.threads[u].pc, d) && PrivateIs(k', u, 0, 0) && !Claimed(k', u, d)
      {
        assert PrivateIs(k, u, 0, 0) && !Claimed(k, u, d);
      }
    }
    forall u | u in k'.threads && u != n ensures CondThreadOk(k', u) {
      assert CondThreadOk(k, u);
      CreateThread(k, k', n, u);
    }
    assert CondThreadOk(k', n);
  }

  lemma CreateThread(k: Kernel, k': Kernel, n: Tid, u: Tid)
    requires n !in k.threads && n in k'.threads && k'.threads == k.threads[n := k'.threads[n]] && k'.conds == k.conds
    requires k'.semas == k.semas[Private(n) := FreshSema(0)] && SameClaims(k, k') && u in k.threads && CondThreadOk(k, u)
    ensures CondThreadOk(k', u)
  {
    var pc := k.threads[u].pc;
    forall d | Waiting(pc, d) ensures d in k'.conds && (u in k'.conds[d].waiters || Claimed(k', u, d) || PrivateIs(k', u, 1, 0)) {
      assert u in k.conds[d].waiters || Claimed(k, u, d) || PrivateIs(k, u, 1, 0);
    }
    if pc.SignalUp? {
      assert Waiting(k.threads[pc.w].pc, pc.c) && PrivateIs(k, pc.w, 0, 0);
    }
  }
}
