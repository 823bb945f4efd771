/** The semaphore part of the invariant is kept by every section. */
module KernelSemaProof {
  import opened Options
  import opened Sequences
  import opened KernelState
  import opened KernelInvariant

  /** Same threads at the same places, same locks, semaphores and conditions; only
      the scheduler's own fields differ. */
  ghost predicate SameView(a: Kernel, b: Kernel) {
    && a.threads.Keys == b.threads.Keys
    && (forall t :: t in a.threads ==> b.threads[t].pc == a.threads[t].pc && b.threads[t].owns == a.threads[t].owns)
    && a.semas == b.semas && a.holders == b.holders && a.conds == b.conds
  }

  lemma SemasView(a: Kernel, b: Kernel)
    requires SameView(a, b) && SemasOk(a)
    ensures SemasOk(b)
  {
    forall s | s in b.semas ensures WaitersOk(b, s) { assert WaitersOk(a, s); }
    forall t | t in b.threads ensures WaitOk(b, t) { assert WaitOk(a, t); }
  }

  /** Only thread t moved and only semaphore s changed. */
  ghost predicate Touches(k: Kernel, k': Kernel, s: SemaId, t: Tid) {
    && k'.threads.Keys == k.threads.Keys && k'.semas.Keys == k.semas.Keys
    && (forall u :: u in k.threads && u != t ==> k'.threads[u].pc == k.threads[u].pc)
    && (forall r :: r in k.semas && r != s ==> k'.semas[r] == k.semas[r])
  }

  predicate Queued(pc: Pc) {
    pc.DownAsleep? || pc.DownWoken?
  }

  lemma FrameWaiters(k: Kernel, k': Kernel, s: SemaId, t: Tid, r: SemaId)
    requires Touches(k, k', s, t) && t in k.threads && r in k.semas && r != s && WaitersOk(k, r)
    requires Queued(k.threads[t].pc) ==> SemaOf(k.threads[t].pc.why, t) == s
    ensures WaitersOk(k', r)
  {
    assert k'.semas[r] == k.semas[r];
    forall u | u in k.semas[r].waiters || u in k.semas[r].popped ensures u in k.threads && k'.threads[u].pc == k.threads[u].pc {
      assert u != t;
    }
  }

  lemma FrameWait(k: Kernel, k': Kernel, s: SemaId, t: Tid, u: Tid)
    requires Touches(k, k', s, t) && u in k.threads && u != t && WaitOk(k, u) && s in k.semas
    requires forall u :: u in k.semas[s].waiters && u != t ==> u in k'.semas[s].waiters
    requires forall u :: u in k.semas[s].popped && u != t ==> u in k'.semas[s].popped
    ensures WaitOk(k', u)
  {
    assert k'.threads[u].pc == k.threads[u].pc;
    if Queued(k.threads[u].pc) && SemaOf(k.threads[u].pc.why, u) != s {
      assert k'.semas[SemaOf(k.threads[u].pc.why, u)] == k.semas[SemaOf(k.threads[u].pc.why, u)];
    }
  }

  lemma SemasFrame(k: Kernel, k': Kernel, s: SemaId, t: Tid)
    requires SemasOk(k) && Touches(k, k', s, t) && t in k.threads && s in k.semas
    requires Queued(k.threads[t].pc) ==> SemaOf(k.threads[t].pc.why, t) == s
    requires WaitersOk(k', s) && CountOk(k'.semas[s]) && WaitOk(k', t)
    requires forall u :: u in k.semas[s].waiters && u != t ==> u in k'.semas[s].waiters
    requires forall u :: u in k.semas[s].popped && u != t ==> u in k'.semas[s].popped
    ensures SemasOk(k')
  {
    forall r | r in k'.semas && r != s ensures WaitersOk(k', r) {
      FrameWaiters(k, k', s, t, r);
    }
    forall u | u in k'.threads && u != t ensures WaitOk(k', u) {
      FrameWait(k, k', s, t, u);
    }
    forall r | r in k'.semas && r != s ensures CountOk(k'.semas[r]) {
      assert CountOk(k.semas[r]);
    }
  }

  lemma NotQueued(k: Kernel, t: Tid, s: SemaId)
    requires SemasOk(k) && s in k.semas && t in k.threads && !Queued(k.threads[t].pc)
    ensures t !in k.semas[s].waiters && t !in k.semas[s].popped
  {
    assert WaitersOk(k, s);
  }

  /** The current thread moves between places where it is on no queue. */
  lemma MoveSemas(k: Kernel, t: Tid, pc: Pc)
    requires SemasOk(k) && t in k.threads
    requires !Queued(k.threads[t].pc) && !Queued(pc)
    requires pc.DownTest? ==> SemaOf(pc.why, t) in k.semas
    ensures SemasOk(SetPc(k, t, pc))
  {
    var k' := SetPc(k, t, pc);
    assert WaitOk(k, t);
    NotQueued(k, t, IDLE_STARTED);
    assert WaitersOk(k, IDLE_STARTED);
    SemasFrame(k, k', IDLE_STARTED, t);
  }

  lemma TakeCount(m: Sema, t: Tid)
    requires CountOk(m) && m.value > 0
    ensures CountOk(m.(value := m.value - 1, downs := m.downs + 1, popped := m.popped - {t}))
  {
    if t in m.popped { assert m.popped == (m.popped - {t}) + {t}; } else { assert m.popped == m.popped - {t}; }
  }

  lemma TakeLocal(k: Kernel, why: Why)
    requires k.cur in k.threads && SemaOf(why, k.cur) in k.semas
    requires WaitersOk(k, SemaOf(why, k.cur)) && WaitOk(k, k.cur)
    requires k.semas[SemaOf(why, k.cur)].value > 0
    requires Queued(k.threads[k.cur].pc) ==> k.threads[k.cur].pc == DownWoken(why)
    requires why.Await? ==> OfLock(why.l) in k.semas
    ensures WaitersOk(Take(k, why), SemaOf(why, k.cur)) && WaitOk(Take(k, why), k.cur)
  {
    var m, m' := k.semas[SemaOf(why, k.cur)], Take(k, why).semas[SemaOf(why, k.cur)];
    assert k.cur !in m.waiters;
    assert m'.waiters == m.waiters && m'.popped == m.popped - {k.cur};
  }

  /** sema_down when it finds the value positive. */
  lemma TakeSemas(k: Kernel, why: Why)
    requires SemasOk(k) && k.cur in k.threads && SemaOf(why, k.cur) in k.semas
    requires k.semas[SemaOf(why, k.cur)].value > 0
    requires Queued(k.threads[k.cur].pc) ==> k.threads[k.cur].pc == DownWoken(why)
    requires why.Await? ==> OfLock(why.l) in k.semas
    ensures SemasOk(Take(k, why))
  {
    var k', s := Take(k, why), SemaOf(why, k.cur);
    TakeLocal(k, why) by { assert WaitersOk(k, s) && WaitOk(k, k.cur); }
    assert CountOk(k'.semas[s]) by {
      assert CountOk(k.semas[s]);
      TakeCount(k.semas[s], k.cur);
    }
    assert k'.semas[s].waiters == k.semas[s].waiters && k'.semas[s].popped == k.semas[s].popped - {k.cur};
    SemasFrame(k, k', s, k.cur);
  }

  lemma AppendNoDup(q: seq<Tid>, t: Tid)
    requires NoDup(q) && t !in q
    ensures NoDup(q + [t])
    ensures forall u :: u in q + [t] <==> u in q || u == t
  {
    assert (q + [t])[|q|] == t;
  }

  /** The view sema_down has when it goes to sleep, before the switch. */
  function SleepView(k: Kernel, why: Why): Kernel
    requires k.cur in k.threads && SemaOf(why, k.cur) in k.semas
  {
    var s := SemaOf(why, k.cur);
    var m := k.semas[s];
    SetPc(k.(semas := k.semas[s := m.(waiters := m.waiters + [k.cur], popped := m.popped - {k.cur})]),
          k.cur, DownAsleep(why))
  }

  lemma SleepLocal(k: Kernel, why: Why)
    requires k.cur in k.threads && SemaOf(why, k.cur) in k.semas
    requires WaitersOk(k, SemaOf(why, k.cur)) && WaitOk(k, k.cur)
    requires Queued(k.threads[k.cur].pc) ==> k.threads[k.cur].pc == DownWoken(why)
    ensures WaitersOk(SleepView(k, why), SemaOf(why, k.cur)) && WaitOk(SleepView(k, why), k.cur)
  {
    var m := k.semas[SemaOf(why, k.cur)];
    assert k.cur !in m.waiters;
    AppendNoDup(m.waiters, k.cur);
  }

  lemma SleepSemas(k: Kernel, why: Why)
    requires SemasOk(k) && k.cur in k.threads && SemaOf(why, k.cur) in k.semas
    requires k.semas[SemaOf(why, k.cur)].value == 0
    requires Queued(k.threads[k.cur].pc) ==> k.threads[k.cur].pc == DownWoken(why)
    ensures SemasOk(SleepView(k, why))
  {
    SleepLocal(k, why);
    assert CountOk(k.semas[SemaOf(why, k.cur)]);
    AppendNoDup(k.semas[SemaOf(why, k.cur)].waiters, k.cur) by {
      assert WaitersOk(k, SemaOf(why, k.cur));
    }
    SemasFrame(k, SleepView(k, why), SemaOf(why, k.cur), k.cur);
  }

  /** The view after sema_up, before the scheduler queues the woken thread. */
  function UpView(k: Kernel, s: SemaId): Kernel
    requires s in k.semas && (k.semas[s].waiters != [] ==> k.semas[s].waiters[0] in k.threads && k.threads[k.semas[s].waiters[0]].pc.DownAsleep?)
  {
    var m := k.semas[s];
    if m.waiters == [] then k.(semas := k.semas[s := m.(value := m.value + 1, ups := m.ups + 1)])
    else
      var t := m.waiters[0];
      SetPc(k.(semas := k.semas[s := m.(value := m.value + 1, ups := m.ups + 1,
                                        waiters := m.waiters[1..], popped := m.popped + {t})]),
            t, DownWoken(k.threads[t].pc.why))
  }

  lemma FirstWaiter(k: Kernel, s: SemaId)
    requires SemasOk(k) && s in k.semas && k.semas[s].waiters != []
    ensures k.semas[s].waiters[0] in k.threads && k.threads[k.semas[s].waiters[0]].pc.DownAsleep?
    ensures SemaOf(k.threads[k.semas[s].waiters[0]].pc.why, k.semas[s].waiters[0]) == s
  {
    assert WaitersOk(k, s) && k.semas[s].waiters[0] in k.semas[s].waiters;
  }

  lemma PostCount(m: Sema, t: Tid)
    requires CountOk(m) && t !in m.popped && m.waiters != []
    ensures CountOk(m.(value := m.value + 1, ups := m.ups + 1, waiters := m.waiters[1..], popped := m.popped + {t}))
  {
    assert |m.popped + {t}| == |m.popped| + 1;
  }

  lemma PopFront(q: seq<Tid>)
    requires q != [] && NoDup(q)
    ensures NoDup(q[1..]) && q[0] !in q[1..]
    ensures forall u :: u in q <==> u == q[0] || u in q[1..]
  {
    assert forall j :: 0 <= j < |q[1..]| ==> q[1..][j] == q[j + 1];
    forall u | u in q ensures u == q[0] || u in q[1..] {
      var j :| 0 <= j < |q| && q[j] == u;
      if j > 0 { assert q[1..][j - 1] == u; }
    }
  }

  lemma UpLocal(k: Kernel, s: SemaId, t: Tid)
    requires s in k.semas && k.semas[s].waiters != [] && k.semas[s].waiters[0] == t && WaitersOk(k, s)
    requires t in k.threads && k.threads[t].pc.DownAsleep? && SemaOf(k.threads[t].pc.why, t) == s && WaitOk(k, t)
    ensures WaitersOk(UpView(k, s), s) && WaitOk(UpView(k, s), t)
  {
    PopFront(k.semas[s].waiters);
  }

  lemma UpSemas(k: Kernel, s: SemaId)
    requires SemasOk(k) && s in k.semas
    ensures k.semas[s].waiters != [] ==> k.semas[s].waiters[0] in k.threads && k.threads[k.semas[s].waiters[0]].pc.DownAsleep?
    ensures SemasOk(UpView(k, s))
  {
    if k.semas[s].waiters == [] {
      PostSemas(k, s);
    } else {
      FirstWaiter(k, s);
      var t := k.semas[s].waiters[0];
      UpLocal(k, s, t);
      PostCount(k.semas[s], t) by { assert WaitersOk(k, s); }
      PopFront(k.semas[s].waiters) by { assert WaitersOk(k, s); }
      SemasFrame(k, UpView(k, s), s, t);
    }
  }

  lemma PostSemas(k: Kernel, s: SemaId)
    requires SemasOk(k) && s in k.semas && k.semas[s].waiters == []
    ensures SemasOk(UpView(k, s))
  {
    var k' := UpView(k, s);
    assert k.threads == k'.threads;
    forall r | r in k'.semas ensures WaitersOk(k', r) && CountOk(k'.semas[r]) {
      assert WaitersOk(k, r) && CountOk(k.semas[r]);
    }
    forall u | u in k'.threads ensures WaitOk(k', u) { assert WaitOk(k, u); }
  }

  lemma HandlerTrySemas(k: Kernel, s: SemaId)
    requires SemasOk(k) && s in k.semas
    ensures SemasOk(HandlerTryDown(k, s))
  {
    var k' := HandlerTryDown(k, s);
    assert k'.threads == k.threads;
    forall r | r in k'.semas ensures WaitersOk(k', r) && CountOk(k'.semas[r]) {
      assert WaitersOk(k, r) && CountOk(k.semas[r]);
    }
    forall u | u in k'.threads ensures WaitOk(k', u) { assert WaitOk(k, u); }
  }

  /** cond_wait reinitialises its private semaphore, which nobody is using. */
  lemma WaitEnqueueSemas(k: Kernel, c: CondId)
    requires SemasOk(k) && k.cur in k.threads && c in k.conds && !Queued(k.threads[k.cur].pc)
    ensures SemasOk(WaitEnqueue(k, c))
  {
    var s := Private(k.cur);
    var k' := WaitEnqueue(k, c);
    assert WaitOk(k, k.cur) && WaitersOk(k, s);
    assert k.semas[s].waiters == [] by {
      if k.semas[s].waiters != [] { FirstWaiter(k, s); }
    }
    forall u | u in k.semas[s].popped ensures false { }
    assert k.semas[s].popped == {};
    SemasFrame(k, k', s, k.cur);
  }

  lemma CreateSemas(k: Kernel, t: Tid, th: Thread)
    requires SemasOk(k) && t !in k.threads && th.pc.Spawned?
    ensures SemasOk(k.(threads := k.threads[t := th], semas := k.semas[Private(t) := FreshSema(0)]))
  {
    var k' := k.(threads := k.threads[t := th], semas := k.semas[Private(t) := FreshSema(0)]);
    forall r | r in k'.semas ensures WaitersOk(k', r) { if r != Private(t) { assert WaitersOk(k, r); } }
    forall u | u in k'.threads ensures WaitOk(k', u) { if u != t { assert WaitOk(k, u); } }
  }
}
