/** The scheduling part of the invariant is kept by every step. */
module KernelSchedProof {
  import opened Options
  import opened Sequences
  import opened KernelState
  import opened KernelInvariant

  /** A switch is under way and no thread is running. */
  ghost predicate Switching(k: Kernel) {
    QueuesOk(k) && forall t :: t in k.threads ==> k.threads[t].status != Running
  }

  function InsertAt(q: seq<Tid>, i: nat, t: Tid): seq<Tid>
    requires i <= |q|
  {
    q[..i] + [t] + q[i..]
  }

  lemma InsertAtFacts(q: seq<Tid>, i: nat, t: Tid)
    requires i <= |q| && NoDup(q) && t !in q
    ensures NoDup(InsertAt(q, i, t))
    ensures forall u :: u in InsertAt(q, i, t) <==> u in q || u == t
  {
    var r := InsertAt(q, i, t);
    assert forall j :: 0 <= j < |r| ==> r[j] == if j < i then q[j] else if j == i then t else q[j - 1];
    assert r[i] == t;
    forall u | u in q ensures u in r {
      var j :| 0 <= j < |q| && q[j] == u;
      assert r[if j < i then j else j + 1] == u;
    }
  }

  /** Threads on the ready list are the same after an enqueue. */
  lemma ReadySame(k: Kernel, t: Tid, u: Tid)
    requires ReadyOk(k) && t in k.threads && t !in k.ready && u in k.ready
    ensures u in k.threads && Enqueue(k, t).threads[u] == k.threads[u] && k.threads[u].since < k.clock
  {
  }

  /** The thread put in comes behind all of at least its priority and before the others. */
  lemma {:induction false} EnqueuedBefore(k: Kernel, t: Tid, u: Tid, b: nat)
    requires ReadyOk(k) && Ordered(k) && t in k.threads && t !in k.ready && b < |k.ready| && u == k.ready[b]
    ensures var i := Position(k, k.ready, k.threads[t].priority);
      if b < i then Before(Enqueue(k, t), u, t) else Before(Enqueue(k, t), t, u)
  {
    var i := Position(k, k.ready, k.threads[t].priority);
    ReadySame(k, t, u);
    if i < b { assert Before(k, k.ready[i], k.ready[b]); }
  }

  lemma InsertAtIndex(q: seq<Tid>, i: nat, t: Tid, j: nat)
    requires i <= |q| && j <= |q|
    ensures InsertAt(q, i, t)[j] == if j < i then q[j] else if j == i then t else q[j - 1]
  {
  }

  lemma {:induction false} EnqueuedPair(k: Kernel, t: Tid, a: nat, b: nat)
    requires ReadyOk(k) && Ordered(k) && t in k.threads && t !in k.ready && a < b <= |k.ready|
    ensures var r := InsertAt(k.ready, Position(k, k.ready, k.threads[t].priority), t); Before(Enqueue(k, t), r[a], r[b])
  {
    var i, q := Position(k, k.ready, k.threads[t].priority), k.ready;
    InsertAtIndex(q, i, t, a);
    InsertAtIndex(q, i, t, b);
    if a == i {
      EnqueuedBefore(k, t, q[b - 1], b - 1);
    } else if b == i {
      EnqueuedBefore(k, t, q[a], a);
    } else {
      StillBefore(k, t, if a < i then a else a - 1, if b < i then b else b - 1);
    }
  }

  lemma StillBefore(k: Kernel, t: Tid, a: nat, b: nat)
    requires ReadyOk(k) && Ordered(k) && t in k.threads && t !in k.ready && a < b < |k.ready|
    ensures Before(Enqueue(k, t), k.ready[a], k.ready[b])
  {
    assert Before(k, k.ready[a], k.ready[b]);
    ReadySame(k, t, k.ready[a]);
    ReadySame(k, t, k.ready[b]);
  }

  lemma EnqueueOrdered(k: Kernel, t: Tid)
    requires ReadyOk(k) && Ordered(k) && t in k.threads && t !in k.ready
    ensures Ordered(Enqueue(k, t))
  {
    var r := InsertAt(k.ready, Position(k, k.ready, k.threads[t].priority), t);
    forall a, b | 0 <= a < b < |r| ensures Before(Enqueue(k, t), r[a], r[b]) {
      EnqueuedPair(k, t, a, b);
    }
  }

  lemma EnqueueKeeps(k: Kernel, t: Tid)
    requires !k.panic && k.cur in k.threads && IDLE in k.threads && (k.idle == None || k.idle == Some(IDLE))
    requires forall u :: u in k.threads && u != t ==> StatusOk(k, u)
    requires ReadyOk(k) && Ordered(k)
    requires forall u :: u in k.freed ==> u in k.threads && k.threads[u].status == Dying
    requires t in k.threads && t !in k.ready && k.idle != Some(t) && t !in k.freed
    requires StatusOk(k.(threads := k.threads[t := k.threads[t].(status := Ready)], ready := [t]), t)
    ensures QueuesOk(Enqueue(k, t))
  {
    var i := Position(k, k.ready, k.threads[t].priority);
    EnqueueOrdered(k, t);
    InsertAtFacts(k.ready, i, t);
    var k' := Enqueue(k, t);
    assert k'.ready == InsertAt(k.ready, i, t);
    assert ReadyOk(k');
    forall u | u in k'.threads ensures StatusOk(k', u) {
      if u != t { assert StatusOk(k, u); }
    }
  }

  lemma ScheduleFinds(k: Kernel)
    requires Switching(k)
    ensures NextToRun(k).Some? && NextToRun(k).value in k.threads
    ensures NextToRun(k).value !in k.freed && k.threads[NextToRun(k).value].status != Dying
  {
    if k.ready == [] {
      assert StatusOk(k, IDLE);
    } else {
      assert k.ready[0] in k.ready;
      assert StatusOk(k, k.ready[0]);
    }
  }

  lemma ScheduleQueue(k: Kernel)
    requires Switching(k)
    ensures ReadyOk(Schedule(k)) && Ordered(Schedule(k))
  {
    ScheduleFinds(k);
    var k' := Schedule(k);
    if k.ready != [] {
      assert forall j :: 0 <= j < |k'.ready| ==> k'.ready[j] == k.ready[j + 1];
      assert k.ready[0] !in k'.ready;
      assert forall t :: t in k'.ready ==> t in k.ready && k'.threads[t] == k.threads[t];
      forall a, b | 0 <= a < b < |k'.ready| ensures Before(k', k'.ready[a], k'.ready[b]) {
        assert Before(k, k.ready[a + 1], k.ready[b + 1]);
      }
    }
  }

  /** The current thread comes before everything on the ready list; the idle thread
      runs only when that list is empty. */
  ghost predicate PickedBest(k: Kernel) {
    if k.idle == Some(k.cur) then k.ready == []
    else forall t {:trigger t in k.ready} :: t in k.ready ==> Before(k, k.cur, t)
  }

  lemma ScheduleBest(k: Kernel)
    requires Switching(k)
    ensures PickedBest(Schedule(k))
  {
    ScheduleFinds(k);
    var k' := Schedule(k);
    if k.ready != [] {
      assert k.ready[0] in k.ready;
      forall t | t in k'.ready ensures Before(k', k'.cur, t) {
        var j :| 0 <= j < |k'.ready| && k'.ready[j] == t;
        assert k'.ready[j] == k.ready[j + 1];
        assert Before(k, k.ready[0], k.ready[j + 1]);
      }
    }
  }

  lemma ScheduleKeeps(k: Kernel)
    requires Switching(k)
    ensures SchedOk(Schedule(k))
  {
    ScheduleFinds(k);
    ScheduleQueue(k);
    var k' := Schedule(k);
    if k.ready != [] {
      assert k.ready[0] in k.ready;
    }
    forall t | t in k'.threads ensures StatusOk(k', t) {
      assert StatusOk(k, t);
      if t != k'.cur && t in k.ready {
        var j :| 0 <= j < |k.ready| && k.ready[j] == t;
        assert k'.ready[j - 1] == t;
      }
    }
  }

  /** Places a thread can be at whatever its status, as long as it is not asleep. */
  predicate Awake(pc: Pc) {
    !pc.DownAsleep? && !pc.Spawned? && !pc.Exited? && !OfIdle(pc)
  }

  predicate OfIdle(pc: Pc) {
    pc.IdleEntry? || pc.IdleUp? || pc.IdleLoop?
  }

  /** The ready list stays in order while its own threads are left alone. */
  lemma QueueFrame(k: Kernel, m: Kernel)
    requires ReadyOk(k) && Ordered(k) && m.ready == k.ready && m.clock == k.clock
    requires m.idle == k.idle || (m.idle.Some? && m.idle.value !in k.ready)
    requires forall t :: t in k.ready && t in k.threads ==> t in m.threads && m.threads[t] == k.threads[t]
    ensures ReadyOk(m) && Ordered(m)
  {
    forall a, b | 0 <= a < b < |k.ready| ensures Before(m, k.ready[a], k.ready[b]) {
      assert k.ready[a] in k.ready && k.ready[b] in k.ready;
      assert Before(k, k.ready[a], k.ready[b]);
    }
  }

  /** The current thread moves on, possibly with a new priority. */
  lemma LocalKeeps(k: Kernel, k': Kernel)
    requires SchedOk(k)
    requires k'.threads.Keys == k.threads.Keys
    requires forall t :: t in k.threads && t != k.cur ==> k'.threads[t] == k.threads[t]
    requires k'.threads[k.cur].status == Running
    requires Awake(k'.threads[k.cur].pc) && k.cur != IDLE && k'.idle == k.idle
    requires k'.cur == k.cur && k'.ready == k.ready && k'.clock == k.clock && k'.freed == k.freed && !k'.panic
    ensures SchedOk(k')
  {
    QueueFrame(k, k');
    forall t | t in k'.threads ensures StatusOk(k', t) {
      assert StatusOk(k, t);
    }
  }

  /** The idle thread's two moves before its loop. */
  lemma IdleKeeps(k: Kernel, idle: Option<Tid>, pc: Pc)
    requires SchedOk(k) && k.cur == IDLE && idle == Some(IDLE) && (pc.IdleUp? || pc.IdleLoop?)
    ensures SchedOk(SetPc(k.(idle := idle), k.cur, pc))
  {
    var k' := SetPc(k.(idle := idle), k.cur, pc);
    QueueFrame(k, k');
    forall t | t in k'.threads ensures StatusOk(k', t) {
      assert StatusOk(k, t);
    }
  }

  lemma StopKeeps(k: Kernel, status: Status, pc: Pc)
    requires SchedOk(k)
    requires if k.cur == IDLE then status == Blocked && pc.IdleLoop? && k.idle == Some(IDLE)
             else (status == Blocked && pc.DownAsleep?) || (status == Dying && pc.Exited?)
    ensures SchedOk(Stop(k, status, pc)) && PickedBest(Stop(k, status, pc))
  {
    var m := k.(threads := k.threads[k.cur := k.threads[k.cur].(status := status, pc := pc)]);
    QueueFrame(k, m);
    forall t | t in m.threads ensures StatusOk(m, t) {
      assert StatusOk(k, t);
    }
    ScheduleKeeps(m);
    ScheduleBest(m);
  }

  lemma YieldKeeps(k: Kernel, pc: Pc)
    requires SchedOk(k)
    requires pc == k.threads[k.cur].pc || (Awake(pc) && k.cur != IDLE)
    ensures SchedOk(Yield(k, pc)) && PickedBest(Yield(k, pc))
  {
    assert StatusOk(k, k.cur);
    var k1 := SetPc(k, k.cur, pc);
    if k.idle == Some(k.cur) {
      var m := k1.(threads := k1.threads[k.cur := k1.threads[k.cur].(status := Ready)]);
      QueueFrame(k, m);
      forall t | t in m.threads ensures StatusOk(m, t) {
        assert StatusOk(k, t);
      }
      ScheduleKeeps(m);
      ScheduleBest(m);
    } else {
      QueueFrame(k, k1);
      forall t | t in k.threads && t != k.cur ensures StatusOk(k1, t) {
        assert StatusOk(k, t);
      }
      EnqueueKeeps(k1, k.cur);
      ScheduleKeeps(Enqueue(k1, k.cur));
      ScheduleBest(Enqueue(k1, k.cur));
    }
  }

  /** thread_unblock of a sleeping or new thread, which moves on to pc. */
  lemma WakeKeeps(k: Kernel, t: Tid, pc: Pc)
    requires SchedOk(k)
    requires t in k.threads && k.threads[t].status == Blocked && t != IDLE && Awake(pc)
    ensures SchedOk(Unblock(SetPc(k, t, pc), t))
  {
    var k1 := SetPc(k, t, pc);
    QueueFrame(k, k1);
    forall u | u in k.threads && u != t ensures StatusOk(k1, u) {
      assert StatusOk(k, u);
    }
    assert StatusOk(k, t);
    EnqueueKeeps(k1, t);
  }
}
