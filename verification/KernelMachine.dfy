/**
 The kernel itself: one object whose fields are the kernel's variables, and one method for
 each section of `thread.c` and `synch.c`.  Its queues are linked lists in one memory, and
 the sections rewrite the links as the original does.  The object carries along the state
 of the step machine, with its history, and every method is proved to keep step with it:
 the links of the ready list, of every semaphore's wait list and of every condition
 variable's are those of the machine's sequences, and no section disturbs a list it does
 not mean to change.
 */
module KernelMachine {
  import opened Options
  import opened Sequences
  import opened KernelState
  import opened KernelInvariant
  import opened KernelLists
  import opened KernelSafety
  import KernelRuns
  import ListOrder
  import ListLinks
  import ListOps

  // ---------------------------------------------------------------------
  // What the kernel has of a state of the step machine
  // ---------------------------------------------------------------------

  /** struct thread, and where the thread is. */
  datatype Tcb = Tcb(status: Status, priority: int, pc: Pc)

  /** Where a thread is, without the history that broadcasts carry. */
  function Erase(pc: Pc): Pc {
    match pc
    case BroadcastLoop(c, l, _, _) => BroadcastLoop(c, l, [], [])
    case SignalUp(c, l, w, Loop(_, _)) => SignalUp(c, l, w, Loop([], []))
    case _ => pc
  }

  function Record(th: Thread): Tcb {
    Tcb(th.status, th.priority, Erase(th.pc))
  }

  function Records(threads: map<Tid, Thread>): map<Tid, Tcb> {
    map t | t in threads :: Record(threads[t])
  }

  function Values(semas: map<SemaId, Sema>): map<SemaId, nat> {
    map s | s in semas :: semas[s].value
  }

  function Locks(conds: map<CondId, Cond>): map<CondId, LockId> {
    map c | c in conds :: conds[c].lock
  }

  // ---------------------------------------------------------------------
  // What is in the queues
  // ---------------------------------------------------------------------

  predicate HasQueue(k: Kernel, q: Queue) {
    match q
    case ReadyQ => true
    case WaitQ(s) => s in k.semas
    case CondQ(c) => c in k.conds
  }

  function Content(k: Kernel, q: Queue): seq<Tid>
    requires HasQueue(k, q)
  {
    match q
    case ReadyQ => k.ready
    case WaitQ(s) => k.semas[s].waiters
    case CondQ(c) => k.conds[c].waiters
  }

  function Queues(semas: set<SemaId>, conds: set<CondId>): set<Queue> {
    {ReadyQ} + (set s | s in semas :: WaitQ(s)) + (set c | c in conds :: CondQ(c))
  }

  function QueuesOf(k: Kernel): (r: set<Queue>)
    ensures forall q :: q in r <==> HasQueue(k, q)
  {
    Queues(k.semas.Keys, k.conds.Keys)
  }

  function ViewOf(k: Kernel): (v: View)
    ensures forall q {:trigger q in v} :: q in v <==> HasQueue(k, q)
    ensures forall q {:trigger v[q]} :: q in v ==> v[q] == Content(k, q)
  {
    map q | q in QueuesOf(k) :: Content(k, q)
  }

  /** Nothing but q differs. */
  lemma ViewSet(k: Kernel, k': Kernel, q: Queue, ts: seq<Tid>)
    requires HasQueue(k', q) && Content(k', q) == ts
    requires forall r {:trigger HasQueue(k', r)} :: r != q ==> HasQueue(k', r) == HasQueue(k, r)
    requires forall r {:trigger Content(k', r)} :: r != q && HasQueue(k, r) && HasQueue(k', r) ==> Content(k', r) == Content(k, r)
    ensures ViewOf(k') == ViewOf(k)[q := ts]
  {
    var v, v' := ViewOf(k)[q := ts], ViewOf(k');
    forall r | r in v' ensures r in v && v[r] == v'[r] { assert HasQueue(k', r); }
    forall r | r in v ensures r in v' { assert HasQueue(k', r) || r == q; }
  }

  /** In a state any run can reach, a thread's list element is in one list at most, and so
      is its element for condition variables. */
  lemma QueuesExclusive(k: Kernel, q: Queue, r: Queue)
    requires Inv(k) && HasQueue(k, q) && HasQueue(k, r)
    ensures Exclusive(ViewOf(k), q, r)
  {
    if q != r && q.CondQ? == r.CondQ? {
      forall t | t in Content(k, q) ensures t !in Content(k, r) {
        InQueue(k, q, t);
        if t in Content(k, r) { InQueue(k, r, t); }
      }
    }
  }

  /** Where a thread is says which queue it is in. */
  lemma InQueue(k: Kernel, q: Queue, t: Tid)
    requires Inv(k) && HasQueue(k, q) && t in Content(k, q)
    ensures t in k.threads
    ensures match q
            case ReadyQ => k.threads[t].status == Ready
            case WaitQ(s) => k.threads[t].status == Blocked && k.threads[t].pc.DownAsleep? && SemaOf(k.threads[t].pc.why, t) == s
            case CondQ(c) => Waiting(k.threads[t].pc, c)
  {
    match q {
      case ReadyQ =>
      case WaitQ(s) =>
        assert WaitersOk(k, s);
        assert StatusOk(k, t);
      case CondQ(c) => assert CondOk(k, c);
    }
  }

  /** A thread that runs, or was just created, is in no queue that a thread waits in. */
  lemma Unqueued(k: Kernel, t: Tid)
    requires Inv(k) && t in k.threads && (t == k.cur || k.threads[t].pc.Spawned?)
    ensures Free(ViewOf(k), ReadyQ, t)
  {
    assert StatusOk(k, t);
    forall q | q in ViewOf(k) && !q.CondQ? ensures t !in ViewOf(k)[q] {
      if t in Content(k, q) { InQueue(k, q, t); }
    }
  }

  /** Nobody waits in the private semaphore of a running thread. */
  lemma OwnQueueEmpty(k: Kernel)
    requires Inv(k)
    ensures Private(k.cur) in k.semas && k.semas[Private(k.cur)].waiters == []
  {
    assert WaitOk(k, k.cur) && StatusOk(k, k.cur);
    assert WaitersOk(k, Private(k.cur));
    FirstIsIn(k.semas[Private(k.cur)].waiters);
  }

  lemma FirstIsIn(q: seq<Tid>)
    ensures q == [] || q[0] in q
  {
  }

  /** A thread that does not exist yet is in no queue. */
  lemma NewUnqueued(k: Kernel, t: Tid)
    requires Inv(k) && t !in k.threads
    ensures Private(t) !in k.semas && forall q {:trigger HasQueue(k, q)} :: HasQueue(k, q) ==> t !in Content(k, q)
  {
    forall q | HasQueue(k, q) ensures t !in Content(k, q) {
      if t in Content(k, q) { InQueue(k, q, t); }
    }
  }

  /** A thread outside all primitives waits for no condition. */
  lemma NotWaiting(k: Kernel, t: Tid, c: CondId)
    requires Inv(k) && t in k.threads && k.threads[t].pc.User?
    ensures Free(ViewOf(k), CondQ(c), t)
  {
    forall q | q in ViewOf(k) && q.CondQ? ensures t !in ViewOf(k)[q] {
      if t in Content(k, q) { InQueue(k, q, t); }
    }
  }

  /** What the next section of the current thread relies on. */
  ghost predicate CanGoOn(k: Kernel) {
    && k.cur in k.threads && CanAdvance(k, k.threads[k.cur].pc) && !AdvanceStep(k).panic && Free(ViewOf(k), ReadyQ, k.cur)
    && match k.threads[k.cur].pc
       case SetHolder(why) => why.Acquire? || why.Reacquire?
       case CreateUnblock(child) => child in k.threads && Free(ViewOf(k), ReadyQ, child)
       case _ => true
  }

  lemma GoesOn(k: Kernel)
    requires Inv(k) && CanAdvance(k, k.threads[k.cur].pc)
    ensures CanGoOn(k)
  {
    KernelRuns.AdvanceKeeps(k);
    Unqueued(k, k.cur);
    assert OwnOk(k, k.cur);
    if k.threads[k.cur].pc.CreateUnblock? { Unqueued(k, k.threads[k.cur].pc.child); }
  }

  /** What a step relies on. */
  ghost predicate CanDo(k: Kernel, step: Step) {
    && Enabled(k, step) && !Next(k, step).panic
    && match step
       case Advance => CanGoOn(k)
       case Preempt(_) => Free(ViewOf(k), ReadyQ, k.cur)
       case CallWait(c) => Free(ViewOf(k), CondQ(c), k.cur) && Private(k.cur) in k.semas && k.semas[Private(k.cur)].waiters == []
       case CallCreate(t, _) => Private(t) !in k.semas && forall q {:trigger HasQueue(k, q)} :: HasQueue(k, q) ==> t !in Content(k, q)
       case _ => true
  }

  /** Any state that a run can reach provides it. */
  lemma CanBeDone(k: Kernel, step: Step)
    requires Inv(k) && Enabled(k, step)
    ensures CanDo(k, step) && Inv(Next(k, step))
  {
    KernelRuns.StepKeeps(k, step);
    match step {
      case Advance => GoesOn(k);
      case Preempt(_) => Unqueued(k, k.cur);
      case CallWait(c) =>
        NotWaiting(k, k.cur, c);
        OwnQueueEmpty(k);
      case CallCreate(t, _) => NewUnqueued(k, t);
      case _ =>
    }
  }

  // ---------------------------------------------------------------------
  // prioritycmp
  // ---------------------------------------------------------------------

  function PriorityOf(tcbs: map<Tid, Tcb>, t: Tid): int {
    if t in tcbs then tcbs[t].priority else 0
  }

  /** prioritycmp on list elements. */
  function PriorityCmp(y: Layout, tcbs: map<Tid, Tcb>): ListOrder.Less {
    (a: ListOrder.Addr, b: ListOrder.Addr) =>
      y.what(a).ThreadElem? && y.what(b).ThreadElem? && PriorityOf(tcbs, y.what(a).t) > PriorityOf(tcbs, y.what(b).t)
  }

  /** list_insert_ordered with prioritycmp stops where the step machine puts the thread. */
  lemma {:induction false} PlaceIsPosition(y: Layout, k: Kernel, q: seq<Tid>, t: Tid)
    requires Sound(y) && t in k.threads
    ensures ListOrder.Place(Addrs(y, ReadyQ, q), y.elem(t), PriorityCmp(y, Records(k.threads)))
            == Position(k, q, k.threads[t].priority)
  {
    if q != [] {
      var a := Addrs(y, ReadyQ, q);
      assert a[1..] == Addrs(y, ReadyQ, q[1..]);
      assert a[0] == y.elem(q[0]);
      PlaceIsPosition(y, k, q[1..], t);
    }
  }

  // ---------------------------------------------------------------------
  // Keeping step
  // ---------------------------------------------------------------------

  /** In every state of every run the queues' lists share no memory, wherever the elements
      and headers are. */
  lemma ListsApart(states: seq<Kernel>, steps: seq<Step>, i: nat, y: Layout, q: Queue, r: Queue)
    requires IsRun(states, steps) && i < |states| && Sound(y) && q != r && HasQueue(states[i], q) && HasQueue(states[i], r)
    ensures Disjoint(NodesIn(y, q, Content(states[i], q)), NodesIn(y, r, Content(states[i], r)))
  {
    KernelRuns.RunOk(states, steps, i);
    QueuesExclusive(states[i], q, r);
    NodesApart(y, q, Content(states[i], q), r, Content(states[i], r));
  }

  lemma SameQueues(k: Kernel, k': Kernel)
    requires k'.ready == k.ready && k'.conds == k.conds && k'.semas.Keys == k.semas.Keys
    requires forall s {:trigger k'.semas[s]} :: s in k'.semas ==> k'.semas[s].waiters == k.semas[s].waiters
    ensures ViewOf(k') == ViewOf(k)
  {
    ViewSet(k, k', ReadyQ, k.ready);
    assert ViewOf(k)[ReadyQ := k.ready] == ViewOf(k);
  }

  lemma RecordSet(threads: map<Tid, Thread>, t: Tid, th: Thread)
    ensures Records(threads[t := th]) == Records(threads)[t := Record(th)]
  {
  }

  lemma ValueSet(semas: map<SemaId, Sema>, s: SemaId, m: Sema)
    ensures Values(semas[s := m]) == Values(semas)[s := m.value]
  {
  }

  lemma LockSet(conds: map<CondId, Cond>, c: CondId, cd: Cond)
    requires c in conds && cd.lock == conds[c].lock
    ensures Locks(conds[c := cd]) == Locks(conds)
  {
  }

  lemma {:induction false} EnqueueIs(k: Kernel, t: Tid, i: nat)
    requires t in k.threads && i == Position(k, k.ready, k.threads[t].priority)
    ensures var k' := Enqueue(k, t);
      && ViewOf(k') == ViewOf(k)[ReadyQ := ViewOf(k)[ReadyQ][..i] + [t] + ViewOf(k)[ReadyQ][i..]]
      && Records(k'.threads) == Records(k.threads)[t := Record(k.threads[t]).(status := Ready)]
      && k'.threads.Keys == k.threads.Keys
  {
    var k' := Enqueue(k, t);
    RecordSet(k.threads, t, k'.threads[t]);
    ViewSet(k, k', ReadyQ, k'.ready);
  }

  /** sema_up wakes nobody but a thread that sleeps. */
  lemma WakesSleeper(k: Kernel, t: Tid)
    requires !Wake(k, t).panic
    ensures t in k.threads && k.threads[t].pc.DownAsleep? && k.threads[t].status == Blocked
  {
  }

  lemma InitView(k: Kernel)
    requires Init(k)
    ensures EmptyQueues(QueuesOf(k))[ReadyQ := [IDLE]] == ViewOf(k)
  {
    var v := EmptyQueues(QueuesOf(k))[ReadyQ := [IDLE]];
    forall q | HasQueue(k, q) ensures v[q] == Content(k, q) {
      match q {
        case ReadyQ =>
        case WaitQ(s) => assert k.semas[s] == FreshSema(k.semas[s].init);
        case CondQ(c) =>
      }
    }
    assert v == ViewOf(k) by {
      forall q | q in v ensures q in ViewOf(k) { assert HasQueue(k, q); }
    }
  }

  lemma SameKeys(k: Kernel)
    ensures Values(k.semas).Keys == k.semas.Keys && Locks(k.conds).Keys == k.conds.Keys
  {
  }

  lemma InitRecords(k: Kernel)
    requires Init(k)
    ensures Records(k.threads) == map[INITIAL := Tcb(Running, PRI_DEFAULT, User), IDLE := Tcb(Ready, PRI_MIN, IdleEntry)]
    ensures k.threads.Keys == {INITIAL, IDLE}
  {
  }

  /** The lists that thread_start leaves: all initialised, and the idle thread ready. */
  method InitLists(h: ListOps.ListHeap, y: Layout, qs: set<Queue>)
    requires Sound(y) && ReadyQ in qs
    modifies h
    ensures Linked(y, h.M(), EmptyQueues(qs)[ReadyQ := [IDLE]]) && HasElems(y, h.M(), INITIAL) && HasElems(y, h.M(), IDLE)
  {
    InitQueues(h, y, qs);
    ghost var v := EmptyQueues(qs);
    ClearElems(h, y, INITIAL, v);
    ghost var m := h.M();
    ClearElems(h, y, IDLE, v);
    ghost var m' := h.M();
    ElemsStay(y, m, m', {INITIAL});
    assert HasElems(y, m', INITIAL);
    PushBack(h, y, ReadyQ, IDLE, v);
    ElemsStay(y, m', h.M(), {INITIAL, IDLE});
    assert v[ReadyQ] + [IDLE] == [IDLE];
    assert HasElems(y, h.M(), INITIAL) && HasElems(y, h.M(), IDLE);
  }

  lemma ElemsStay(y: Layout, m: ListLinks.Links, m': ListLinks.Links, ts: set<Tid>)
    requires ListLinks.Grows(m, m') && forall t {:trigger HasElems(y, m, t)} :: t in ts ==> HasElems(y, m, t)
    ensures forall t {:trigger HasElems(y, m', t)} :: t in ts ==> HasElems(y, m', t)
  {
    forall t | t in ts ensures HasElems(y, m', t) {
      assert HasElems(y, m, t);
      assert y.elem(t) in m.prev.Keys && y.elem(t) in m.next.Keys && y.waiter(t) in m.prev.Keys && y.waiter(t) in m.next.Keys;
    }
  }

  // ---------------------------------------------------------------------
  // The kernel
  // ---------------------------------------------------------------------

  class Machine {
    const y: Layout
    const lists: ListOps.ListHeap
    var tcbs: map<Tid, Tcb>
    var cur: Tid
    var idle: Option<Tid>
    var values: map<SemaId, nat>
    var holders: map<LockId, Option<Tid>>
    var locks: map<CondId, LockId>
    var freed: set<Tid>
    ghost var k: Kernel

    /** The state thread_start leaves: all lists are initialised, and the idle thread is on
        the ready list. */
    constructor (y: Layout, h: ListOps.ListHeap, values: map<SemaId, nat>, holders: map<LockId, Option<Tid>>,
                 locks: map<CondId, LockId>, ghost k: Kernel)
      requires Sound(y) && Init(k) && values == Values(k.semas) && holders == k.holders && locks == Locks(k.conds)
      modifies h
      ensures Refines() && this.k == k && lists == h && this.y == y
    {
      this.y, lists, cur, idle, freed := y, h, INITIAL, None, {};
      this.values, this.holders, this.locks := values, holders, locks;
      tcbs := map[INITIAL := Tcb(Running, PRI_DEFAULT, User), IDLE := Tcb(Ready, PRI_MIN, IdleEntry)];
      this.k := k;
      new;
      SameKeys(k);
      InitLists(h, y, Queues(values.Keys, locks.Keys));
      InitView(k);
      InitRecords(k);
    }

    /** The fields other than the lists are those of the step machine. */
    ghost predicate Agrees(k: Kernel)
      reads this
    {
      && tcbs == Records(k.threads) && cur == k.cur && idle == k.idle && values == Values(k.semas)
      && holders == k.holders && locks == Locks(k.conds) && freed == k.freed && !k.panic
    }

    /** The links are those of its sequences. */
    ghost predicate Chained(v: View, ts: set<Tid>)
      reads this, lists
    {
      Linked(y, lists.M(), v) && forall t {:trigger HasElems(y, lists.M(), t)} :: t in ts ==> HasElems(y, lists.M(), t)
    }

    ghost predicate Refines()
      reads this, lists
    {
      Agrees(k) && Chained(ViewOf(k), k.threads.Keys)
    }

    /** Thread t is now th, of which the kernel has tcb. */
    method SetThread(t: Tid, tcb: Tcb, ghost th: Thread)
      requires Refines() && t in k.threads && tcb == Record(th)
      modifies this`tcbs, this`k
      ensures Refines() && k == old(k).(threads := old(k).threads[t := th])
    {
      ghost var k' := k.(threads := k.threads[t := th]);
      RecordSet(k.threads, t, th);
      SameQueues(k, k');
      assert k'.threads.Keys == k.threads.Keys;
      tcbs := tcbs[t := tcb];
      k := k';
    }

    /** The current thread is now at pc. */
    method Move(pc: Pc, ghost at: Pc)
      requires Refines() && cur in k.threads && pc == Erase(at)
      modifies this`tcbs, this`k
      ensures Refines() && k == SetPc(old(k), cur, at)
    {
      SetThread(cur, tcbs[cur].(pc := pc), k.threads[cur].(pc := at));
    }

    /** list_insert_ordered on the ready list, with prioritycmp. */
    method EnqueueReady(t: Tid)
      requires Refines() && t in k.threads && Free(ViewOf(k), ReadyQ, t)
      modifies this`tcbs, this`k, lists
      ensures Refines() && k == Enqueue(old(k), t)
    {
      ghost var m, i := lists.M(), Position(k, k.ready, k.threads[t].priority);
      PlaceIsPosition(y, k, k.ready, t);
      assert HasElems(y, m, t);
      InsertOrdered(lists, y, ReadyQ, t, PriorityCmp(y, tcbs), ViewOf(k), i);
      ElemsStay(y, m, lists.M(), k.threads.Keys);
      EnqueueIs(k, t, i);
      tcbs := tcbs[t := tcbs[t].(status := Ready)];
      k := Enqueue(k, t);
    }

    /** next_thread_to_run. */
    method NextThreadToRun() returns (next: Option<Tid>)
      requires Refines()
      modifies this`k, lists
      ensures next == NextToRun(old(k)) && k == old(k).(ready := if old(k).ready == [] then [] else old(k).ready[1..])
      ensures Refines()
    {
      ghost var k', m := k.(ready := if k.ready == [] then [] else k.ready[1..]), lists.M();
      var empty := IsEmpty(lists, y, ReadyQ, ViewOf(k));
      if empty {
        next := idle;
        assert k' == k;
      } else {
        var t := PopFront(lists, y, ReadyQ, ViewOf(k));
        next := Some(t);
        ElemsStay(y, m, lists.M(), k.threads.Keys);
        ViewSet(k, k', ReadyQ, k'.ready);
      }
      k := k';
    }

    /** schedule and thread_schedule_tail. */
    method Reschedule()
      requires Refines() && cur in k.threads && !Schedule(k).panic
      modifies this, lists
      ensures Refines() && k == Schedule(old(k))
    {
      ghost var k' := Schedule(k);
      var prev, status := cur, tcbs[cur].status;
      var next := NextThreadToRun();
      SetThread(next.value, tcbs[next.value].(status := Running), k.threads[next.value].(status := Running));
      SwitchTo(next.value, prev != next.value && status == Dying && prev != INITIAL);
      assert k == k';
    }

    /** The stack switch, after which the page of a thread that died is freed. */
    method SwitchTo(next: Tid, dead: bool)
      requires Refines()
      modifies this`cur, this`freed, this`k
      ensures Refines() && k == old(k).(cur := next, freed := if dead then old(k).freed + {old(k).cur} else old(k).freed)
    {
      ghost var k' := k.(cur := next, freed := if dead then k.freed + {k.cur} else k.freed);
      SameQueues(k, k');
      if dead { freed := freed + {cur}; }
      cur := next;
      k := k';
    }

    /** thread_yield after its first test; the caller resumes at pc. */
    method ThreadYield(pc: Pc, ghost at: Pc)
      requires Refines() && cur in k.threads && pc == Erase(at) && Free(ViewOf(k), ReadyQ, cur) && !Yield(k, at).panic
      modifies this, lists
      ensures Refines() && k == Yield(old(k), at)
    {
      ghost var k0 := k;
      Move(pc, at);
      SameQueues(k0, k);
      if idle != Some(cur) {
        EnqueueReady(cur);
      } else {
        SetStatus(Ready);
      }
      assert Yield(k0, at) == Schedule(k);
      Reschedule();
    }

    method SetStatus(status: Status)
      requires Refines() && cur in k.threads
      modifies this`tcbs, this`k
      ensures Refines() && k == old(k).(threads := old(k).threads[cur := old(k).threads[cur].(status := status)])
    {
      SetThread(cur, tcbs[cur].(status := status), k.threads[cur].(status := status));
    }

    /** thread_block and the end of thread_exit. */
    method StopCurrent(status: Status, pc: Pc)
      requires Refines() && cur in k.threads && pc == Erase(pc) && !Stop(k, status, pc).panic
      modifies this, lists
      ensures Refines() && k == Stop(old(k), status, pc)
    {
      SetThread(cur, tcbs[cur].(status := status, pc := pc), k.threads[cur].(status := status, pc := pc));
      Reschedule();
    }

    /** thread_unblock; its assertion holds. */
    method ThreadUnblock(t: Tid)
      requires Refines() && Free(ViewOf(k), ReadyQ, t) && !Unblock(k, t).panic
      modifies this`tcbs, this`k, lists
      ensures Refines() && k == Unblock(old(k), t)
    {
      EnqueueReady(t);
    }

    /** The value of semaphore s becomes n; m is what the step machine has of it. */
    method SetValue(s: SemaId, n: nat, ghost m: Sema)
      requires Refines() && s in k.semas && m.value == n && m.waiters == k.semas[s].waiters
      modifies this`values, this`k
      ensures Refines() && k == old(k).(semas := old(k).semas[s := m])
    {
      ghost var k' := k.(semas := k.semas[s := m]);
      ValueSet(k.semas, s, m);
      assert k'.semas.Keys == k.semas.Keys;
      SameQueues(k, k');
      values := values[s := n];
      k := k';
    }

    /** The thread that has waited for s longest leaves the queue; popped is history. */
    method PopWaiter(s: SemaId) returns (t: Tid)
      requires Refines() && s in k.semas && k.semas[s].waiters != []
      modifies this`k, lists
      ensures Refines() && t == old(k).semas[s].waiters[0] && Free(ViewOf(k), ReadyQ, t)
      ensures k == PoppedFrom(old(k), s)
    {
      ghost var m, links, k' := k.semas[s], lists.M(), PoppedFrom(k, s);
      t := PopFront(lists, y, WaitQ(s), ViewOf(k));
      ElemsStay(y, links, lists.M(), k.threads.Keys);
      ValueSet(k.semas, s, k'.semas[s]);
      ViewSet(k, k', WaitQ(s), m.waiters[1..]);
      assert values[s := m.value] == values;
      k := k';
    }

    /** A thread that was popped goes back to its test, when it gets its turn. */
    method WakeThread(t: Tid)
      requires Refines() && Free(ViewOf(k), ReadyQ, t) && !Wake(k, t).panic
      modifies this`tcbs, this`k, lists
      ensures Refines() && k == Wake(old(k), t)
    {
      ghost var k0 := k;
      WakesSleeper(k, t);
      ghost var why := k.threads[t].pc.why;
      SetThread(t, tcbs[t].(pc := DownWoken(tcbs[t].pc.why)), k.threads[t].(pc := DownWoken(why)));
      SameQueues(k0, k);
      ThreadUnblock(t);
    }

    method CountUp(s: SemaId)
      requires Refines() && s in k.semas
      modifies this`values, this`k
      ensures Refines() && k == Counted(old(k), s)
    {
      ghost var m := k.semas[s];
      SetValue(s, values[s] + 1, m.(value := m.value + 1, ups := m.ups + 1));
    }

    /** sema_up. */
    method SemaUp(s: SemaId)
      requires Refines() && s in k.semas && !Up(k, s).panic
      modifies this, lists
      ensures Refines() && k == Up(old(k), s)
    {
      CountUp(s);
      var empty := IsEmpty(lists, y, WaitQ(s), ViewOf(k));
      if !empty {
        var t := PopWaiter(s);
        WakeThread(t);
      }
    }

    /** The decrement that ends a down. */
    method SemaTake(why: Why)
      requires Refines() && cur in k.threads && SemaOf(why, cur) in k.semas && k.semas[SemaOf(why, cur)].value > 0
      modifies this`tcbs, this`values, this`k
      ensures Refines() && k == Take(old(k), why)
    {
      var s := SemaOf(why, cur);
      ghost var m, th := k.semas[s], k.threads[cur];
      SetValue(s, values[s] - 1, m.(value := m.value - 1, downs := m.downs + 1, popped := m.popped - {cur}));
      assert Erase(AfterDown(why)) == AfterDown(why);
      SetThread(cur, tcbs[cur].(pc := AfterDown(why)), th.(pc := AfterDown(why), owns := th.owns + LocksTaken(why)));
    }

    /** The current thread joins the queue of s. */
    method PushWaiter(s: SemaId)
      requires Refines() && s in k.semas && cur in k.threads && Free(ViewOf(k), ReadyQ, cur)
      modifies this`k, lists
      ensures Refines()
      ensures k == old(k).(semas := old(k).semas[s := old(k).semas[s].(waiters := old(k).semas[s].waiters + [cur],
                                                                     popped := old(k).semas[s].popped - {cur})])
    {
      ghost var m, links := k.semas[s], lists.M();
      ghost var m' := m.(waiters := m.waiters + [cur], popped := m.popped - {cur});
      ghost var k' := k.(semas := k.semas[s := m']);
      assert HasElems(y, links, cur);
      PushBack(lists, y, WaitQ(s), cur, ViewOf(k));
      ElemsStay(y, links, lists.M(), k.threads.Keys);
      ValueSet(k.semas, s, m');
      ViewSet(k, k', WaitQ(s), m'.waiters);
      assert values[s := m.value] == values;
      k := k';
    }

    /** One round of the loop in sema_down. */
    method SemaDownRound(why: Why)
      requires Refines() && cur in k.threads && SemaOf(why, cur) in k.semas
      requires Free(ViewOf(k), ReadyQ, cur) && !Down(k, why).panic
      modifies this, lists
      ensures Refines() && k == Down(old(k), why)
    {
      var s := SemaOf(why, cur);
      if values[s] == 0 {
        PushWaiter(s);
        StopCurrent(Blocked, DownAsleep(why));
      } else {
        SemaTake(why);
      }
    }

    /** sema_try_down by thread code. */
    method SemaTryDown(why: Why) returns (success: bool)
      requires Refines() && cur in k.threads && SemaOf(why, cur) in k.semas
      modifies this`tcbs, this`values, this`k
      ensures Refines() && k == TryDown(old(k), why) && success == (old(k).semas[SemaOf(why, old(cur))].value > 0)
    {
      success := values[SemaOf(why, cur)] > 0;
      if success { SemaTake(why); }
    }

    /** sema_try_down in an interrupt handler. */
    method HandlerTryDownSema(s: SemaId)
      requires Refines() && s in k.semas
      modifies this`values, this`k
      ensures Refines() && k == HandlerTryDown(old(k), s)
    {
      if values[s] > 0 {
        ghost var m := k.semas[s];
        SetValue(s, values[s] - 1, m.(value := m.value - 1, downs := m.downs + 1));
      }
    }

    /** The holder of lock l becomes t. */
    method SetHolderField(l: LockId, t: Option<Tid>)
      requires Refines()
      modifies this`holders, this`k
      ensures Refines() && k == old(k).(holders := old(k).holders[l := t])
    {
      ghost var k' := k.(holders := k.holders[l := t]);
      SameQueues(k, k');
      holders := holders[l := t];
      k := k';
    }

    /** The up that ends lock_release. */
    method LockReleaseUp(l: LockId, wait: Option<CondId>)
      requires Refines() && cur in k.threads && OfLock(l) in k.semas && !ReleaseSection(k, l, wait).panic
      modifies this, lists
      ensures Refines() && k == ReleaseSection(old(k), l, wait)
    {
      var pc := match wait case None => User case Some(c) => DownTest(Await(c, l));
      assert Erase(pc) == pc;
      ghost var th := k.threads[cur];
      SetThread(cur, tcbs[cur].(pc := pc), th.(pc := pc, owns := th.owns - {l}));
      SemaUp(OfLock(l));
    }

    /** sema_init of the private semaphore of thread t, whose queue nobody is in. */
    method InitPrivate(t: Tid)
      requires Refines() && (Private(t) in k.semas ==> k.semas[Private(t)].waiters == [])
      modifies this`values, this`k, lists
      ensures Refines() && k == old(k).(semas := old(k).semas[Private(t) := FreshSema(0)])
    {
      ghost var k', m := k.(semas := k.semas[Private(t) := FreshSema(0)]), lists.M();
      InitQueue(lists, y, WaitQ(Private(t)), ViewOf(k));
      ElemsStay(y, m, lists.M(), k.threads.Keys);
      ValueSet(k.semas, Private(t), FreshSema(0));
      ViewSet(k, k', WaitQ(Private(t)), []);
      values := values[Private(t) := 0];
      k := k';
    }

    /** The queue of c, with history, becomes that of cd. */
    ghost method Requeue(c: CondId, cd: Cond)
      requires Agrees(k) && c in k.conds && cd.lock == k.conds[c].lock
      requires Chained(ViewOf(k)[CondQ(c) := cd.waiters], k.threads.Keys)
      modifies this`k
      ensures Refines() && k == old(k).(conds := old(k).conds[c := cd])
    {
      var k' := k.(conds := k.conds[c := cd]);
      LockSet(k.conds, c, cd);
      ViewSet(k, k', CondQ(c), cd.waiters);
      k := k';
    }

    /** cond_wait up to its lock_release. */
    method CondWaitEnqueue(c: CondId)
      requires Refines() && cur in k.threads && c in k.conds && Free(ViewOf(k), CondQ(c), cur)
      requires Private(cur) in k.semas && k.semas[Private(cur)].waiters == []
      modifies this, lists
      ensures Refines() && k == WaitEnqueue(old(k), c)
    {
      ghost var k0 := k;
      InitPrivate(cur);
      SameQueues(k0, k);
      ghost var cd, m := k.conds[c], lists.M();
      assert HasElems(y, m, cur);
      PushBack(lists, y, CondQ(c), cur, ViewOf(k));
      ElemsStay(y, m, lists.M(), k.threads.Keys);
      Requeue(c, cd.(waiters := cd.waiters + [cur], waited := cd.waited + [cur]));
      Move(WaitRelease(c, locks[c]), WaitRelease(c, cd.lock));
    }

    /** cond_signal up to its sema_up, on a list that is not empty. */
    method CondSignalPop(c: CondId, mode: Signaller, ghost at: Signaller)
      requires Refines() && cur in k.threads && c in k.conds && k.conds[c].waiters != []
      requires mode == if at.Loop? then Loop([], []) else Single
      modifies this, lists
      ensures Refines() && k == SignalPop(old(k), c, at)
    {
      ghost var cd, m := k.conds[c], lists.M();
      var w := PopFront(lists, y, CondQ(c), ViewOf(k));
      ElemsStay(y, m, lists.M(), k.threads.Keys);
      Requeue(c, cd.(waiters := cd.waiters[1..], signalled := cd.signalled + [w]));
      Move(SignalUp(c, locks[c], w, mode), SignalUp(c, cd.lock, w, at));
    }

    /** init_thread, on a page that has been cleared. */
    method NewThread(t: Tid, p: int)
      requires Refines() && t !in k.threads && forall q {:trigger HasQueue(k, q)} :: HasQueue(k, q) ==> t !in Content(k, q)
      modifies this`tcbs, this`k, lists
      ensures Refines() && k == old(k).(threads := old(k).threads[t := Thread(Blocked, p, Spawned, {}, 0)])
    {
      ghost var m, th := lists.M(), Thread(Blocked, p, Spawned, {}, 0);
      ClearElems(lists, y, t, ViewOf(k));
      ElemsStay(y, m, lists.M(), k.threads.Keys);
      ghost var k' := k.(threads := k.threads[t := th]);
      RecordSet(k.threads, t, th);
      SameQueues(k, k');
      tcbs := tcbs[t := Tcb(Blocked, p, Spawned)];
      k := k';
    }

    /** thread_create up to its thread_unblock. */
    method ThreadCreate(t: Tid, p: int)
      requires Refines() && CanDo(k, CallCreate(t, p))
      modifies this, lists
      ensures Refines() && k == Next(old(k), CallCreate(t, p))
    {
      NewThread(t, p);
      InitPrivate(t);
      Move(CreateUnblock(t), CreateUnblock(t));
    }

    // -------------------------------------------------------------------
    // The next section of the primitive the current thread is in
    // -------------------------------------------------------------------

    /** The holder writes of lock_acquire and of cond_wait's lock_release. */
    method AdvanceHolder()
      requires Refines() && cur in k.threads && (k.threads[cur].pc.SetHolder? || k.threads[cur].pc.WaitRelease?)
      requires k.threads[cur].pc.SetHolder? ==> k.threads[cur].pc.why.Acquire? || k.threads[cur].pc.why.Reacquire?
      requires CanAdvance(k, k.threads[cur].pc)
      modifies this
      ensures Refines() && k == AdvanceStep(old(k))
    {
      match tcbs[cur].pc {
        case SetHolder(why) =>
          SetHolderField(why.l, Some(cur));
          Move(User, User);
        case WaitRelease(c, l) =>
          SetHolderField(l, None);
          Move(ReleaseUp(l, Some(c)), ReleaseUp(l, Some(c)));
      }
    }

    /** The up of cond_signal; a broadcast goes back to its loop. */
    method AdvanceSignal()
      requires Refines() && cur in k.threads && k.threads[cur].pc.SignalUp? && CanAdvance(k, k.threads[cur].pc) && !AdvanceStep(k).panic
      modifies this, lists
      ensures Refines() && k == AdvanceStep(old(k))
    {
      SignalUpIs(k);
      var pc := tcbs[cur].pc;
      Move(if pc.mode.Single? then User else BroadcastLoop(pc.c, pc.l, [], []), AfterSignal(k.threads[cur].pc));
      SemaUp(Private(pc.w));
    }

    /** One round of cond_broadcast. */
    method AdvanceBroadcast()
      requires Refines() && cur in k.threads && k.threads[cur].pc.BroadcastLoop? && CanAdvance(k, k.threads[cur].pc)
      modifies this, lists
      ensures Refines() && k == AdvanceStep(old(k))
    {
      var c := tcbs[cur].pc.c;
      var empty := IsEmpty(lists, y, CondQ(c), ViewOf(k));
      if empty {
        Move(User, User);
      } else {
        ghost var pc := k.threads[cur].pc;
        CondSignalPop(c, Loop([], []), Loop(pc.start, pc.taken + [k.conds[c].waiters[0]]));
      }
    }

    /** The end of thread_create: the new thread becomes ready. */
    method AdvanceCreate()
      requires Refines() && cur in k.threads && k.threads[cur].pc.CreateUnblock? && !AdvanceStep(k).panic
      requires k.threads[cur].pc.child in k.threads && Free(ViewOf(k), ReadyQ, k.threads[cur].pc.child)
      modifies this, lists
      ensures Refines() && k == AdvanceStep(old(k))
    {
      ghost var k0 := k;
      var child := tcbs[cur].pc.child;
      Move(User, User);
      SetThread(child, tcbs[child].(pc := User), k.threads[child].(pc := User));
      SameQueues(k0, k);
      ThreadUnblock(child);
    }

    method SetIdle()
      requires Refines()
      modifies this`idle, this`k
      ensures Refines() && k == old(k).(idle := Some(cur))
    {
      ghost var k' := k.(idle := Some(cur));
      SameQueues(k, k');
      idle := Some(cur);
      k := k';
    }

    /** The idle thread. */
    method AdvanceIdle()
      requires Refines() && cur in k.threads && CanAdvance(k, k.threads[cur].pc) && !AdvanceStep(k).panic
      requires k.threads[cur].pc.IdleEntry? || k.threads[cur].pc.IdleUp? || k.threads[cur].pc.IdleLoop?
      modifies this, lists
      ensures Refines() && k == AdvanceStep(old(k))
    {
      match tcbs[cur].pc {
        case IdleEntry =>
          SetIdle();
          Move(IdleUp, IdleUp);
        case IdleUp =>
          Move(IdleLoop, IdleLoop);
          SemaUp(IDLE_STARTED);
        case IdleLoop => StopCurrent(Blocked, IdleLoop);
      }
    }

    method AdvanceCurrent()
      requires Refines() && CanGoOn(k)
      modifies this, lists
      ensures Refines() && k == AdvanceStep(old(k))
    {
      match tcbs[cur].pc {
        case DownTest(why) => SemaDownRound(why);
        case DownWoken(why) => SemaDownRound(why);
        case SetHolder(why) => AdvanceHolder();
        case WaitRelease(c, l) => AdvanceHolder();
        case ReleaseUp(l, wait) => LockReleaseUp(l, wait);
        case SignalUp(c, l, w, mode) => AdvanceSignal();
        case BroadcastLoop(c, l, _, _) => AdvanceBroadcast();
        case YieldCommit => ThreadYield(User, User);
        case CreateUnblock(child) => AdvanceCreate();
        case IdleEntry => AdvanceIdle();
        case IdleUp => AdvanceIdle();
        case IdleLoop => AdvanceIdle();
      }
    }

    // -------------------------------------------------------------------
    // Calls into the primitives, up to the end of their first sections
    // -------------------------------------------------------------------

    method CallCond(step: Step)
      requires Refines() && CanDo(k, step) && (step.CallWait? || step.CallSignal? || step.CallBroadcast?)
      modifies this, lists
      ensures Refines() && k == Next(old(k), step)
    {
      match step {
        case CallWait(c) => CondWaitEnqueue(c);
        case CallSignal(c) =>
          var empty := IsEmpty(lists, y, CondQ(c), ViewOf(k));
          if !empty { CondSignalPop(c, Single, Single); }
        case CallBroadcast(c) =>
          Move(BroadcastLoop(c, locks[c], [], []), BroadcastLoop(c, k.conds[c].lock, k.conds[c].waiters, []));
      }
    }

    method CallLock(step: Step)
      requires Refines() && Enabled(k, step) && (step.CallAcquire? || step.CallTryAcquire? || step.CallRelease?)
      modifies this
      ensures Refines() && k == Next(old(k), step)
    {
      match step {
        case CallAcquire(l) => Move(DownTest(Acquire(l)), DownTest(Acquire(l)));
        case CallTryAcquire(l) => var _ := SemaTryDown(Acquire(l));
        case CallRelease(l) =>
          SetHolderField(l, None);
          Move(ReleaseUp(l, None), ReleaseUp(l, None));
      }
    }

    method CallThread(step: Step)
      requires Refines() && Enabled(k, step) && !Next(k, step).panic
      requires step.CallYield? || step.CallSetPriority? || step.CallExit?
      modifies this, lists
      ensures Refines() && k == Next(old(k), step)
    {
      match step {
        case CallYield(commit) => if commit { Move(YieldCommit, YieldCommit); }
        case CallSetPriority(p, commit) =>
          var pc := if commit then YieldCommit else User;
          SetThread(cur, tcbs[cur].(priority := p, pc := pc), k.threads[cur].(priority := p, pc := pc));
        case CallExit => StopCurrent(Dying, Exited);
      }
    }

    method CallSema(step: Step)
      requires Refines() && Enabled(k, step) && !Next(k, step).panic
      requires step.CallDown? || step.CallTryDown? || step.CallUp? || step.HandlerUp? || step.HandlerTry?
      modifies this, lists
      ensures Refines() && k == Next(old(k), step)
    {
      match step {
        case CallDown(n) => Move(DownTest(Plain(n)), DownTest(Plain(n)));
        case CallTryDown(n) => var _ := SemaTryDown(Plain(n));
        case CallUp(n) => SemaUp(Shared(n));
        case HandlerUp(n) => SemaUp(Shared(n));
        case HandlerTry(n) => HandlerTryDownSema(Shared(n));
      }
    }

    /** Any one step whose section can run. */
    method PerformStep(step: Step)
      requires Refines() && CanDo(k, step)
      modifies this, lists
      ensures Refines() && k == Next(old(k), step)
    {
      match step {
        case Advance => AdvanceCurrent();
        case Preempt(commit) => if commit { ThreadYield(tcbs[cur].pc, k.threads[cur].pc); }
        case CallCreate(t, p) => ThreadCreate(t, p);
        case CallWait(_) => CallCond(step);
        case CallSignal(_) => CallCond(step);
        case CallBroadcast(_) => CallCond(step);
        case CallAcquire(_) => CallLock(step);
        case CallTryAcquire(_) => CallLock(step);
        case CallRelease(_) => CallLock(step);
        case CallYield(_) => CallThread(step);
        case CallSetPriority(_, _) => CallThread(step);
        case CallExit => CallThread(step);
        case _ => CallSema(step);
      }
    }

    /** Any one step of the kernel, from a state any run can reach.  Its writes to links and
        fields leave what the step machine says: every queue is again a list of its
        threads, in their order, and the invariant holds. */
    method Perform(step: Step)
      requires Refines() && Inv(k) && Enabled(k, step)
      modifies this, lists
      ensures Refines() && Inv(k) && k == Next(old(k), step)
    {
      CanBeDone(k, step);
      PerformStep(step);
    }
  }
}
