/**
 The kernel's queues as linked lists in memory.  A thread has one list element in its
 `struct thread`, which the ready list and the wait lists of all semaphores share, and one
 more for the wait list of a condition variable.  A view says what is in every queue.
 */
module KernelLists {
  import opened Address
  import opened Sequences
  import opened KernelState
  import opened ListOrder
  import opened ListLinks
  import ListOps

  datatype Queue = ReadyQ | WaitQ(s: SemaId) | CondQ(c: CondId)

  /** What an address is used for. */
  datatype Use = ThreadElem(t: Tid) | WaiterElem(t: Tid) | Head(q: Queue) | Tail(q: Queue) | Other

  /** Where the elements and the headers are.  `what` is list_entry: it leads from an
      element back to its thread. */
  datatype Layout = Layout(elem: Tid -> Addr, waiter: Tid -> Addr, list: Queue -> List, what: Addr -> Use)

  /** Everything has a place of its own. */
  ghost predicate Sound(y: Layout) {
    && (forall t {:trigger y.elem(t)} :: y.elem(t) != NULL && y.what(y.elem(t)) == ThreadElem(t))
    && (forall t {:trigger y.waiter(t)} :: y.waiter(t) != NULL && y.what(y.waiter(t)) == WaiterElem(t))
    && (forall q {:trigger y.list(q)} ::
          && y.list(q).head != NULL && y.what(y.list(q).head) == Head(q)
          && y.list(q).tail != NULL && y.what(y.list(q).tail) == Tail(q))
  }

  /** Queues can be numbered. */
  function Number(q: Queue): nat {
    match q
    case ReadyQ => 0
    case WaitQ(Shared(n)) => 4 * n + 1
    case WaitQ(OfLock(l)) => 4 * l + 2
    case WaitQ(Private(t)) => 4 * t + 3
    case CondQ(c) => 4 * c + 4
  }

  function Numbered(n: nat): (q: Queue) {
    if n == 0 then ReadyQ
    else
      var i := (n - 1) / 4;
      match (n - 1) % 4
      case 0 => WaitQ(Shared(i))
      case 1 => WaitQ(OfLock(i))
      case 2 => WaitQ(Private(i))
      case _ => CondQ(i)
  }

  lemma {:induction false} NumberedIs(q: Queue)
    ensures Numbered(Number(q)) == q
  {
  }

  /** So there is a place for everything: four addresses for each number. */
  function Flat(): Layout {
    Layout(t => 4 * t + 1, t => 4 * t + 2, q => List(4 * Number(q) + 3, 4 * Number(q) + 4),
           a => if a < 1 then Other
                else var i := (a - 1) / 4;
                     match (a - 1) % 4
                     case 0 => ThreadElem(i)
                     case 1 => WaiterElem(i)
                     case 2 => Head(Numbered(i))
                     case _ => Tail(Numbered(i)))
  }

  lemma {:induction false} FlatIsSound()
    ensures Sound(Flat())
  {
    var y := Flat();
    forall q {:trigger y.list(q)} ensures y.what(y.list(q).head) == Head(q) && y.what(y.list(q).tail) == Tail(q) {
      NumberedIs(q);
    }
  }

  function Elem(y: Layout, q: Queue, t: Tid): Addr {
    if q.CondQ? then y.waiter(t) else y.elem(t)
  }

  function Addrs(y: Layout, q: Queue, ts: seq<Tid>): (r: seq<Addr>)
    ensures |r| == |ts| && forall i :: 0 <= i < |ts| ==> r[i] == Elem(y, q, ts[i])
  {
    seq(|ts|, i requires 0 <= i < |ts| => Elem(y, q, ts[i]))
  }

  lemma AddrsConcat(y: Layout, q: Queue, a: seq<Tid>, b: seq<Tid>)
    ensures Addrs(y, q, a + b) == Addrs(y, q, a) + Addrs(y, q, b)
  {
  }

  /** What is in every queue, first to last. */
  type View = map<Queue, seq<Tid>>

  function NodesIn(y: Layout, q: Queue, ts: seq<Tid>): seq<Addr> {
    Nodes(y.list(q), Addrs(y, q, ts))
  }

  ghost predicate Holds(y: Layout, m: Links, q: Queue, ts: seq<Tid>) {
    Chain(m, y.list(q), Addrs(y, q, ts))
  }

  /** Two queues that link the same kind of element share no thread. */
  ghost predicate Exclusive(v: View, q: Queue, r: Queue)
    requires q in v && r in v
  {
    q != r && q.CondQ? == r.CondQ? ==> Disjoint(v[q], v[r])
  }

  /** Memory holds the view: every queue is a list of its threads' elements. */
  ghost predicate Linked(y: Layout, m: Links, v: View) {
    && Sound(y)
    && (forall q {:trigger Holds(y, m, q, v[q])} :: q in v ==> Holds(y, m, q, v[q]))
    && (forall q, r {:trigger Exclusive(v, q, r)} :: q in v && r in v ==> Exclusive(v, q, r))
  }

  /** t is in no queue that links the kind of element q links. */
  ghost predicate Free(v: View, q: Queue, t: Tid) {
    forall r {:trigger v[r]} :: r in v && r.CondQ? == q.CondQ? ==> t !in v[r]
  }

  ghost predicate HasElems(y: Layout, m: Links, t: Tid) {
    y.elem(t) in m.prev && y.elem(t) in m.next && y.waiter(t) in m.prev && y.waiter(t) in m.next
  }

  // ---------------------------------------------------------------------
  // Queues do not meet
  // ---------------------------------------------------------------------

  /** x is a header of q or the element of a thread in ts. */
  predicate NodeOf(y: Layout, q: Queue, ts: seq<Tid>, x: Addr) {
    match y.what(x)
    case Head(r) => r == q
    case Tail(r) => r == q
    case ThreadElem(t) => !q.CondQ? && t in ts
    case WaiterElem(t) => q.CondQ? && t in ts
    case Other => false
  }

  lemma NodesAre(y: Layout, q: Queue, ts: seq<Tid>, x: Addr)
    requires Sound(y) && x in NodesIn(y, q, ts)
    ensures NodeOf(y, q, ts, x)
  {
    var a := Addrs(y, q, ts);
    if x in a {
      var i :| 0 <= i < |a| && a[i] == x;
      assert x == Elem(y, q, ts[i]);
    }
  }

  /** Queues with nothing in common share no memory. */
  lemma NodesApart(y: Layout, q: Queue, ts: seq<Tid>, r: Queue, us: seq<Tid>)
    requires Sound(y) && q != r && (q.CondQ? == r.CondQ? ==> Disjoint(ts, us))
    ensures Disjoint(NodesIn(y, q, ts), NodesIn(y, r, us))
  {
    forall x | x in NodesIn(y, q, ts) ensures x !in NodesIn(y, r, us) {
      NodesAre(y, q, ts, x);
      if x in NodesIn(y, r, us) { NodesAre(y, r, us, x); }
    }
  }

  lemma ElemApart(y: Layout, q: Queue, t: Tid, r: Queue, us: seq<Tid>)
    requires Sound(y) && (q.CondQ? == r.CondQ? ==> t !in us)
    ensures Elem(y, q, t) !in NodesIn(y, r, us)
  {
    if Elem(y, q, t) in NodesIn(y, r, us) { NodesAre(y, r, us, Elem(y, q, t)); }
  }

  /** Writes to n, which another queue does not have, leave that queue alone. */
  lemma Untouched(y: Layout, m: Links, m': Links, r: Queue, us: seq<Tid>, n: seq<Addr>)
    requires Holds(y, m, r, us) && ListOps.SameOutside(m, m', n) && Disjoint(NodesIn(y, r, us), n)
    ensures Holds(y, m', r, us)
  {
    ChainFrame(m, m', y.list(r), Addrs(y, r, us));
  }

  /** One queue has changed from v[q] to ts, with writes to its own nodes and to the element
      of a thread t that is in no queue.  Then memory holds the new view. */
  lemma OneQueue(y: Layout, m: Links, m': Links, v: View, q: Queue, ts: seq<Tid>, t: Tid)
    requires Linked(y, m, v) && q in v && Holds(y, m', q, ts)
    requires ListOps.SameOutside(m, m', NodesIn(y, q, v[q]) + [Elem(y, q, t)])
    requires forall r {:trigger v[r]} :: r in v && r != q && r.CondQ? == q.CondQ? ==> t !in v[r]
    requires forall u {:trigger u in ts} :: u in ts ==> u in v[q] || u == t
    ensures Linked(y, m', v[q := ts])
  {
    var v' := v[q := ts];
    var n := NodesIn(y, q, v[q]) + [Elem(y, q, t)];
    forall r | r in v' ensures Holds(y, m', r, v'[r]) {
      if r != q {
        assert Exclusive(v, r, q) && Holds(y, m, r, v[r]);
        NodesApart(y, r, v[r], q, v[q]);
        ElemApart(y, q, t, r, v[r]);
        Untouched(y, m, m', r, v[r], n);
      }
    }
    ExclusiveStill(v, q, ts, t);
  }

  lemma ExclusiveStill(v: View, q: Queue, ts: seq<Tid>, t: Tid)
    requires q in v && forall a, b {:trigger Exclusive(v, a, b)} :: a in v && b in v ==> Exclusive(v, a, b)
    requires forall r {:trigger v[r]} :: r in v && r != q && r.CondQ? == q.CondQ? ==> t !in v[r]
    requires forall u {:trigger u in ts} :: u in ts ==> u in v[q] || u == t
    ensures var v' := v[q := ts]; forall a, b {:trigger Exclusive(v', a, b)} :: a in v' && b in v' ==> Exclusive(v', a, b)
  {
    var v' := v[q := ts];
    forall a, b | a in v' && b in v' ensures Exclusive(v', a, b) {
      assert Exclusive(v, a, b);
    }
  }

  // ---------------------------------------------------------------------
  // Operations on one queue
  // ---------------------------------------------------------------------

  method IsEmpty(h: ListOps.ListHeap, y: Layout, q: Queue, ghost v: View) returns (empty: bool)
    requires Linked(y, h.M(), v) && q in v
    ensures empty <==> v[q] == []
  {
    assert Holds(y, h.M(), q, v[q]);
    ghost var a := Addrs(y, q, v[q]);
    assert [] + a == a;
    ListOps.ChainAt(h.M(), y.list(q), [], a);
    empty := h.next[y.list(q).head] == y.list(q).tail;
  }

  /** list_push_back. */
  method PushBack(h: ListOps.ListHeap, y: Layout, q: Queue, t: Tid, ghost v: View)
    requires Linked(y, h.M(), v) && q in v && Free(v, q, t) && HasElems(y, h.M(), t)
    modifies h
    ensures Linked(y, h.M(), v[q := v[q] + [t]]) && Grows(old(h.M()), h.M())
  {
    ghost var m, a, l := h.M(), Addrs(y, q, v[q]), y.list(q);
    assert Holds(y, m, q, v[q]);
    assert a + [] == a && a + [Elem(y, q, t)] + [] == a + [Elem(y, q, t)];
    ElemApart(y, q, t, q, v[q]);
    ListOps.ChainAt(m, l, a, []);
    ListOps.LinkOutside(m, l, a, Elem(y, q, t), []);
    h.ListInsert(y.list(q).tail, Elem(y, q, t), l, a, []);
    AddrsConcat(y, q, v[q], [t]);
    assert Addrs(y, q, [t]) == [Elem(y, q, t)];
    OneQueue(y, m, h.M(), v, q, v[q] + [t], t);
  }

  /** list_insert_ordered. */
  method InsertOrdered(h: ListOps.ListHeap, y: Layout, q: Queue, t: Tid, less: Less, ghost v: View, ghost i: nat)
    requires Linked(y, h.M(), v) && q in v && Free(v, q, t) && HasElems(y, h.M(), t)
    requires i == Place(Addrs(y, q, v[q]), Elem(y, q, t), less)
    modifies h
    ensures Linked(y, h.M(), v[q := v[q][..i] + [t] + v[q][i..]]) && Grows(old(h.M()), h.M())
  {
    ghost var m := h.M();
    assert Holds(y, m, q, v[q]);
    ElemApart(y, q, t, q, v[q]);
    h.ListInsertOrdered(y.list(q), Elem(y, q, t), less, Addrs(y, q, v[q]));
    AddrsInsert(y, q, v[q], t, i);
    OneQueue(y, m, h.M(), v, q, v[q][..i] + [t] + v[q][i..], t);
  }

  lemma AddrsInsert(y: Layout, q: Queue, ts: seq<Tid>, t: Tid, i: nat)
    requires i <= |ts|
    ensures var a := Addrs(y, q, ts); Addrs(y, q, ts[..i] + [t] + ts[i..]) == a[..i] + [Elem(y, q, t)] + a[i..]
    ensures forall u {:trigger u in ts[..i] + [t] + ts[i..]} :: u in ts[..i] + [t] + ts[i..] ==> u in ts || u == t
  {
  }

  /** list_pop_front and list_entry. */
  method PopFront(h: ListOps.ListHeap, y: Layout, q: Queue, ghost v: View) returns (t: Tid)
    requires Linked(y, h.M(), v) && q in v && v[q] != []
    modifies h
    ensures t == v[q][0] && Linked(y, h.M(), v[q := v[q][1..]]) && Grows(old(h.M()), h.M())
    ensures Free(v[q := v[q][1..]], q, t)
  {
    ghost var m, l, rest := h.M(), y.list(q), Addrs(y, q, v[q][1..]);
    assert Holds(y, m, q, v[q]);
    FrontOf(y, m, q, v[q]);
    var front := h.next[y.list(q).head];
    t := match y.what(front) case ThreadElem(u) => u case WaiterElem(u) => u case _ => 0;
    assert [] + [front] + rest == Addrs(y, q, v[q]) && [] + rest == rest;
    ListOps.Removed(m, l, [], front, rest);
    ListOps.UnlinkOutside(m, l, [], front, rest);
    var _ := h.ListRemove(front, l, [], rest);
    Popped(y, m, v, q);
    OneQueue(y, m, h.M(), v, q, v[q][1..], t);
  }

  lemma FrontOf(y: Layout, m: Links, q: Queue, ts: seq<Tid>)
    requires Sound(y) && Holds(y, m, q, ts) && ts != []
    ensures y.list(q).head in m.next && m.next[y.list(q).head] == Elem(y, q, ts[0])
    ensures Addrs(y, q, ts) == [Elem(y, q, ts[0])] + Addrs(y, q, ts[1..])
  {
    var a := Addrs(y, q, ts);
    assert [] + a == a;
    ListOps.ChainAt(m, y.list(q), [], a);
  }

  /** Once popped, a thread is in no queue of that kind. */
  lemma Popped(y: Layout, m: Links, v: View, q: Queue)
    requires Linked(y, m, v) && q in v && v[q] != []
    ensures Free(v[q := v[q][1..]], q, v[q][0])
    ensures forall r {:trigger v[r]} :: r in v && r != q && r.CondQ? == q.CondQ? ==> v[q][0] !in v[r]
  {
    var t := v[q][0];
    assert Holds(y, m, q, v[q]);
    OnlyOnce(y, m, q, v[q]);
    forall r | r in v && r != q && r.CondQ? == q.CondQ? ensures t !in v[r] {
      assert Exclusive(v, q, r);
      assert t in v[q];
    }
  }

  lemma OnlyOnce(y: Layout, m: Links, q: Queue, ts: seq<Tid>)
    requires Holds(y, m, q, ts) && ts != []
    ensures ts[0] !in ts[1..]
  {
    var a := Addrs(y, q, ts);
    var n := Nodes(y.list(q), a);
    forall i | 0 <= i < |ts| - 1 ensures ts[1..][i] != ts[0] {
      assert n[1] == a[0] && n[i + 2] == a[i + 1];
    }
  }

  /** list_init, on headers that are in no use or on an empty list. */
  method InitQueue(h: ListOps.ListHeap, y: Layout, q: Queue, ghost v: View)
    requires Linked(y, h.M(), v) && (q in v ==> v[q] == [])
    modifies h
    ensures Linked(y, h.M(), v[q := []]) && Grows(old(h.M()), h.M())
  {
    ghost var m := h.M();
    h.ListInit(y.list(q));
    assert Addrs(y, q, []) == [];
    Initialised(y, m, h.M(), v, q);
  }

  lemma Initialised(y: Layout, m: Links, m': Links, v: View, q: Queue)
    requires Linked(y, m, v) && (q in v ==> v[q] == []) && Holds(y, m', q, [])
    requires ListOps.SameOutside(m, m', [y.list(q).head, y.list(q).tail])
    ensures Linked(y, m', v[q := []])
  {
    var v' := v[q := []];
    forall r | r in v' ensures Holds(y, m', r, v'[r]) {
      if r != q {
        assert Holds(y, m, r, v[r]);
        NodesApart(y, r, v[r], q, []);
        assert NodesIn(y, q, []) == [y.list(q).head, y.list(q).tail];
        Untouched(y, m, m', r, v[r], NodesIn(y, q, []));
      }
    }
    forall a, b | a in v' && b in v' ensures Exclusive(v', a, b) {
      if a in v && b in v { assert Exclusive(v, a, b); }
    }
  }

  /** A thread's page, cleared: its list elements have no links. */
  method ClearElems(h: ListOps.ListHeap, y: Layout, t: Tid, ghost v: View)
    requires Linked(y, h.M(), v) && Free(v, ReadyQ, t) && forall c {:trigger CondQ(c) in v} :: CondQ(c) in v ==> t !in v[CondQ(c)]
    modifies h
    ensures Linked(y, h.M(), v) && HasElems(y, h.M(), t) && Grows(old(h.M()), h.M())
  {
    ghost var m := h.M();
    h.prev := h.prev[y.elem(t) := NULL][y.waiter(t) := NULL];
    h.next := h.next[y.elem(t) := NULL][y.waiter(t) := NULL];
    forall q | q in v ensures Holds(y, h.M(), q, v[q]) {
      assert Holds(y, m, q, v[q]);
      ElemApart(y, ReadyQ, t, q, v[q]);
      ElemApart(y, CondQ(0), t, q, v[q]);
      Untouched(y, m, h.M(), q, v[q], [y.elem(t), y.waiter(t)]);
    }
  }

  /** Queues with nothing in them. */
  function EmptyQueues(qs: set<Queue>): View {
    map q | q in qs :: []
  }

  /** list_init of all of them. */
  method InitQueues(h: ListOps.ListHeap, y: Layout, qs: set<Queue>)
    requires Sound(y)
    modifies h
    ensures Linked(y, h.M(), EmptyQueues(qs))
  {
    var rest, done: set<Queue> := qs, {};
    while rest != {}
      invariant done + rest == qs && Linked(y, h.M(), EmptyQueues(done))
      decreases |rest|
    {
      var q :| q in rest;
      InitQueue(h, y, q, EmptyQueues(done));
      assert EmptyQueues(done)[q := []] == EmptyQueues(done + {q});
      rest, done := rest - {q}, done + {q};
    }
    assert done == qs;
  }
}
