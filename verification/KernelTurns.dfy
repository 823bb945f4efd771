/** How threads of one priority share the processor. */
module KernelTurns {
  import opened Options
  import opened Numbers
  import opened KernelState
  import opened KernelInvariant
  import opened KernelRuns

  /** The threads of priority p in the order in which they are due to run, when p is the
      highest priority. */
  function Line(k: Kernel, p: int): seq<Tid> {
    [k.cur] + k.ready[..Position(k, k.ready, p)]
  }

  /** The current thread is of priority p, and nothing ready is above it. */
  ghost predicate TopIs(k: Kernel, p: int) {
    && k.cur in k.threads && Prio(k, k.cur) == p && k.idle != Some(k.cur)
    && forall t {:trigger t in k.ready} :: t in k.ready ==> Prio(k, t) <= p
  }

  /** The steps that give the processor up in favour of equals: the second half of
      thread_yield, and a timer interrupt whose yield goes through. */
  predicate GivesWay(k: Kernel, step: Step) {
    k.cur in k.threads && (step == Preempt(true) || (step.Advance? && k.threads[k.cur].pc.YieldCommit?))
  }

  /** A step that nobody on the ready list notices: no thread blocks, wakes, starts, ends
      or changes its priority. */
  ghost predicate Unnoticed(k: Kernel, k': Kernel) {
    && k'.cur == k.cur && k'.ready == k.ready && k'.idle == k.idle && k'.cur in k'.threads
    && forall t {:trigger Prio(k', t)} :: t in Line(k, Prio(k, k.cur)) || t in k.ready ==> Prio(k', t) == Prio(k, t)
  }

  lemma {:induction false} PositionIs(k: Kernel, q: seq<Tid>, p: int, n: nat)
    requires n <= |q| && (n < |q| ==> Prio(k, q[n]) < p)
    requires forall j :: 0 <= j < n ==> Prio(k, q[j]) >= p
    ensures Position(k, q, p) == n
  {
  }

  lemma {:induction false} PositionSame(k: Kernel, k': Kernel, q: seq<Tid>, p: int)
    requires forall t {:trigger t in q} :: t in q ==> Prio(k', t) == Prio(k, t)
    ensures Position(k', q, p) == Position(k, q, p)
  {
    var n := Position(k, q, p);
    assert n < |q| ==> q[n] in q;
    forall j | 0 <= j < n ensures Prio(k', q[j]) >= p { assert q[j] in q; }
    PositionIs(k', q, p, n);
  }

  /** A step that nobody notices leaves the line alone. */
  lemma UnnoticedKeeps(k: Kernel, k': Kernel, p: int)
    requires TopIs(k, p) && Unnoticed(k, k')
    ensures TopIs(k', p) && Line(k', p) == Line(k, p)
  {
    PositionSame(k, k', k.ready, p);
    assert Line(k, p)[0] == k.cur;
    assert Prio(k', k.cur) == Prio(k, k.cur);
    forall t | t in k'.ready ensures Prio(k', t) <= p { assert Prio(k', t) == Prio(k, t); }
  }

  /** The switch of a yield: who runs and who is left, from the list with the current
      thread put back behind its equals. */
  lemma {:induction false} YieldSwitch(k: Kernel, pc: Pc, p: int)
    requires SchedOk(k) && TopIs(k, p)
    ensures var n := Position(k, k.ready, p); var r := k.ready[..n] + [k.cur] + k.ready[n..];
      var k' := Yield(k, pc); k'.cur == r[0] && k'.ready == r[1..] && k'.idle == k.idle && k'.cur in k'.threads
    ensures forall t {:trigger Prio(Yield(k, pc), t)} :: Prio(Yield(k, pc), t) == Prio(k, t)
  {
    var k1 := SetPc(k, k.cur, pc);
    PositionSame(k, k1, k.ready, p);
    var m := Enqueue(k1, k.cur);
    assert m.ready[0] in m.threads by {
      if k.ready != [] { assert k.ready[0] in k.ready; }
    }
    SwitchTo(m);
  }

  lemma SwitchTo(m: Kernel)
    requires m.cur in m.threads && m.threads[m.cur].status == Ready && m.ready != [] && m.ready[0] in m.threads
    ensures var k := Schedule(m); k.cur == m.ready[0] && k.ready == m.ready[1..] && k.idle == m.idle && k.cur in k.threads
    ensures forall t {:trigger Prio(Schedule(m), t)} :: Prio(Schedule(m), t) == Prio(m, t)
  {
  }

  /** q with t put in at n, without its first entry. */
  lemma InsertedAt(q: seq<Tid>, t: Tid, n: nat)
    requires n <= |q|
    ensures var r := q[..n] + [t] + q[n..]; var r' := r[1..];
      && |r'| == |q| && [r[0]] + r'[..n] == q[..n] + [t]
      && r[0] == (if n == 0 then t else q[0])
      && (forall j :: 0 <= j < n ==> r'[j] == if j + 1 < n then q[j + 1] else t)
      && (forall j :: n <= j < |q| ==> r'[j] == q[j])
  {
    var r := q[..n] + [t] + q[n..];
    assert [r[0]] + r[1..][..n] == r[..n + 1] == q[..n] + [t];
  }

  lemma {:induction false} Reinserted(k: Kernel, q: seq<Tid>, t: Tid, n: nat, p: int)
    requires n == Position(k, q, p) && Prio(k, t) == p
    ensures var r := q[..n] + [t] + q[n..];
      && Position(k, r[1..], p) == n && [r[0]] + r[1..][..n] == q[..n] + [t]
      && Prio(k, r[0]) >= p && (r[0] == t || r[0] in q)
  {
    var r := q[..n] + [t] + q[n..];
    InsertedAt(q, t, n);
    PositionIs(k, r[1..], p, n);
  }

  lemma InsertedFrom(q: seq<Tid>, t: Tid, n: nat, u: Tid)
    requires n <= |q| && u in (q[..n] + [t] + q[n..])[1..]
    ensures u in q || u == t
  {
  }

  /** Whatever the thread resumes with, giving way moves it to the end of its line. */
  lemma YieldRotates(k: Kernel, pc: Pc, p: int)
    requires SchedOk(k) && TopIs(k, p)
    ensures TopIs(Yield(k, pc), p)
    ensures Line(Yield(k, pc), p) == Line(k, p)[1..] + [Line(k, p)[0]]
  {
    var n, k' := Position(k, k.ready, p), Yield(k, pc);
    YieldSwitch(k, pc, p);
    Reinserted(k, k.ready, k.cur, n, p);
    PositionSame(k, k', k'.ready, p);
    assert Prio(k', k'.cur) == Prio(k, k'.cur);
    forall t | t in k'.ready ensures Prio(k', t) <= p {
      InsertedFrom(k.ready, k.cur, n, t);
      assert Prio(k', t) == Prio(k, t);
    }
    assert Line(k, p)[1..] == k.ready[..n];
  }

  /** q after the first of the line has gone to its end n times. */
  function Rotated(q: seq<Tid>, n: nat): (r: seq<Tid>)
    ensures |r| == |q|
  {
    if n == 0 || q == [] then q else var r := Rotated(q, n - 1); r[1..] + [r[0]]
  }

  lemma {:induction false} OneMore(q: seq<Tid>, n: nat)
    ensures Rotated(Rotated(q, n), 0) == Rotated(q, n)
    ensures Rotated(Rotated(q, n), 1) == Rotated(q, n + 1)
  {
    assert Rotated(Rotated(q, n), 0) == Rotated(q, n);
  }

  /** Who is where, counted round and round. */
  lemma {:induction false} RotatedIs(q: seq<Tid>, n: nat)
    requires q != []
    ensures Rotated(q, n) == q[n % |q|..] + q[..n % |q|]
  {
    if n > 0 {
      RotatedIs(q, n - 1);
      NextRemainder(n - 1, |q|);
      Moved(q, (n - 1) % |q|);
    }
  }

  lemma Moved(q: seq<Tid>, m: nat)
    requires m < |q|
    ensures var r := q[m..] + q[..m]; var m' := if m + 1 == |q| then 0 else m + 1;
      r[1..] + [r[0]] == q[m'..] + q[..m']
  {
    var r := q[m..] + q[..m];
    assert r[0] == q[m] && r[1..] == q[m + 1..] + q[..m];
    assert q[..m + 1] == q[..m] + [q[m]];
    if m + 1 == |q| { assert q[m + 1..] == [] && q[..m + 1] == q && q[0..] + q[..0] == q; }
  }

  /** How often the processor was given up between states i and j. */
  function SwitchCount(states: seq<Kernel>, steps: seq<Step>, i: nat, j: nat): nat
    requires i <= j <= |steps| && |states| == |steps| + 1
    decreases j
  {
    if i == j then 0
    else SwitchCount(states, steps, i, j - 1) + if GivesWay(states[j - 1], steps[j - 1]) then 1 else 0
  }

  ghost predicate Turns(states: seq<Kernel>, steps: seq<Step>, i: nat, j: nat)
    requires i <= j <= |steps| && |states| == |steps| + 1
  {
    forall m {:trigger TurnAt(states, steps, m)} :: i <= m < j ==> TurnAt(states, steps, m)
  }

  ghost predicate TurnAt(states: seq<Kernel>, steps: seq<Step>, m: nat)
    requires m < |steps| && |states| == |steps| + 1
  {
    GivesWay(states[m], steps[m]) || Unnoticed(states[m], states[m + 1])
  }

  /** If the line is one of priority p before step m, it is after it, moved on or not. */
  ghost predicate MovesOn(states: seq<Kernel>, steps: seq<Step>, m: nat, p: int)
    requires m < |steps| && |states| == |steps| + 1
  {
    TopIs(states[m], p) ==>
      && TopIs(states[m + 1], p)
      && Line(states[m + 1], p) == Rotated(Line(states[m], p), if GivesWay(states[m], steps[m]) then 1 else 0)
  }

  lemma TurnStep(states: seq<Kernel>, steps: seq<Step>, m: nat, p: int)
    requires IsRun(states, steps) && m < |steps| && TurnAt(states, steps, m)
    ensures MovesOn(states, steps, m, p)
  {
    var k := states[m];
    RunOk(states, steps, m);
    assert Enabled(k, steps[m]) && states[m + 1] == Next(k, steps[m]);
    if TopIs(k, p) {
      if GivesWay(k, steps[m]) {
        YieldRotates(k, if steps[m].Preempt? then k.threads[k.cur].pc else User, p);
        assert Rotated(Line(k, p), 0) == Line(k, p);
      } else {
        UnnoticedKeeps(k, states[m + 1], p);
      }
    }
  }

  lemma {:induction false} LinesRotate(states: seq<Kernel>, steps: seq<Step>, i: nat, j: nat, p: int)
    requires |states| == |steps| + 1 && i <= j < |states| && TopIs(states[i], p)
    requires forall m {:trigger MovesOn(states, steps, m, p)} :: i <= m < j ==> MovesOn(states, steps, m, p)
    ensures TopIs(states[j], p)
    ensures Line(states[j], p) == Rotated(Line(states[i], p), SwitchCount(states, steps, i, j))
    decreases j
  {
    if i < j {
      LinesRotate(states, steps, i, j - 1, p);
      assert MovesOn(states, steps, j - 1, p);
      OneMore(Line(states[i], p), SwitchCount(states, steps, i, j - 1));
    }
  }

  /** Round robin, in every run.  Take any part of a run that begins with a thread of the
      highest priority p, and in which each step gives way (a yield or a tick, wherever
      the thread is) or is not noticed by the scheduler.  Then the threads of priority p
      take turns: every switch moves the line on by one, and lower priorities never run. */
  lemma {:induction false} RoundRobin(states: seq<Kernel>, steps: seq<Step>, i: nat, j: nat, p: int)
    requires IsRun(states, steps) && i <= j < |states| && TopIs(states[i], p) && Turns(states, steps, i, j)
    ensures TopIs(states[j], p)
    ensures Line(states[j], p) == Rotated(Line(states[i], p), SwitchCount(states, steps, i, j))
  {
    forall m | i <= m < j ensures MovesOn(states, steps, m, p) {
      assert TurnAt(states, steps, m);
      TurnStep(states, steps, m, p);
    }
    LinesRotate(states, steps, i, j, p);
  }

  /** So after n switches the thread that was n-th in line, counted round and round, runs. */
  lemma {:induction false} NthInLine(states: seq<Kernel>, steps: seq<Step>, i: nat, j: nat, p: int)
    requires IsRun(states, steps) && i <= j < |states| && TopIs(states[i], p) && Turns(states, steps, i, j)
    ensures var q := Line(states[i], p); states[j].cur == q[SwitchCount(states, steps, i, j) % |q|]
  {
    RoundRobin(states, steps, i, j, p);
    var q := Line(states[i], p);
    RotatedIs(q, SwitchCount(states, steps, i, j));
    assert Line(states[j], p)[0] == states[j].cur;
  }

  /** While a thread of the highest priority has an equal, every tick of the timer that
      asks to yield does switch, and so does a call of thread_yield that nothing
      disturbs. */
  lemma TicksSwitch(k: Kernel, p: int, commit: bool)
    requires TopIs(k, p) && |Line(k, p)| > 1 && !k.panic
    ensures Enabled(k, Preempt(commit)) <==> commit
    ensures YieldTest(k, commit) <==> commit
    ensures GivesWay(k, Preempt(true))
    ensures k.threads[k.cur].pc.User? ==> GivesWay(Next(k, CallYield(true)), Advance)
  {
    assert k.ready[0] in k.ready;
  }
}
