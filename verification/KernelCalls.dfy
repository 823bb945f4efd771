/**
 Calls of the primitives, from the step that makes the call to the state in which the
 caller is back outside: what has happened when they return, in every run.
 */
module KernelCalls {
  import opened Options
  import opened KernelState
  import opened KernelInvariant
  import opened KernelSchedProof
  import opened KernelCondProof
  import opened KernelSafety
  import opened KernelRuns
  import opened KernelSteps

  // ---------------------------------------------------------------------
  // Ups and downs
  // ---------------------------------------------------------------------

  lemma StepAt(states: seq<Kernel>, steps: seq<Step>, i: nat)
    requires IsRun(states, steps) && i < |steps|
    ensures Inv(states[i]) && Enabled(states[i], steps[i]) && states[i + 1] == Next(states[i], steps[i]) && Inv(states[i + 1])
  {
    RunOk(states, steps, i);
    RunOk(states, steps, i + 1);
  }

  /** Every sema_up in every run, whoever makes it and for whatever purpose, is one up. */
  lemma UpsDo(states: seq<Kernel>, steps: seq<Step>, i: nat, s: SemaId)
    requires IsRun(states, steps) && i < |steps| && UpOn(states[i], steps[i]) == Some(s)
    ensures Upped(states[i], states[i + 1], s)
  {
    StepAt(states, steps, i);
    UpStep(states[i], steps[i], s);
  }

  /** Every test of a value in every run takes one if there is one, and otherwise puts the
      thread to sleep, or does nothing if it is sema_try_down's. */
  lemma TestsDo(states: seq<Kernel>, steps: seq<Step>, i: nat, s: SemaId)
    requires IsRun(states, steps) && i < |steps| && TestOn(states[i], steps[i]) == Some(s)
    ensures if ValueOf(states[i], s) > 0 then Downed(states[i], states[i + 1], s)
            else if steps[i].Advance? then Slept(states[i], states[i + 1], s, states[i].cur)
            else states[i + 1] == states[i]
  {
    StepAt(states, steps, i);
    if ValueOf(states[i], s) > 0 { DownStep(states[i], steps[i], s); } else { ZeroStep(states[i], steps[i], s); }
  }

  function UpSteps(states: seq<Kernel>, steps: seq<Step>, i: nat, s: SemaId): nat
    requires i <= |steps| < |states|
  {
    if i == 0 then 0 else UpSteps(states, steps, i - 1, s) + if UpOn(states[i - 1], steps[i - 1]) == Some(s) then 1 else 0
  }

  function DownSteps(states: seq<Kernel>, steps: seq<Step>, i: nat, s: SemaId): nat
    requires i <= |steps| < |states|
  {
    if i == 0 then 0 else DownSteps(states, steps, i - 1, s) + if DownOn(states[i - 1], steps[i - 1]) == Some(s) then 1 else 0
  }

  /** How the counts of s change in step i. */
  ghost predicate CountsMove(states: seq<Kernel>, steps: seq<Step>, i: nat, s: SemaId)
    requires i < |steps| < |states|
  {
    var up, down := if UpOn(states[i], steps[i]) == Some(s) then 1 else 0, if DownOn(states[i], steps[i]) == Some(s) then 1 else 0;
    s in states[i].semas ==>
      && s in states[i + 1].semas
      && states[i + 1].semas[s].ups == states[i].semas[s].ups + up
      && states[i + 1].semas[s].downs == states[i].semas[s].downs + down
      && states[i + 1].semas[s].value + down == states[i].semas[s].value + up
  }

  lemma CountStep(states: seq<Kernel>, steps: seq<Step>, i: nat, s: SemaId)
    requires IsRun(states, steps) && i < |steps| && !s.Private?
    ensures CountsMove(states, steps, i, s)
  {
    StepAt(states, steps, i);
    if UpOn(states[i], steps[i]) == Some(s) {
      UpStep(states[i], steps[i], s);
    } else if DownOn(states[i], steps[i]) == Some(s) {
      DownStep(states[i], steps[i], s);
    } else if s in states[i].semas {
      OtherStep(states[i], steps[i], s);
    }
  }

  lemma {:induction false} CountSteps(states: seq<Kernel>, steps: seq<Step>, i: nat, s: SemaId)
    requires |states| == |steps| + 1 && i < |states| && s in states[0].semas
    requires states[0].semas[s].ups == 0 == states[0].semas[s].downs
    requires forall m {:trigger CountsMove(states, steps, m, s)} :: 0 <= m < i ==> CountsMove(states, steps, m, s)
    ensures s in states[i].semas && states[i].semas[s].ups == UpSteps(states, steps, i, s)
    ensures states[i].semas[s].downs == DownSteps(states, steps, i, s)
    ensures states[i].semas[s].value + DownSteps(states, steps, i, s) == states[0].semas[s].value + UpSteps(states, steps, i, s)
  {
    if i > 0 {
      CountSteps(states, steps, i - 1, s);
      assert CountsMove(states, steps, i - 1, s);
    }
  }

  /** The value of a semaphore, or of the one in a lock, is its initial value plus the ups
      and minus the downs that were made in the run; the history counts exactly those. */
  lemma ValueCounts(states: seq<Kernel>, steps: seq<Step>, i: nat, s: SemaId)
    requires IsRun(states, steps) && i < |states| && s in states[0].semas && !s.Private?
    ensures s in states[i].semas && states[i].semas[s].ups == UpSteps(states, steps, i, s)
    ensures states[i].semas[s].downs == DownSteps(states, steps, i, s)
    ensures states[i].semas[s].value + DownSteps(states, steps, i, s) == states[0].semas[s].value + UpSteps(states, steps, i, s)
  {
    forall m | 0 <= m < i ensures CountsMove(states, steps, m, s) { CountStep(states, steps, m, s); }
    CountSteps(states, steps, i, s);
  }

  // ---------------------------------------------------------------------
  // Calls under way
  // ---------------------------------------------------------------------

  datatype Call =
    | Acquiring(l: LockId)
    | Releasing(l: LockId)
    | Downing(n: nat)
    | InWait(c: CondId, l: LockId)
    | Signalling(c: CondId, w: Tid)
    | Broadcasting(c: CondId, log: seq<Tid>)   // log: all waits on c so far
    | Creating(child: Tid, p: int)
    | Yielding

  predicate Testing(pc: Pc, why: Why) {
    pc == DownTest(why) || pc == DownAsleep(why) || pc == DownWoken(why)
  }

  /** Thread t is inside the call; for a lock, it owns it where it should. */
  ghost predicate During(call: Call, k: Kernel, t: Tid)
    requires t in k.threads
  {
    var pc, owns := k.threads[t].pc, k.threads[t].owns;
    match call
    case Acquiring(l) => (Testing(pc, Acquire(l)) && l !in owns) || (pc == SetHolder(Acquire(l)) && l in owns)
    case Releasing(l) => pc == ReleaseUp(l, None) && l in owns
    case Downing(n) => Testing(pc, Plain(n))
    case InWait(c, l) =>
      || ((pc == WaitRelease(c, l) || pc == ReleaseUp(l, Some(c))) && l in owns)
      || ((Testing(pc, Await(c, l)) || Testing(pc, Reacquire(c, l))) && l !in owns)
      || (pc == SetHolder(Reacquire(c, l)) && l in owns)
    case Signalling(c, w) => pc.SignalUp? && pc.c == c && pc.w == w && pc.mode.Single?
    case Broadcasting(c, log) =>
      && ((pc.BroadcastLoop? && pc.c == c) || (pc.SignalUp? && pc.c == c && pc.mode.Loop?))
      && c in k.conds && k.conds[c].waited == log
    case Creating(child, p) =>
      pc == CreateUnblock(child) && child in k.threads && k.threads[child].pc.Spawned? && k.threads[child].priority == p
    case Yielding => pc.YieldCommit?
  }

  /** What the last step of the call, from k to k', has brought about. */
  ghost predicate Finished(call: Call, k: Kernel, k': Kernel, t: Tid)
    requires t in k'.threads
  {
    match call
    case Acquiring(l) => l in k'.threads[t].owns && l in k'.holders && k'.holders[l] == Some(t)
    case Releasing(l) => l !in k'.threads[t].owns && Upped(k, k', OfLock(l))
    case Downing(n) => Downed(k, k', Shared(n))
    case InWait(c, l) =>
      && l in k'.threads[t].owns && l in k'.holders && k'.holders[l] == Some(t)
      && PrivateIs(k', t, 1, 1)
    case Signalling(c, w) => Upped(k, k', Private(w)) && PrivateIs(k', w, 1, 0)
    case Broadcasting(c, log) =>
      && c in k'.conds && k'.conds[c].waiters == [] && k'.conds[c].signalled == log
      && forall u :: u in k'.threads && Waiting(k'.threads[u].pc, c) ==> PrivateIs(k', u, 1, 0)
    case Creating(child, p) =>
      && child in k'.threads && k'.threads[child].status == Ready && k'.threads[child].pc.User? && child in k'.ready
      && k'.threads[child].priority == p
    case Yielding => PickedBest(k') && (k'.cur != t ==> t in k'.ready || k'.idle == Some(t))
  }

  ghost predicate Ends(call: Call, k: Kernel, k': Kernel, t: Tid)
    requires t in k.threads
  {
    t in k'.threads && (During(call, k', t) || (k'.threads[t].pc.User? && Finished(call, k, k', t)))
  }

  // ---------------------------------------------------------------------
  // The caller's own steps
  // ---------------------------------------------------------------------

  lemma TakeEnds(k: Kernel, call: Call, why: Why)
    requires k.cur in k.threads && SemaOf(why, k.cur) in k.semas && ValueOf(k, SemaOf(why, k.cur)) > 0
    requires During(call, k, k.cur) && Testing(k.threads[k.cur].pc, why) && (call.Acquiring? || call.Downing? || call.InWait?)
    ensures Ends(call, k, Take(k, why), k.cur) && (call.Downing? ==> Take(k, why).threads[k.cur].pc.User?)
  {
    TakeDoes(k, why);
  }

  lemma SleepEnds(k: Kernel, call: Call, why: Why)
    requires SchedOk(k) && k.cur != IDLE && SemaOf(why, k.cur) in k.semas && ValueOf(k, SemaOf(why, k.cur)) == 0
    requires During(call, k, k.cur) && Testing(k.threads[k.cur].pc, why) && (call.Acquiring? || call.Downing? || call.InWait?)
    ensures k.cur in Down(k, why).threads && During(call, Down(k, why), k.cur)
  {
    SleepDoes(k, why);
  }

  lemma TestEnds(k: Kernel, call: Call, why: Why)
    requires Inv(k) && Enabled(k, Advance) && During(call, k, k.cur)
    requires k.threads[k.cur].pc == DownTest(why) || k.threads[k.cur].pc == DownWoken(why)
    requires call.Acquiring? || call.Downing? || call.InWait?
    ensures Ends(call, k, Next(k, Advance), k.cur)
    ensures call.Downing? && DownOn(k, Advance).Some? ==> !During(call, Next(k, Advance), k.cur)
  {
    if ValueOf(k, SemaOf(why, k.cur)) > 0 {
      TakeEnds(k, call, why);
      assert Next(k, Advance) == Take(k, why);
    } else {
      assert StatusOk(k, k.cur);
      SleepEnds(k, call, why);
      assert Next(k, Advance) == Down(k, why);
    }
  }

  lemma HolderEnds(k: Kernel, call: Call)
    requires Inv(k) && Enabled(k, Advance) && During(call, k, k.cur) && (call.Acquiring? || call.InWait?)
    requires k.threads[k.cur].pc.SetHolder? || k.threads[k.cur].pc.WaitRelease?
    ensures Ends(call, k, Next(k, Advance), k.cur)
  {
    assert CondThreadOk(k, k.cur) && OwnOk(k, k.cur);
  }

  lemma UpEnds(k: Kernel, call: Call)
    requires Inv(k) && Enabled(k, Advance) && During(call, k, k.cur) && k.threads[k.cur].pc.ReleaseUp?
    requires call.Releasing? || call.InWait?
    ensures Ends(call, k, Next(k, Advance), k.cur)
  {
    var l, wait := k.threads[k.cur].pc.l, k.threads[k.cur].pc.wait;
    UpStep(k, Advance, OfLock(l));
    StepKeeps(k, Advance);
    UpLeaves(Disowned(k, l, match wait case None => User case Some(c) => DownTest(Await(c, l))), OfLock(l), k.cur);
  }

  lemma SignalEnds(k: Kernel, call: Call)
    requires Inv(k) && Enabled(k, Advance) && During(call, k, k.cur) && k.threads[k.cur].pc.SignalUp?
    requires call.Signalling? || call.Broadcasting?
    ensures Ends(call, k, Next(k, Advance), k.cur)
  {
    var t, w := k.cur, k.threads[k.cur].pc.w;
    assert CondThreadOk(k, t) && PrivateIs(k, w, 0, 0);
    UpStep(k, Advance, Private(w));
    StepKeeps(k, Advance);
    SignalUpIs(k);
    UpLeaves(SetPc(k, t, AfterSignal(k.threads[t].pc)), Private(w), t);
  }

  lemma BroadcastEnds(k: Kernel, call: Call)
    requires Inv(k) && Enabled(k, Advance) && During(call, k, k.cur) && k.threads[k.cur].pc.BroadcastLoop? && call.Broadcasting?
    ensures Ends(call, k, Next(k, Advance), k.cur)
  {
    var t, c := k.cur, call.c;
    assert CondOk(k, c) && OwnOk(k, t) && CondThreadOk(k, t);
    if k.conds[c].waiters == [] {
      assert k.conds[c].signalled + [] == k.conds[c].signalled;
      forall u | u in k.threads && Waiting(k.threads[u].pc, c) ensures PrivateIs(k, u, 1, 0) {
        AllUpped(k, t, c, u);
      }
    }
  }

  /** While t works on c with nobody queued, whoever still waits on c has had its up. */
  lemma AllUpped(k: Kernel, t: Tid, c: CondId, u: Tid)
    requires Inv(k) && t in k.threads && k.threads[t].pc.BroadcastLoop? && k.threads[t].pc.c == c && c in k.conds && k.conds[c].waiters == []
    requires u in k.threads && Waiting(k.threads[u].pc, c)
    ensures PrivateIs(k, u, 1, 0)
  {
    assert CondThreadOk(k, u) && CondThreadOk(k, t) && OwnOk(k, t);
    forall y | y in k.threads && WorksOn(k.threads[y].pc, c) ensures y == t {
      WorksAlone(k, t, y, c);
    }
    assert !Claimed(k, u, c);
  }

  lemma ChildStarts(k: Kernel, child: Tid)
    requires k.cur in k.threads && child in k.threads && child != k.cur && k.threads[child].status == Blocked
    requires k.threads[k.cur].pc == CreateUnblock(child) && !AdvanceStep(k).panic
    ensures var k' := AdvanceStep(k);
      && k.cur in k'.threads && k'.threads[k.cur].pc.User? && child in k'.threads && child in k'.ready
      && k'.threads[child].status == Ready && k'.threads[child].pc.User? && k'.threads[child].priority == k.threads[child].priority
  {
    var k1 := StartChild(SetPc(k, k.cur, User), child);
    EnqueueDoes(k1, child, child);
    EnqueueDoes(k1, child, k.cur);
  }

  lemma CreateEnds(k: Kernel, call: Call)
    requires Inv(k) && Enabled(k, Advance) && During(call, k, k.cur) && call.Creating?
    ensures Ends(call, k, Next(k, Advance), k.cur)
  {
    StepKeeps(k, Advance);
    assert StatusOk(k, call.child);
    ChildStarts(k, call.child);
  }

  lemma YieldEnds(k: Kernel, call: Call)
    requires Inv(k) && Enabled(k, Advance) && During(call, k, k.cur) && call.Yielding?
    ensures Ends(call, k, Next(k, Advance), k.cur)
  {
    var t, k' := k.cur, Next(k, Advance);
    assert StatusOk(k, t);
    YieldDoes(k, User, t);
    YieldKeeps(k, User);
    StepKeeps(k, Advance);
    assert StatusOk(k', t);
    YieldReadies(k, User);
  }

  /** A thread that gives way does not block. */
  lemma YieldReadies(k: Kernel, pc: Pc)
    requires SchedOk(k) && k.cur != IDLE && SchedOk(Yield(k, pc)) && k.cur in Yield(k, pc).threads
    ensures Yield(k, pc).threads[k.cur].status in {Ready, Running}
  {
    assert StatusOk(k, k.cur);
    var k1 := Enqueue(SetPc(k, k.cur, pc), k.cur);
    assert Yield(k, pc) == Schedule(k1);
  }

  /** The caller's own next step brings the call on, or ends it. */
  lemma OwnStep(k: Kernel, call: Call)
    requires Inv(k) && Enabled(k, Advance) && During(call, k, k.cur)
    ensures Ends(call, k, Next(k, Advance), k.cur)
    ensures call.Downing? && DownOn(k, Advance).Some? ==> !During(call, Next(k, Advance), k.cur)
  {
    var pc := k.threads[k.cur].pc;
    match call {
      case Signalling(_, _) => SignalEnds(k, call);
      case Broadcasting(_, _) => if pc.SignalUp? { SignalEnds(k, call); } else { BroadcastEnds(k, call); }
      case Creating(_, _) => CreateEnds(k, call);
      case Yielding => YieldEnds(k, call);
      case Releasing(_) => UpEnds(k, call);
      case Downing(n) => TestEnds(k, call, Plain(n));
      case Acquiring(l) => if pc.SetHolder? { HolderEnds(k, call); } else { TestEnds(k, call, Acquire(l)); }
      case InWait(c, l) =>
        if pc.ReleaseUp? { UpEnds(k, call); }
        else if pc.SetHolder? || pc.WaitRelease? { HolderEnds(k, call); }
        else { TestEnds(k, call, pc.why); }
    }
  }

  // ---------------------------------------------------------------------
  // The steps of others
  // ---------------------------------------------------------------------

  /** Only cond_wait on c adds to the log of waits on c. */
  lemma LogSame(k: Kernel, step: Step, c: CondId)
    requires Inv(k) && Enabled(k, step) && c in k.conds && step != CallWait(c)
    ensures c in Next(k, step).conds && Next(k, step).conds[c].waited == k.conds[c].waited
  {
    if UpOn(k, step).Some? {
      UpStep(k, step, UpOn(k, step).value);
    } else if TestOn(k, step).Some? {
      TestLog(k, step, TestOn(k, step).value);
    } else {
      StepKeeps(k, step);
      PlainLog(k, step, c);
    }
  }

  lemma TestLog(k: Kernel, step: Step, s: SemaId)
    requires Inv(k) && Enabled(k, step) && TestOn(k, step) == Some(s)
    ensures Next(k, step).conds == k.conds
  {
    if ValueOf(k, s) > 0 { DownStep(k, step, s); } else { ZeroStep(k, step, s); }
  }

  lemma PlainLog(k: Kernel, step: Step, c: CondId)
    requires Enabled(k, step) && !Next(k, step).panic && c in k.conds && step != CallWait(c)
    requires UpOn(k, step).None? && TestOn(k, step).None?
    ensures c in Next(k, step).conds && Next(k, step).conds[c].waited == k.conds[c].waited
  {
    match step {
      case Preempt(commit) => YieldDoes(k, k.threads[k.cur].pc, k.cur);
      case CallExit => StopDoes(k, Dying, Exited, k.cur);
      case Advance => AdvanceLog(k, c);
      case _ =>
    }
  }

  lemma SwitchLog(k: Kernel, c: CondId)
    requires Enabled(k, Advance) && !AdvanceStep(k).panic && c in k.conds
    requires k.threads[k.cur].pc.YieldCommit? || k.threads[k.cur].pc.IdleLoop?
    ensures c in AdvanceStep(k).conds && AdvanceStep(k).conds[c].waited == k.conds[c].waited
  {
    if k.threads[k.cur].pc.YieldCommit? { YieldDoes(k, User, k.cur); } else { StopDoes(k, Blocked, IdleLoop, k.cur); }
  }

  lemma UnblockLog(k: Kernel, c: CondId)
    requires Enabled(k, Advance) && !AdvanceStep(k).panic && c in k.conds && k.threads[k.cur].pc.CreateUnblock?
    ensures c in AdvanceStep(k).conds && AdvanceStep(k).conds[c].waited == k.conds[c].waited
  {
    var child := k.threads[k.cur].pc.child;
    EnqueueDoes(StartChild(SetPc(k, k.cur, User), child), child, child);
  }

  lemma AdvanceLog(k: Kernel, c: CondId)
    requires Enabled(k, Advance) && !AdvanceStep(k).panic && c in k.conds && UpOn(k, Advance).None? && TestOn(k, Advance).None?
    ensures c in AdvanceStep(k).conds && AdvanceStep(k).conds[c].waited == k.conds[c].waited
  {
    var pc := k.threads[k.cur].pc;
    if pc.YieldCommit? || pc.IdleLoop? {
      SwitchLog(k, c);
    } else if pc.CreateUnblock? {
      UnblockLog(k, c);
    }
  }

  /** While t broadcasts, nobody else has the lock that a wait on c needs. */
  lemma NoWaitMeanwhile(k: Kernel, t: Tid, c: CondId, log: seq<Tid>)
    requires Inv(k) && t in k.threads && During(Broadcasting(c, log), k, t)
    ensures !Enabled(k, CallWait(c))
  {
    assert CondThreadOk(k, t) && OwnOk(k, t);
    if Holds(k, k.conds[c].lock) { HolderOwns(k, k.conds[c].lock); }
  }

  lemma BroadcastLeft(k: Kernel, step: Step, t: Tid, call: Call)
    requires Inv(k) && Enabled(k, step) && t in k.threads && During(call, k, t) && call.Broadcasting?
    requires t in Next(k, step).threads && Stays(k.threads[t], Next(k, step).threads[t])
    ensures During(call, Next(k, step), t)
  {
    NoWaitMeanwhile(k, t, call.c, call.log);
    LogSame(k, step, call.c);
  }

  lemma CreateLeft(k: Kernel, step: Step, t: Tid, call: Call)
    requires Inv(k) && Enabled(k, step) && t in k.threads && During(call, k, t) && call.Creating?
    requires t in Next(k, step).threads && Stays(k.threads[t], Next(k, step).threads[t])
    ensures During(call, Next(k, step), t)
  {
    StepKeeps(k, step);
    assert StatusOk(k, k.cur) && StatusOk(k, call.child);
    Bystander(k, step, call.child);
  }

  /** Others, the timer and interrupt handlers leave the call where it is. */
  lemma OthersLeave(k: Kernel, step: Step, t: Tid, call: Call)
    requires Inv(k) && Enabled(k, step) && t in k.threads && During(call, k, t) && !(t == k.cur && step.Advance?)
    ensures t in Next(k, step).threads && During(call, Next(k, step), t)
  {
    Bystander(k, step, t);
    if call.Broadcasting? {
      BroadcastLeft(k, step, t, call);
    } else if call.Creating? {
      CreateLeft(k, step, t, call);
    }
  }

  // ---------------------------------------------------------------------
  // From a call to its return
  // ---------------------------------------------------------------------

  ghost predicate Outside(k: Kernel, t: Tid) {
    t in k.threads && k.threads[t].pc.User?
  }

  /** j is the first state after i in which t is outside the primitives. */
  ghost predicate Returns(states: seq<Kernel>, i: nat, j: nat, t: Tid) {
    i < j < |states| && Outside(states[j], t) && forall m {:trigger Outside(states[m], t)} :: i < m < j ==> !Outside(states[m], t)
  }

  ghost predicate Inside(states: seq<Kernel>, m: nat, t: Tid, call: Call) {
    m < |states| && t in states[m].threads && During(call, states[m], t)
  }

  /** The call goes on over step m, or that step is the caller's and finishes it. */
  ghost predicate GoesOn(states: seq<Kernel>, steps: seq<Step>, m: nat, t: Tid, call: Call) {
    m < |steps| < |states| &&
    (Inside(states, m, t, call) ==>
      || (Inside(states, m + 1, t, call) && (call.Downing? ==> !TakesFor(states[m], steps[m], t)))
      || (&& Outside(states[m + 1], t) && states[m].cur == t && steps[m].Advance? && Finished(call, states[m], states[m + 1], t)
          && (call.Downing? ==> TakesFor(states[m], steps[m], t))))
  }

  /** A down that t makes in a call of sema_down or lock_acquire. */
  predicate TakesFor(k: Kernel, step: Step, t: Tid) {
    k.cur == t && step.Advance? && DownOn(k, step).Some?
  }

  lemma CallGoesOn(states: seq<Kernel>, steps: seq<Step>, m: nat, t: Tid, call: Call)
    requires IsRun(states, steps) && m < |steps|
    ensures GoesOn(states, steps, m, t, call)
  {
    StepAt(states, steps, m);
    if Inside(states, m, t, call) {
      if t == states[m].cur && steps[m].Advance? {
        OwnStep(states[m], call);
        if call.Downing? && DownOn(states[m], Advance).None? { DownsOnly(states[m], call.n); }
      } else {
        OthersLeave(states[m], steps[m], t, call);
      }
    }
  }

  /** A thread inside sema_down goes on only by taking. */
  lemma DownsOnly(k: Kernel, n: nat)
    requires Inv(k) && Enabled(k, Advance) && During(Downing(n), k, k.cur) && DownOn(k, Advance).None?
    ensures k.cur in Next(k, Advance).threads && During(Downing(n), Next(k, Advance), k.cur)
  {
    assert StatusOk(k, k.cur) && WaitOk(k, k.cur);
    SleepEnds(k, Downing(n), Plain(n));
  }

  /** Until the first state outside, the caller is inside the call, and the last step before
      that state is its own and finishes the call. */
  lemma {:induction false} UntilReturn(states: seq<Kernel>, steps: seq<Step>, i: nat, j: nat, t: Tid, call: Call)
    requires |states| == |steps| + 1 && i < j < |states| && Inside(states, i, t, call) && Outside(states[j], t)
    requires forall m {:trigger Outside(states[m], t)} :: i < m < j ==> !Outside(states[m], t)
    requires forall m {:trigger GoesOn(states, steps, m, t, call)} :: i <= m < j ==> GoesOn(states, steps, m, t, call)
    ensures forall m {:trigger Inside(states, m, t, call)} :: i <= m < j ==> Inside(states, m, t, call)
    ensures states[j - 1].cur == t && steps[j - 1].Advance? && Finished(call, states[j - 1], states[j], t)
    ensures call.Downing? ==> forall m {:trigger TakesFor(states[m], steps[m], t)} :: i <= m < j ==> (TakesFor(states[m], steps[m], t) <==> m == j - 1)
    decreases j - i
  {
    assert GoesOn(states, steps, i, t, call);
    if i + 1 < j {
      assert !Outside(states[i + 1], t);
      UntilReturn(states, steps, i + 1, j, t, call);
    } else {
      NotBoth(states[j], t, call);
    }
  }

  lemma NotBoth(k: Kernel, t: Tid, call: Call)
    requires Outside(k, t)
    ensures !During(call, k, t)
  {
  }

  lemma CallReturns(states: seq<Kernel>, steps: seq<Step>, i: nat, j: nat, t: Tid, call: Call)
    requires IsRun(states, steps) && Returns(states, i, j, t) && Inside(states, i + 1, t, call)
    ensures i + 1 < j && states[j - 1].cur == t && steps[j - 1].Advance? && Finished(call, states[j - 1], states[j], t)
    ensures forall m {:trigger Inside(states, m, t, call)} :: i < m < j ==> Inside(states, m, t, call)
    ensures call.Downing? ==> forall m {:trigger TakesFor(states[m], steps[m], t)} :: i < m < j ==> (TakesFor(states[m], steps[m], t) <==> m == j - 1)
  {
    if i + 1 == j { NotBoth(states[j], t, call); }
    forall m | i + 1 <= m < j ensures GoesOn(states, steps, m, t, call) { CallGoesOn(states, steps, m, t, call); }
    UntilReturn(states, steps, i + 1, j, t, call);
  }

  // ---------------------------------------------------------------------
  // Locks
  // ---------------------------------------------------------------------

  /** A thread outside all primitives that does not hold a lock does not own it. */
  lemma NotOwned(k: Kernel, l: LockId)
    requires Inv(k) && k.threads[k.cur].pc.User? && !Holds(k, l)
    ensures l !in k.threads[k.cur].owns
  {
    assert OwnOk(k, k.cur);
  }

  /** When lock_acquire returns, the caller owns the lock and is its holder. */
  lemma AcquireReturns(states: seq<Kernel>, steps: seq<Step>, i: nat, j: nat, l: LockId)
    requires IsRun(states, steps) && i < |steps| && steps[i] == CallAcquire(l) && Returns(states, i, j, states[i].cur)
    ensures var t := states[i].cur; t in states[i].threads && l !in states[i].threads[t].owns
    ensures var t, k := states[i].cur, states[j]; l in k.threads[t].owns && l in k.holders && k.holders[l] == Some(t)
  {
    StepAt(states, steps, i);
    NotOwned(states[i], l);
    CallReturns(states, steps, i, j, states[i].cur, Acquiring(l));
  }

  /** lock_try_acquire takes the lock exactly if its semaphore was positive, and otherwise
      does nothing. */
  lemma TryAcquireReturns(states: seq<Kernel>, steps: seq<Step>, i: nat, j: nat, l: LockId)
    requires IsRun(states, steps) && i < |steps| && steps[i] == CallTryAcquire(l) && Returns(states, i, j, states[i].cur)
    ensures var t, k := states[i].cur, states[j];
      if ValueOf(states[i], OfLock(l)) > 0 then l in k.threads[t].owns && l in k.holders && k.holders[l] == Some(t)
      else j == i + 1 && k == states[i] && l !in k.threads[t].owns
  {
    StepAt(states, steps, i);
    var k, t := states[i], states[i].cur;
    NotOwned(k, l);
    if ValueOf(k, OfLock(l)) > 0 {
      TakeDoes(k, Acquire(l));
      CallReturns(states, steps, i, j, t, Acquiring(l));
    } else {
      ZeroStep(k, steps[i], OfLock(l));
      assert Outside(states[i + 1], t);
    }
  }

  /** Nobody but its owner ups the semaphore of an owned lock, and nobody downs it. */
  lemma OwnersOnly(k: Kernel, step: Step, t: Tid, l: LockId)
    requires LocksOk(k) && Enabled(k, step) && k.cur in k.threads && t in k.threads && l in k.threads[t].owns && !(k.cur == t && step.Advance?)
    ensures UpOn(k, step) != Some(OfLock(l)) && OfLock(l) in k.semas && k.semas[OfLock(l)].value == 0 && DownOn(k, step) != Some(OfLock(l))
  {
    assert OwnOk(k, t) && OwnOk(k, k.cur) && LockOk(k, l);
  }

  /** During a release nobody else moves the lock's semaphore. */
  lemma ReleaseAlone(states: seq<Kernel>, steps: seq<Step>, m: nat, t: Tid, l: LockId)
    requires IsRun(states, steps) && m < |steps| && Inside(states, m, t, Releasing(l)) && !(states[m].cur == t && steps[m].Advance?)
    ensures SameCounts(states[m], states[m + 1], OfLock(l)) && states[m].semas[OfLock(l)].value == 0
  {
    StepAt(states, steps, m);
    OwnersOnly(states[m], steps[m], t, l);
    OtherStep(states[m], steps[m], OfLock(l));
  }

  lemma ReleaseBegins(states: seq<Kernel>, steps: seq<Step>, i: nat, l: LockId)
    requires IsRun(states, steps) && i < |steps| && steps[i] == CallRelease(l)
    ensures var t := states[i].cur; t in states[i].threads && l in states[i].threads[t].owns && Inside(states, i + 1, t, Releasing(l))
    ensures Quiet(states, i, OfLock(l)) && states[i].semas[OfLock(l)].value == 0
  {
    StepAt(states, steps, i);
    HolderOwns(states[i], l);
    assert LockOk(states[i], l);
  }

  lemma ReleaseQuiet(states: seq<Kernel>, steps: seq<Step>, m: nat, t: Tid, l: LockId)
    requires IsRun(states, steps) && m < |steps| && Inside(states, m, t, Releasing(l)) && Inside(states, m + 1, t, Releasing(l))
    ensures Quiet(states, m, OfLock(l))
  {
    ReleaseNotYet(states, steps, m, t, l);
    ReleaseAlone(states, steps, m, t, l);
  }

  lemma {:induction false} Carries(p: nat -> bool, i: nat, j: nat)
    requires i <= j && p(i) && forall m: nat :: i <= m < j && p(m) ==> p(m + 1)
    ensures p(j)
    decreases j
  {
    if i < j { Carries(p, i, j - 1); }
  }

  ghost predicate Quiet(states: seq<Kernel>, m: nat, s: SemaId) {
    m + 1 < |states| && SameCounts(states[m], states[m + 1], s)
  }

  lemma {:induction false} QuietSpan(states: seq<Kernel>, i: nat, j: nat, s: SemaId)
    requires i <= j < |states| && s in states[i].semas
    requires forall m {:trigger Quiet(states, m, s)} :: i <= m < j ==> Quiet(states, m, s)
    ensures SameCounts(states[i], states[j], s)
    decreases j
  {
    if i < j {
      QuietSpan(states, i, j - 1, s);
      assert Quiet(states, j - 1, s);
    }
  }

  lemma ReleaseSpan(states: seq<Kernel>, steps: seq<Step>, i: nat, j: nat, t: Tid, l: LockId)
    requires IsRun(states, steps) && i <= j < |states|
    requires forall m {:trigger Inside(states, m, t, Releasing(l))} :: i <= m <= j ==> Inside(states, m, t, Releasing(l))
    ensures forall m {:trigger Quiet(states, m, OfLock(l))} :: i <= m < j ==> Quiet(states, m, OfLock(l))
  {
    forall m {:trigger Quiet(states, m, OfLock(l))} | i <= m < j ensures Quiet(states, m, OfLock(l)) {
      assert Inside(states, m, t, Releasing(l)) && Inside(states, m + 1, t, Releasing(l));
      ReleaseQuiet(states, steps, m, t, l);
    }
  }

  lemma ReleaseKept(states: seq<Kernel>, steps: seq<Step>, i: nat, j: nat, t: Tid, l: LockId)
    requires IsRun(states, steps) && i + 1 < j < |states| && OfLock(l) in states[i].semas && Quiet(states, i, OfLock(l))
    requires forall m {:trigger Inside(states, m, t, Releasing(l))} :: i < m < j ==> Inside(states, m, t, Releasing(l))
    ensures SameCounts(states[i], states[j - 1], OfLock(l))
  {
    ReleaseSpan(states, steps, i + 1, j - 1, t, l);
    QuietSpan(states, i, j - 1, OfLock(l));
  }

  /** One up of a semaphore whose counts have not moved before it. */
  lemma OneMore(k: Kernel, k1: Kernel, k': Kernel, s: SemaId)
    requires SameCounts(k, k1, s) && Upped(k1, k', s)
    ensures k'.semas[s].ups == k.semas[s].ups + 1 && k'.semas[s].value == k.semas[s].value + 1
  {
  }

  /** When lock_release returns, the caller does not own the lock any more, and its
      semaphore has had exactly one up, from zero, since the call. */
  lemma ReleaseReturns(states: seq<Kernel>, steps: seq<Step>, i: nat, j: nat, l: LockId)
    requires IsRun(states, steps) && i < |steps| && steps[i] == CallRelease(l) && Returns(states, i, j, states[i].cur)
    ensures var t := states[i].cur;
      && t in states[i].threads && l in states[i].threads[t].owns && l !in states[j].threads[t].owns
      && OfLock(l) in states[i].semas && OfLock(l) in states[j].semas
      && states[i].semas[OfLock(l)].value == 0 && states[j].semas[OfLock(l)].value == 1
      && states[j].semas[OfLock(l)].ups == states[i].semas[OfLock(l)].ups + 1
      && Upped(states[j - 1], states[j], OfLock(l))
  {
    var t := states[i].cur;
    ReleaseBegins(states, steps, i, l);
    CallReturns(states, steps, i, j, t, Releasing(l));
    ReleaseKept(states, steps, i, j, t, l);
    OneMore(states[i], states[j - 1], states[j], OfLock(l));
  }

  /** The caller's own step would have ended the release. */
  lemma ReleaseNotYet(states: seq<Kernel>, steps: seq<Step>, m: nat, t: Tid, l: LockId)
    requires IsRun(states, steps) && m < |steps| && Inside(states, m, t, Releasing(l)) && Inside(states, m + 1, t, Releasing(l))
    ensures !(states[m].cur == t && steps[m].Advance?)
  {
    StepAt(states, steps, m);
    if states[m].cur == t && steps[m].Advance? {
      UpLeaves(Disowned(states[m], l, User), OfLock(l), t);
    }
  }

  // ---------------------------------------------------------------------
  // Semaphores
  // ---------------------------------------------------------------------

  /** When sema_down returns, the caller has taken from the semaphore exactly once since the
      call, in its last step. */
  lemma DownReturns(states: seq<Kernel>, steps: seq<Step>, i: nat, j: nat, n: nat)
    requires IsRun(states, steps) && i < |steps| && steps[i] == CallDown(n) && Returns(states, i, j, states[i].cur)
    ensures Downed(states[j - 1], states[j], Shared(n))
    ensures forall m {:trigger TakesFor(states[m], steps[m], states[i].cur)} :: i < m < j ==>
      (TakesFor(states[m], steps[m], states[i].cur) <==> m == j - 1)
  {
    StepAt(states, steps, i);
    CallReturns(states, steps, i, j, states[i].cur, Downing(n));
  }

  /** sema_try_down takes exactly if the value is positive, and returns at once. */
  lemma TryDownReturns(states: seq<Kernel>, steps: seq<Step>, i: nat, n: nat)
    requires IsRun(states, steps) && i < |steps| && steps[i] == CallTryDown(n)
    ensures Outside(states[i + 1], states[i].cur)
    ensures if ValueOf(states[i], Shared(n)) > 0 then Downed(states[i], states[i + 1], Shared(n)) else states[i + 1] == states[i]
  {
    StepAt(states, steps, i);
    if ValueOf(states[i], Shared(n)) > 0 { TakeDoes(states[i], Plain(n)); }
    TestsDo(states, steps, i, Shared(n));
  }

  // ---------------------------------------------------------------------
  // Condition variables
  // ---------------------------------------------------------------------

  lemma WaitBegins(states: seq<Kernel>, steps: seq<Step>, i: nat, c: CondId)
    requires IsRun(states, steps) && i < |steps| && steps[i] == CallWait(c)
    ensures c in states[i].conds && c in states[i + 1].conds
    ensures states[i + 1].conds[c].waiters == states[i].conds[c].waiters + [states[i].cur] && PrivateIs(states[i + 1], states[i].cur, 0, 0)
    ensures Inside(states, i + 1, states[i].cur, InWait(c, states[i].conds[c].lock))
    ensures Releases(states, i + 1, states[i].cur, c, states[i].conds[c].lock)
  {
    StepAt(states, steps, i);
    HolderOwns(states[i], states[i].conds[c].lock);
  }

  /** While a thread waits for its own semaphore it does not own the lock. */
  lemma AwaitsWithout(states: seq<Kernel>, m: nat, t: Tid, c: CondId, l: LockId)
    requires Inside(states, m, t, InWait(c, l)) && Testing(states[m].threads[t].pc, Await(c, l))
    ensures l !in states[m].threads[t].owns
  {
  }

  lemma NotQueued(states: seq<Kernel>, steps: seq<Step>, j: nat, t: Tid, c: CondId)
    requires IsRun(states, steps) && j < |states| && Outside(states[j], t) && c in states[j].conds
    ensures t !in states[j].conds[c].waiters
  {
    RunOk(states, steps, j);
    assert CondOk(states[j], c);
  }

  /** cond_wait queues its caller with a fresh semaphore.  While it waits for that
      semaphore it does not own the lock.  When it returns, its semaphore has had one up and
      one down, it is in no queue of the condition, and it owns and holds the lock. */
  lemma WaitReturns(states: seq<Kernel>, steps: seq<Step>, i: nat, j: nat, c: CondId)
    requires IsRun(states, steps) && i < |steps| && steps[i] == CallWait(c) && Returns(states, i, j, states[i].cur)
    ensures c in states[i].conds && c in states[i + 1].conds && c in states[j].conds
    ensures states[i + 1].conds[c].waiters == states[i].conds[c].waiters + [states[i].cur] && PrivateIs(states[i + 1], states[i].cur, 0, 0)
    ensures forall m {:trigger states[m].threads} ::
      i < m < j ==> states[i].cur in states[m].threads && (Testing(states[m].threads[states[i].cur].pc, Await(c, states[i].conds[c].lock)) ==> states[i].conds[c].lock !in states[m].threads[states[i].cur].owns)
    ensures var t, l, k := states[i].cur, states[i].conds[c].lock, states[j];
      && l in k.threads[t].owns && l in k.holders && k.holders[l] == Some(t)
      && PrivateIs(k, t, 1, 1) && t !in k.conds[c].waiters
  {
    WaitBegins(states, steps, i, c);
    var t, l := states[i].cur, states[i].conds[c].lock;
    CallReturns(states, steps, i, j, t, InWait(c, l));
    forall m {:trigger states[m].threads} | i < m < j
      ensures t in states[m].threads && (Testing(states[m].threads[t].pc, Await(c, l)) ==> l !in states[m].threads[t].owns)
    {
      assert Inside(states, m, t, InWait(c, l));
      if Testing(states[m].threads[t].pc, Await(c, l)) { AwaitsWithout(states, m, t, c, l); }
    }
    CondStays(states, steps, i, j, c);
    NotQueued(states, steps, j, t, c);
  }

  /** t has queued for c and not yet given back the lock. */
  ghost predicate Releases(states: seq<Kernel>, m: nat, t: Tid, c: CondId, l: LockId) {
    m < |states| && t in states[m].threads && (states[m].threads[t].pc == WaitRelease(c, l) || states[m].threads[t].pc == ReleaseUp(l, Some(c)))
  }

  ghost predicate UpsFor(states: seq<Kernel>, steps: seq<Step>, m: nat, t: Tid, s: SemaId) {
    m < |steps| && m < |states| && states[m].cur == t && UpOn(states[m], steps[m]) == Some(s)
  }

  lemma ReleasesOn(states: seq<Kernel>, steps: seq<Step>, m: nat, t: Tid, c: CondId, l: LockId)
    requires IsRun(states, steps) && m < |steps| && Releases(states, m, t, c, l)
    ensures Releases(states, m + 1, t, c, l) || UpsFor(states, steps, m, t, OfLock(l))
  {
    StepAt(states, steps, m);
    if !(states[m].cur == t && steps[m].Advance?) { Bystander(states[m], steps[m], t); }
  }

  lemma {:induction false} LastReleases(states: seq<Kernel>, i: nat, j: nat, t: Tid, c: CondId, l: LockId) returns (m: nat)
    requires i <= j && Releases(states, i, t, c, l) && !Releases(states, j, t, c, l)
    ensures i <= m < j && Releases(states, m, t, c, l) && !Releases(states, m + 1, t, c, l)
    decreases j
  {
    m := j - 1;
    if !Releases(states, m, t, c, l) { m := LastReleases(states, i, m, t, c, l); }
  }

  /** In every cond_wait that returns the caller has made an up of the lock's semaphore. */
  lemma WaitReleases(states: seq<Kernel>, steps: seq<Step>, i: nat, j: nat, c: CondId) returns (m: nat)
    requires IsRun(states, steps) && i < |steps| && steps[i] == CallWait(c) && Returns(states, i, j, states[i].cur)
    ensures c in states[i].conds && i < m < j && states[m].cur == states[i].cur
    ensures Upped(states[m], states[m + 1], OfLock(states[i].conds[c].lock))
  {
    WaitBegins(states, steps, i, c);
    var t, l := states[i].cur, states[i].conds[c].lock;
    m := LastReleases(states, i + 1, j, t, c, l);
    ReleasesOn(states, steps, m, t, c, l);
    UpsDo(states, steps, m, OfLock(l));
  }

  lemma {:induction false} CondStays(states: seq<Kernel>, steps: seq<Step>, i: nat, j: nat, c: CondId)
    requires IsRun(states, steps) && i <= j < |states| && c in states[i].conds
    ensures c in states[j].conds
  {
    var p := (m: nat) => m < |states| && c in states[m].conds;
    forall m: nat | i <= m < j && p(m) ensures p(m + 1) { CondStep(states, steps, m, c); }
    Carries(p, i, j);
  }

  lemma CondStep(states: seq<Kernel>, steps: seq<Step>, m: nat, c: CondId)
    requires IsRun(states, steps) && m < |steps| && c in states[m].conds
    ensures c in states[m + 1].conds
  {
    StepAt(states, steps, m);
    if steps[m] != CallWait(c) { LogSame(states[m], steps[m], c); }
  }

  lemma SignalBegins(states: seq<Kernel>, steps: seq<Step>, i: nat, c: CondId)
    requires IsRun(states, steps) && i < |steps| && steps[i] == CallSignal(c)
    ensures c in states[i].conds && c in states[i + 1].conds
    ensures var q := states[i].conds[c].waiters;
      if q == [] then Outside(states[i + 1], states[i].cur) && states[i + 1] == states[i]
      else
        && states[i + 1].conds == states[i].conds[c := states[i + 1].conds[c]]
        && states[i + 1].conds[c].waiters == q[1..] && states[i + 1].conds[c].signalled == states[i].conds[c].signalled + [q[0]]
        && Inside(states, i + 1, states[i].cur, Signalling(c, q[0]))
  {
    StepAt(states, steps, i);
  }

  /** cond_signal with nobody waiting does nothing.  Otherwise it pops the first waiter, and
      when it returns it has made the one up of that waiter's semaphore. */
  lemma SignalReturns(states: seq<Kernel>, steps: seq<Step>, i: nat, j: nat, c: CondId)
    requires IsRun(states, steps) && i < |steps| && steps[i] == CallSignal(c) && Returns(states, i, j, states[i].cur)
    ensures c in states[i].conds && c in states[i + 1].conds
    ensures var q, k := states[i].conds[c].waiters, states[j];
      if q == [] then j == i + 1 && k == states[i]
      else
        && states[i + 1].conds == states[i].conds[c := states[i + 1].conds[c]]
        && states[i + 1].conds[c].waiters == q[1..] && states[i + 1].conds[c].signalled == states[i].conds[c].signalled + [q[0]]
        && states[j - 1].cur == states[i].cur && Upped(states[j - 1], k, Private(q[0])) && PrivateIs(k, q[0], 1, 0)
  {
    SignalBegins(states, steps, i, c);
    var q, t := states[i].conds[c].waiters, states[i].cur;
    if q != [] { CallReturns(states, steps, i, j, t, Signalling(c, q[0])); }
  }

  /** When cond_broadcast returns, the signals since the call are exactly the waiters it
      found, in order, nobody is queued, and whoever still waits has had its up. */
  lemma BroadcastReturns(states: seq<Kernel>, steps: seq<Step>, i: nat, j: nat, c: CondId)
    requires IsRun(states, steps) && i < |steps| && steps[i] == CallBroadcast(c) && Returns(states, i, j, states[i].cur)
    ensures c in states[i].conds && c in states[j].conds
    ensures states[j].conds[c].signalled == states[i].conds[c].signalled + states[i].conds[c].waiters
    ensures states[j].conds[c].waiters == []
    ensures forall u :: u in states[j].threads && Waiting(states[j].threads[u].pc, c) ==> PrivateIs(states[j], u, 1, 0)
  {
    StepAt(states, steps, i);
    assert CondOk(states[i], c);
    CallReturns(states, steps, i, j, states[i].cur, Broadcasting(c, states[i].conds[c].waited));
  }

  // ---------------------------------------------------------------------
  // Threads
  // ---------------------------------------------------------------------

  /** When thread_create returns, the new thread is ready, at its start, with its priority. */
  lemma CreateReturns(states: seq<Kernel>, steps: seq<Step>, i: nat, j: nat, child: Tid, p: int)
    requires IsRun(states, steps) && i < |steps| && steps[i] == CallCreate(child, p) && Returns(states, i, j, states[i].cur)
    ensures child !in states[i].threads && child in states[j].threads && child in states[j].ready
    ensures var th := states[j].threads[child]; th.status == Ready && th.pc.User? && th.priority == p && th.owns == {}
  {
    StepAt(states, steps, i);
    CallReturns(states, steps, i, j, states[i].cur, Creating(child, p));
    OwnsNothing(states, steps, i, j, child, p);
  }

  /** A thread that has not started owns no lock. */
  lemma OwnsNothing(states: seq<Kernel>, steps: seq<Step>, i: nat, j: nat, child: Tid, p: int)
    requires IsRun(states, steps) && i + 1 < j < |states| && steps[i] == CallCreate(child, p)
    requires forall m {:trigger Inside(states, m, states[i].cur, Creating(child, p))} :: i < m < j ==>
      Inside(states, m, states[i].cur, Creating(child, p))
    ensures child in states[j].threads && states[j].threads[child].owns == {}
  {
    StepAt(states, steps, i);
    SpawnedOwns(states, steps, i + 1, j, states[i].cur, child, p);
  }

  lemma {:induction false} SpawnedOwns(states: seq<Kernel>, steps: seq<Step>, i: nat, j: nat, t: Tid, child: Tid, p: int)
    requires IsRun(states, steps) && i <= j < |states| && child in states[i].threads && states[i].threads[child].owns == {}
    requires forall m {:trigger Inside(states, m, t, Creating(child, p))} :: i <= m < j ==> Inside(states, m, t, Creating(child, p))
    ensures child in states[j].threads && states[j].threads[child].owns == {}
  {
    var q := (m: nat) => m < |states| && child in states[m].threads && states[m].threads[child].owns == {};
    forall m: nat | i <= m < j && q(m) ensures q(m + 1) {
      assert Inside(states, m, t, Creating(child, p));
      SpawnedStep(states, steps, m, child);
    }
    Carries(q, i, j);
  }

  lemma SpawnedStep(states: seq<Kernel>, steps: seq<Step>, m: nat, child: Tid)
    requires IsRun(states, steps) && m < |steps| && child in states[m].threads && states[m].threads[child].pc.Spawned?
    ensures child in states[m + 1].threads && states[m + 1].threads[child].owns == states[m].threads[child].owns
  {
    StepAt(states, steps, m);
    assert StatusOk(states[m], child) && StatusOk(states[m], states[m].cur);
    Bystander(states[m], steps[m], child);
  }

  /** thread_set_priority sets the priority of its caller, and nothing else but where the
      caller goes on: it may have to yield. */
  lemma SetPriorityDoes(states: seq<Kernel>, steps: seq<Step>, i: nat, p: int, commit: bool)
    requires IsRun(states, steps) && i < |steps| && steps[i] == CallSetPriority(p, commit)
    ensures var t, k, k' := states[i].cur, states[i], states[i + 1];
      && t in k.threads && t in k'.threads && k'.threads[t].priority == p && k'.threads[t].owns == k.threads[t].owns
      && k'.threads[t].pc == (if commit then YieldCommit else User)
      && k' == k.(threads := k.threads[t := k'.threads[t]])
  {
    StepAt(states, steps, i);
  }

  lemma YieldBegins(states: seq<Kernel>, steps: seq<Step>, i: nat)
    requires IsRun(states, steps) && i < |steps|
    requires steps[i] == CallYield(true) || (steps[i].CallSetPriority? && steps[i].commit)
    ensures Inside(states, i + 1, states[i].cur, Yielding)
  {
    StepAt(states, steps, i);
  }

  lemma UserNotIdle(states: seq<Kernel>, steps: seq<Step>, j: nat, t: Tid)
    requires IsRun(states, steps) && j < |states| && Outside(states[j], t)
    ensures states[j].idle != Some(t)
  {
    RunOk(states, steps, j);
    assert StatusOk(states[j], t);
  }

  /** When a yield that has begun is over, the best thread runs and the caller is ready if it
      is not that thread. */
  lemma YieldReturns(states: seq<Kernel>, steps: seq<Step>, i: nat, j: nat)
    requires IsRun(states, steps) && i < |steps| && Returns(states, i, j, states[i].cur)
    requires steps[i] == CallYield(true) || (steps[i].CallSetPriority? && steps[i].commit)
    ensures PickedBest(states[j]) && (states[j].cur != states[i].cur ==> states[i].cur in states[j].ready)
  {
    YieldBegins(states, steps, i);
    CallReturns(states, steps, i, j, states[i].cur, Yielding);
    UserNotIdle(states, steps, j, states[i].cur);
  }

  /** After a tick that made the current thread give way the best thread runs. */
  lemma TickPicksBest(states: seq<Kernel>, steps: seq<Step>, i: nat)
    requires IsRun(states, steps) && i < |steps| && steps[i] == Preempt(true)
    ensures PickedBest(states[i + 1])
  {
    StepAt(states, steps, i);
    assert StatusOk(states[i], states[i].cur);
    YieldKeeps(states[i], states[i].threads[states[i].cur].pc);
  }

  /** thread_exit: another thread runs, the page of the one that exits is freed unless it is
      the initial thread's, and it never runs or becomes ready again. */
  lemma ExitDoes(states: seq<Kernel>, steps: seq<Step>, i: nat, j: nat)
    requires IsRun(states, steps) && i < j < |states| && steps[i] == CallExit
    ensures var t := states[i].cur;
      && (t in states[i + 1].freed <==> t != INITIAL || t in states[i].freed)
      && t in states[j].threads && states[j].threads[t].status == Dying && states[j].cur != t && t !in states[j].ready
  {
    StepAt(states, steps, i);
    ExitFrees(states[i]);
    DeadForever(states, steps, i + 1, j, states[i].cur);
    DeadIs(states, steps, j, states[i].cur);
  }

  lemma ExitFrees(k: Kernel)
    requires Inv(k) && Enabled(k, CallExit) && Inv(Next(k, CallExit))
    ensures var k', t := Next(k, CallExit), k.cur;
      t in k'.threads && k'.threads[t].pc.Exited? && (t in k'.freed <==> t != INITIAL || t in k.freed)
  {
    StopDoes(k, Dying, Exited, k.cur);
    assert StatusOk(Next(k, CallExit), k.cur);
  }

  ghost predicate Dead(states: seq<Kernel>, m: nat, t: Tid) {
    m < |states| && t in states[m].threads && states[m].threads[t].pc.Exited?
  }

  lemma DeadIs(states: seq<Kernel>, steps: seq<Step>, m: nat, t: Tid)
    requires IsRun(states, steps) && Dead(states, m, t)
    ensures states[m].threads[t].status == Dying && states[m].cur != t && t !in states[m].ready
  {
    RunOk(states, steps, m);
    assert StatusOk(states[m], t);
  }

  lemma DeadOn(states: seq<Kernel>, steps: seq<Step>, m: nat, t: Tid)
    requires IsRun(states, steps) && m < |steps| && Dead(states, m, t)
    ensures Dead(states, m + 1, t)
  {
    DeadIs(states, steps, m, t);
    StepAt(states, steps, m);
    Bystander(states[m], steps[m], t);
  }

  lemma {:induction false} DeadForever(states: seq<Kernel>, steps: seq<Step>, i: nat, j: nat, t: Tid)
    requires IsRun(states, steps) && i <= j < |states| && Dead(states, i, t)
    ensures Dead(states, j, t)
  {
    var p := (m: nat) => Dead(states, m, t);
    forall m: nat | i <= m < j && p(m) ensures p(m + 1) { DeadOn(states, steps, m, t); }
    Carries(p, i, j);
  }
}
