/**
 The page allocator of `threads/palloc.c` under every interleaving.  One thread at a
 time holds the pool's lock and looks for pages; any number of calls give pages back
 without taking the lock.  Each step tests or writes one bit, as the bitmap's loops
 do, and any other call may act between two steps.

 A call that gives pages back has a name of its own, because one thread can be inside
 several: the switch that follows a thread's exit frees its page on the stack of
 whichever thread comes next, also of one that was preempted while it got or freed
 pages itself, and that page was got by the thread's creator.
 */
module Palloc {
  import opened Address
  import opened Bitmap

  type Tid = int   // whoever holds pages
  type Call = int  // a call of palloc_free_multiple under way

  /** The thread inside bitmap_scan_and_flip.  Scanning: the first j of cnt bits from i
      on tested false.  Marking: the first k of cnt bits from i on have been set. */
  datatype Getter =
    | NoGetter
    | Scanning(t: Tid, cnt: nat, i: nat, j: nat)
    | Marking(t: Tid, cnt: nat, i: nat, k: nat)

  /** A call of palloc_free_multiple.  Checking: the assertion has seen k bits.
      Clearing: the first k bits have been reset. */
  datatype Putter = Checking(i: nat, cnt: nat, k: nat) | Clearing(i: nat, cnt: nat, k: nat)

  datatype Pool = Pool(
    used: seq<bool>,
    getter: Getter,
    putters: map<Call, Putter>,
    held: map<Tid, set<nat>>,
    panic: bool)

  datatype Step =
    | Get(t: Tid, cnt: nat)
    | Search
    | Put(f: Call, o: Tid, i: nat, cnt: nat)
    | Return(f: Call)

  predicate Covers(i: nat, cnt: nat, p: nat) {
    i <= p < i + cnt
  }

  function Pages(i: nat, cnt: nat): (r: set<nat>)
    ensures forall p: nat :: p in r <==> Covers(i, cnt, p)
  {
    set p: nat | i <= p < i + cnt && Covers(i, cnt, p)
  }

  function HeldBy(s: Pool, t: Tid): set<nat> {
    if t in s.held then s.held[t] else {}
  }

  /** Anyone may give back pages that somebody holds, at any time. */
  ghost predicate Enabled(s: Pool, step: Step) {
    match step
    case Get(t, cnt) => s.getter.NoGetter? && cnt > 0
    case Search => !s.getter.NoGetter?
    case Put(f, o, i, cnt) => f !in s.putters && cnt > 0 && Pages(i, cnt) <= HeldBy(s, o)
    case Return(f) => f in s.putters
  }

  /** The next round of bitmap_scan's loop, or the end of the search. */
  function Advance(s: Pool, t: Tid, cnt: nat, i: nat): Pool {
    if i + cnt <= |s.used| then s.(getter := Scanning(t, cnt, i, 0)) else s.(getter := NoGetter)
  }

  function Searched(s: Pool): Pool
    requires !s.getter.NoGetter?
  {
    match s.getter
    case Scanning(t, cnt, i, j) =>
      if j >= cnt then s.(getter := Marking(t, cnt, i, 0))
      else if i + j < |s.used| && s.used[i + j] then Advance(s, t, cnt, i + 1)
      else s.(getter := Scanning(t, cnt, i, j + 1))
    case Marking(t, cnt, i, k) =>
      if k >= cnt then s.(getter := NoGetter, held := s.held[t := HeldBy(s, t) + Pages(i, cnt)])
      else if i + k < |s.used| then s.(getter := Marking(t, cnt, i, k + 1), used := s.used[i + k := true])
      else s.(panic := true)
    case NoGetter => s
  }

  function Returned(s: Pool, f: Call): Pool
    requires f in s.putters
  {
    match s.putters[f]
    case Checking(i, cnt, k) =>
      if k >= cnt then s.(putters := s.putters[f := Clearing(i, cnt, 0)])
      else if i + k < |s.used| && s.used[i + k] then s.(putters := s.putters[f := Checking(i, cnt, k + 1)])
      else s.(panic := true)
    case Clearing(i, cnt, k) =>
      if k >= cnt then s.(putters := s.putters - {f})
      else if i + k < |s.used| then s.(putters := s.putters[f := Clearing(i, cnt, k + 1)], used := s.used[i + k := false])
      else s.(panic := true)
  }

  function Next(s: Pool, step: Step): Pool
    requires Enabled(s, step)
  {
    match step
    case Get(t, cnt) => Advance(s, t, cnt, 0)
    case Search => Searched(s)
    case Put(f, o, i, cnt) =>
      s.(held := s.held[o := HeldBy(s, o) - Pages(i, cnt)], putters := s.putters[f := Checking(i, cnt, 0)])
    case Return(f) => Returned(s, f)
  }

  ghost predicate Init(s: Pool) {
    && s.getter.NoGetter? && s.putters == map[] && s.held == map[] && !s.panic
    && forall p :: 0 <= p < |s.used| ==> !s.used[p]
  }

  /** run is what the steps make of the pool, state by state. */
  ghost predicate IsRun(run: seq<Pool>, steps: seq<Step>) {
    && |run| == |steps| + 1 && Init(run[0])
    && forall n :: 0 <= n < |steps| ==> Enabled(run[n], steps[n]) && run[n + 1] == Next(run[n], steps[n])
  }

  // ---------------------------------------------------------------------
  // Who has which page
  // ---------------------------------------------------------------------

  datatype Claim = Held(t: Tid) | GivingBack(f: Call) | Getting

  /** A page belongs to the thread that holds it, to the call still giving it back, or
      to the one still taking it. */
  ghost predicate Claims(s: Pool, c: Claim, p: nat) {
    match c
    case Held(t) => p in HeldBy(s, t)
    case GivingBack(f) => f in s.putters && Remaining(s.putters[f], p)
    case Getting => s.getter.Marking? && s.getter.i <= p < s.getter.i + s.getter.k
  }

  predicate Remaining(f: Putter, p: nat) {
    match f
    case Checking(i, cnt, k) => i <= p < i + cnt
    case Clearing(i, cnt, k) => i + k <= p < i + cnt
  }

  /** A page is marked used exactly if someone has a claim on it. */
  ghost predicate Exact(s: Pool) {
    && (forall p: nat, c {:trigger Claims(s, c, p)} :: Claims(s, c, p) ==> p < |s.used| && s.used[p])
    && (forall p: nat :: p < |s.used| && s.used[p] ==> exists c :: Claims(s, c, p))
  }

  /** And there is never more than one claim. */
  ghost predicate Single(s: Pool) {
    forall p: nat, c, d {:trigger Claims(s, c, p), Claims(s, d, p)} :: Claims(s, c, p) && Claims(s, d, p) ==> c == d
  }

  /** Bits the getter has tested or is about to set are clear and stay clear. */
  ghost predicate SearchOk(s: Pool) {
    match s.getter
    case NoGetter => true
    case Scanning(t, cnt, i, j) => j <= cnt && i + cnt <= |s.used| && AllAre(s.used, i, j, false)
    case Marking(t, cnt, i, k) => k <= cnt && i + cnt <= |s.used| && AllAre(s.used, i + k, cnt - k, false)
  }

  ghost predicate PuttersOk(s: Pool) {
    forall f {:trigger s.putters[f]} :: f in s.putters ==> s.putters[f].k <= s.putters[f].cnt
  }

  ghost predicate Inv(s: Pool) {
    !s.panic && Exact(s) && Single(s) && SearchOk(s) && PuttersOk(s)
  }

  lemma InitOk(s: Pool)
    requires Init(s)
    ensures Inv(s)
  {
  }

  /** A step that leaves bits and claims alone. */
  lemma SameClaims(s: Pool, s': Pool)
    requires Exact(s) && Single(s) && s'.used == s.used
    requires forall p: nat, c {:trigger Claims(s', c, p)} :: Claims(s', c, p) <==> Claims(s, c, p)
    ensures Exact(s') && Single(s')
  {
    forall p: nat | p < |s'.used| && s'.used[p] ensures exists c :: Claims(s', c, p) {
      var c :| Claims(s, c, p);
      assert Claims(s', c, p);
    }
  }

  /** A step that hands claims on: f says which claim each becomes. */
  lemma MovedClaims(s: Pool, s': Pool, f: (Claim, nat) -> Claim)
    requires Exact(s) && Single(s) && s'.used == s.used
    requires forall p: nat, c {:trigger Claims(s, c, p)} :: Claims(s, c, p) ==> Claims(s', f(c, p), p)
    requires forall p: nat, d {:trigger Claims(s', d, p)} :: Claims(s', d, p) ==> exists c :: Claims(s, c, p) && d == f(c, p)
    ensures Exact(s') && Single(s')
  {
    forall p: nat | p < |s'.used| && s'.used[p] ensures exists c :: Claims(s', c, p) {
      var c :| Claims(s, c, p);
      assert Claims(s', f(c, p), p);
    }
    forall p: nat, d | Claims(s', d, p) ensures p < |s'.used| && s'.used[p] {
      var c :| Claims(s, c, p) && d == f(c, p);
    }
  }

  lemma GetKeeps(s: Pool, t: Tid, cnt: nat)
    requires Inv(s) && Enabled(s, Get(t, cnt))
    ensures Inv(Next(s, Get(t, cnt)))
  {
    SameClaims(s, Next(s, Get(t, cnt)));
  }

  lemma SearchKeeps(s: Pool)
    requires Inv(s) && Enabled(s, Search)
    ensures Inv(Next(s, Search))
  {
    match s.getter
    case Scanning(t, cnt, i, j) => SameClaims(s, Next(s, Search));
    case Marking(t, cnt, i, k) =>
      if k < cnt { MarkKeeps(s); } else { HandOver(s); }
  }

  /** The last step of a successful call: the claim becomes the caller's. */
  lemma HandOver(s: Pool)
    requires Inv(s) && s.getter.Marking? && s.getter.k == s.getter.cnt
    ensures Inv(Next(s, Search))
  {
    var s', t := Next(s, Search), s.getter.t;
    var f := (c: Claim, p: nat) => if c.Getting? then Held(t) else c;
    MovedClaims(s, s', f) by {
      forall p: nat, d | Claims(s', d, p) ensures exists c :: Claims(s, c, p) && d == f(c, p) {
        assert Claims(s, d, p) || Claims(s, Getting, p);
      }
    }
  }

  lemma MarkKeeps(s: Pool)
    requires Inv(s) && s.getter.Marking? && s.getter.k < s.getter.cnt
    ensures Inv(Next(s, Search))
  {
    var s', q := Next(s, Search), s.getter.i + s.getter.k;
    assert !s.used[q];
    forall p: nat, c ensures Claims(s', c, p) <==> Claims(s, c, p) || (p == q && c == Getting) {}
    Added(s, s', q, Getting);
  }

  /** A clear bit is set and one claim made. */
  lemma Added(s: Pool, s': Pool, q: nat, a: Claim)
    requires Exact(s) && Single(s) && q < |s.used| && !s.used[q] && s'.used == s.used[q := true]
    requires forall p: nat, c {:trigger Claims(s', c, p)} :: Claims(s', c, p) <==> Claims(s, c, p) || (p == q && c == a)
    ensures Exact(s') && Single(s')
  {
    assert Claims(s', a, q);
    forall p: nat | p < |s'.used| && s'.used[p] ensures exists c :: Claims(s', c, p) {
      if p != q {
        var c :| Claims(s, c, p);
        assert Claims(s', c, p);
      }
    }
  }

  /** A set bit is cleared and its one claim given up. */
  lemma Removed(s: Pool, s': Pool, q: nat, a: Claim)
    requires Exact(s) && Single(s) && q < |s.used| && Claims(s, a, q) && s'.used == s.used[q := false]
    requires forall p: nat, c {:trigger Claims(s', c, p)} :: Claims(s', c, p) <==> Claims(s, c, p) && !(p == q && c == a)
    ensures Exact(s') && Single(s')
  {
    forall p: nat | p < |s'.used| && s'.used[p] ensures exists c :: Claims(s', c, p) {
      var c :| Claims(s, c, p);
      assert Claims(s', c, p);
    }
  }

  lemma PutKeeps(s: Pool, f: Call, o: Tid, i: nat, cnt: nat)
    requires Inv(s) && Enabled(s, Put(f, o, i, cnt))
    ensures Inv(Next(s, Put(f, o, i, cnt)))
  {
    var s' := Next(s, Put(f, o, i, cnt));
    var g := (c: Claim, p: nat) => if c == Held(o) && i <= p < i + cnt then GivingBack(f) else c;
    MovedClaims(s, s', g) by {
      forall p: nat, d | Claims(s', d, p) ensures exists c :: Claims(s, c, p) && d == g(c, p) {
        assert p in Pages(i, cnt) <==> Covers(i, cnt, p);
        if d == GivingBack(f) { assert Claims(s, Held(o), p); } else { assert Claims(s, d, p); }
      }
    }
  }

  /** The assertion that all the bits are set holds. */
  lemma CheckKeeps(s: Pool, f: Call)
    requires Inv(s) && Enabled(s, Return(f)) && s.putters[f].Checking?
    ensures Inv(Next(s, Return(f)))
  {
    var put := s.putters[f];
    if put.k < put.cnt { assert Claims(s, GivingBack(f), put.i + put.k); }
    SameClaims(s, Next(s, Return(f)));
  }

  lemma ClearKeeps(s: Pool, f: Call)
    requires Inv(s) && Enabled(s, Return(f)) && s.putters[f].Clearing?
    ensures Inv(Next(s, Return(f)))
  {
    var put, s' := s.putters[f], Next(s, Return(f));
    if put.k < put.cnt {
      var q := put.i + put.k;
      assert Claims(s, GivingBack(f), q);
      forall p: nat, c ensures Claims(s', c, p) <==> Claims(s, c, p) && !(p == q && c == GivingBack(f)) {}
      Removed(s, s', q, GivingBack(f));
    } else {
      SameClaims(s, s');
    }
  }

  lemma StepKeeps(s: Pool, step: Step)
    requires Inv(s) && Enabled(s, step)
    ensures Inv(Next(s, step))
  {
    match step
    case Get(t, cnt) => GetKeeps(s, t, cnt);
    case Search => SearchKeeps(s);
    case Put(f, o, i, cnt) => PutKeeps(s, f, o, i, cnt);
    case Return(f) => if s.putters[f].Checking? { CheckKeeps(s, f); } else { ClearKeeps(s, f); }
  }

  lemma {:induction false} RunOk(run: seq<Pool>, steps: seq<Step>, n: nat)
    requires IsRun(run, steps) && n < |run|
    ensures Inv(run[n])
  {
    if n == 0 {
      InitOk(run[0]);
    } else {
      RunOk(run, steps, n - 1);
      StepKeeps(run[n - 1], steps[n - 1]);
    }
  }

  // ---------------------------------------------------------------------
  // What holds in every run
  // ---------------------------------------------------------------------

  /** No page ever has two holders, and no page is held while it is being given back. */
  lemma NoTwoHolders(run: seq<Pool>, steps: seq<Step>, n: nat, t: Tid, u: Tid, f: Call, p: nat)
    requires IsRun(run, steps) && n < |run| && p in HeldBy(run[n], t)
    ensures p in HeldBy(run[n], u) ==> t == u
    ensures f in run[n].putters ==> !Remaining(run[n].putters[f], p)
    ensures p < |run[n].used| && run[n].used[p]
  {
    RunOk(run, steps, n);
    var s := run[n];
    assert Claims(s, Held(t), p);
    assert p in HeldBy(s, u) ==> Claims(s, Held(u), p);
    assert f in s.putters && Remaining(s.putters[f], p) ==> Claims(s, GivingBack(f), p);
  }

  /** When a call to get pages succeeds, nobody held any of them, and the caller is the
      only one whose pages change. */
  lemma HandedOutOnce(run: seq<Pool>, steps: seq<Step>, n: nat, p: nat, u: Tid)
    requires IsRun(run, steps) && n < |steps| && steps[n] == Search
    requires run[n].getter.Marking? && run[n].getter.k == run[n].getter.cnt
    ensures var g := run[n].getter;
      && run[n + 1].getter.NoGetter?
      && HeldBy(run[n + 1], g.t) == HeldBy(run[n], g.t) + Pages(g.i, g.cnt)
      && (u != g.t ==> HeldBy(run[n + 1], u) == HeldBy(run[n], u))
      && (Covers(g.i, g.cnt, p) ==> p !in HeldBy(run[n], u) && p < |run[n].used|)
  {
    RunOk(run, steps, n);
    var s := run[n];
    if Covers(s.getter.i, s.getter.cnt, p) {
      assert Claims(s, Getting, p);
      assert p in HeldBy(s, u) ==> Claims(s, Held(u), p);
    }
  }

  /** A page is given back by one call at a time. */
  lemma GivenBackOnce(run: seq<Pool>, steps: seq<Step>, n: nat, f: Call, g: Call, p: nat)
    requires IsRun(run, steps) && n < |run| && f in run[n].putters && g in run[n].putters
    requires Remaining(run[n].putters[f], p) && Remaining(run[n].putters[g], p)
    ensures f == g && p < |run[n].used| && run[n].used[p]
  {
    RunOk(run, steps, n);
    assert Claims(run[n], GivingBack(f), p) && Claims(run[n], GivingBack(g), p);
  }

  /** From the moment pages are given back nobody holds them any more, and nobody else's
      pages and no bit change. */
  lemma PutTakesAway(run: seq<Pool>, steps: seq<Step>, n: nat, u: Tid, p: nat)
    requires IsRun(run, steps) && n < |steps| && steps[n].Put?
    ensures Covers(steps[n].i, steps[n].cnt, p) ==> p !in HeldBy(run[n + 1], u)
    ensures !Covers(steps[n].i, steps[n].cnt, p) ==> (p in HeldBy(run[n + 1], u) <==> p in HeldBy(run[n], u))
    ensures run[n + 1].used == run[n].used && run[n + 1].getter == run[n].getter
  {
    RunOk(run, steps, n);
    var s, o := run[n], steps[n].o;
    assert Enabled(s, steps[n]) && run[n + 1] == Next(s, steps[n]);
    assert p in Pages(steps[n].i, steps[n].cnt) <==> Covers(steps[n].i, steps[n].cnt, p);
    assert p in HeldBy(s, o) ==> Claims(s, Held(o), p);
    assert p in HeldBy(s, u) ==> Claims(s, Held(u), p);
  }

  /** Call f has still to reset the bit of page p. */
  ghost predicate Pending(run: seq<Pool>, n: nat, f: Call, p: nat) {
    n < |run| && f in run[n].putters && Remaining(run[n].putters[f], p)
  }

  /** A bit that a step clears was set, and belonged to the call that the step is part of. */
  lemma ClearsItsOwn(run: seq<Pool>, steps: seq<Step>, n: nat, p: nat)
    requires IsRun(run, steps) && n < |steps| && p < |run[n].used|
    ensures |run[n + 1].used| == |run[n].used|
    ensures run[n].used[p] && !run[n + 1].used[p] ==> steps[n].Return? && Pending(run, n, steps[n].f, p)
  {
    RunOk(run, steps, n);
    assert Enabled(run[n], steps[n]) && run[n + 1] == Next(run[n], steps[n]);
  }

  /** A pending page stays pending until its own call resets its bit. */
  lemma PendingOn(run: seq<Pool>, steps: seq<Step>, n: nat, f: Call, p: nat)
    requires IsRun(run, steps) && n < |steps| && Pending(run, n, f, p)
    ensures Pending(run, n + 1, f, p) ||
      (steps[n] == Return(f) && p < |run[n].used| == |run[n + 1].used| && run[n].used[p] && !run[n + 1].used[p])
  {
    RunOk(run, steps, n);
    assert Enabled(run[n], steps[n]) && run[n + 1] == Next(run[n], steps[n]);
    assert Claims(run[n], GivingBack(f), p);
  }

  lemma {:induction false} FirstNotPending(run: seq<Pool>, n: nat, m: nat, f: Call, p: nat) returns (x: nat)
    requires n <= m && Pending(run, n, f, p) && !Pending(run, m, f, p)
    ensures n <= x < m && !Pending(run, x + 1, f, p) && forall y :: n <= y <= x ==> Pending(run, y, f, p)
    decreases m - n
  {
    x := n;
    if Pending(run, n + 1, f, p) { x := FirstNotPending(run, n + 1, m, f, p); }
  }

  /** A call that is over has reset the bit of every page it was to give back, each set
      until then, and the call was under way all the time. */
  lemma FreedWhenDone(run: seq<Pool>, steps: seq<Step>, n: nat, m: nat, p: nat) returns (x: nat)
    requires IsRun(run, steps) && n < m < |run| && steps[n].Put? && steps[n].f !in run[m].putters
    requires Covers(steps[n].i, steps[n].cnt, p)
    ensures n < x < m && steps[x] == Return(steps[n].f)
    ensures p < |run[x].used| == |run[x + 1].used| && run[x].used[p] && !run[x + 1].used[p]
    ensures forall y :: n < y <= x ==> steps[n].f in run[y].putters
  {
    var f := steps[n].f;
    assert Enabled(run[n], steps[n]) && run[n + 1] == Next(run[n], steps[n]);
    x := FirstNotPending(run, n + 1, m, f, p);
    assert Pending(run, x, f, p);
    PendingOn(run, steps, x, f, p);
    forall y | n < y <= x ensures f in run[y].putters { assert Pending(run, y, f, p); }
  }

  /** The assertion in palloc_free_multiple never fails, and no bit outside the map is
      touched. */
  lemma NeverPanics(run: seq<Pool>, steps: seq<Step>, n: nat)
    requires IsRun(run, steps) && n < |run|
    ensures !run[n].panic
  {
    RunOk(run, steps, n);
  }

  /** Once every call has finished, the used bits are the pages held. */
  lemma QuiescentExact(run: seq<Pool>, steps: seq<Step>, n: nat, p: nat)
    requires IsRun(run, steps) && n < |run| && p < |run[n].used|
    requires run[n].getter.NoGetter? && run[n].putters == map[]
    ensures run[n].used[p] <==> exists t :: p in HeldBy(run[n], t)
  {
    RunOk(run, steps, n);
    var s := run[n];
    if s.used[p] {
      var c :| Claims(s, c, p);
      assert p in HeldBy(s, c.t);
    }
    forall t | p in HeldBy(s, t) ensures s.used[p] { assert Claims(s, Held(t), p); }
  }

  // ---------------------------------------------------------------------
  // A call that nobody disturbs
  // ---------------------------------------------------------------------

  /** Runs the getter to the end of its call. */
  function Finish(s: Pool): Pool
    requires SearchOk(s)
    decreases if s.getter.Scanning? then 1 else 0,
              if s.getter.Scanning? then |s.used| - s.getter.i else 0,
              match s.getter case NoGetter => 0 case Scanning(_, cnt, _, j) => 1 + cnt - j case Marking(_, cnt, _, k) => 1 + cnt - k
  {
    if s.getter.NoGetter? then s else Finish(Searched(s))
  }

  lemma {:induction false} FinishMarking(s: Pool)
    requires SearchOk(s) && s.getter.Marking?
    ensures var g := s.getter;
      Finish(s) == s.(getter := NoGetter, used := Fill(s.used, g.i + g.k, g.cnt - g.k, true),
                      held := s.held[g.t := HeldBy(s, g.t) + Pages(g.i, g.cnt)])
    decreases s.getter.cnt - s.getter.k
  {
    var g := s.getter;
    if g.k < g.cnt {
      FinishMarking(Searched(s));
      assert Fill(s.used[g.i + g.k := true], g.i + g.k + 1, g.cnt - g.k - 1, true) == Fill(s.used, g.i + g.k, g.cnt - g.k, true);
    } else {
      assert Fill(s.used, g.i + g.k, 0, true) == s.used;
    }
  }

  /** s with the outcome r of the search. */
  function Outcome(s: Pool, t: Tid, cnt: nat, r: Index): Pool
    requires r.At? ==> r.index + cnt <= |s.used|
  {
    if r.At? then
      s.(getter := NoGetter, used := Fill(s.used, r.index, cnt, true), held := s.held[t := HeldBy(s, t) + Pages(r.index, cnt)])
    else s.(getter := NoGetter)
  }

  lemma {:induction false} FinishScanning(s: Pool) returns (r: Index)
    requires SearchOk(s) && s.getter.Scanning?
    ensures FirstFit(s.used, s.getter.i, s.getter.cnt, false, r)
    ensures Finish(s) == Outcome(s, s.getter.t, s.getter.cnt, r)
    decreases |s.used| - s.getter.i, s.getter.cnt - s.getter.j
  {
    var g := s.getter;
    if g.j >= g.cnt {
      r := At(g.i);
      Found(s);
    } else {
      var s' := ScanOne(s);
      if !s'.getter.Scanning? {
        r := BitmapError;
        NoRoom(s.used, g.i, g.cnt, g.i + g.j);
      } else {
        r := FinishScanning(s');
        SameOutcome(s, s', g.t, g.cnt, r);
        if s.used[g.i + g.j] { FitLater(s.used, g.i, g.cnt, g.i + g.j, r); }
      }
    }
  }

  lemma NoRoom(used: seq<bool>, i: nat, cnt: nat, p: nat)
    requires i <= p < i + cnt <= |used| < i + 1 + cnt && used[p]
    ensures FirstFit(used, i, cnt, false, BitmapError)
  {
    assert !AllAre(used, i, cnt, false);
  }

  /** One test of a bit. */
  lemma {:induction false} ScanOne(s: Pool) returns (s': Pool)
    requires SearchOk(s) && s.getter.Scanning? && s.getter.j < s.getter.cnt
    ensures var g := s.getter;
      && s' == s.(getter := s'.getter)
      && s'.getter == (if !s.used[g.i + g.j] then Scanning(g.t, g.cnt, g.i, g.j + 1)
                       else if g.i + 1 + g.cnt <= |s.used| then Scanning(g.t, g.cnt, g.i + 1, 0) else NoGetter)
    ensures SearchOk(s') && Finish(s) == Finish(s')
  {
    s' := Searched(s);
  }

  lemma SameOutcome(s: Pool, s': Pool, t: Tid, cnt: nat, r: Index)
    requires s' == s.(getter := s'.getter) && (r.At? ==> r.index + cnt <= |s.used|)
    ensures Outcome(s, t, cnt, r) == Outcome(s', t, cnt, r)
  {
  }

  lemma {:induction false} Found(s: Pool)
    requires SearchOk(s) && s.getter.Scanning? && s.getter.j == s.getter.cnt
    ensures FirstFit(s.used, s.getter.i, s.getter.cnt, false, At(s.getter.i))
    ensures Finish(s) == Outcome(s, s.getter.t, s.getter.cnt, At(s.getter.i))
  {
    FinishMarking(Searched(s));
  }

  /** A bit in use rules its place out. */
  lemma FitLater(used: seq<bool>, i: nat, cnt: nat, p: nat, r: Index)
    requires i <= p < i + cnt <= |used| && used[p]
    requires FirstFit(used, i + 1, cnt, false, r)
    ensures FirstFit(used, i, cnt, false, r)
  {
    assert !AllAre(used, i, cnt, false);
  }

  /** Without others in between, the call takes the first fit, and it fails only when
      there is no room. */
  lemma {:induction false} AloneIsFirstFit(s: Pool, t: Tid, cnt: nat) returns (r: Index)
    requires Inv(s) && Enabled(s, Get(t, cnt))
    ensures FirstFit(s.used, 0, cnt, false, r)
    ensures SearchOk(Next(s, Get(t, cnt))) && Finish(Next(s, Get(t, cnt))) == Outcome(s, t, cnt, r)
  {
    GetKeeps(s, t, cnt);
    var s' := Next(s, Get(t, cnt));
    if s'.getter.Scanning? {
      r := FinishScanning(s');
    } else {
      r := BitmapError;
    }
  }

  /** Runs call f to its end. */
  function FinishPut(s: Pool, f: Call): Pool
    requires f in s.putters
    decreases if s.putters[f].Checking? then 1 else 0, if s.putters[f].k <= s.putters[f].cnt then 1 + s.putters[f].cnt - s.putters[f].k else 0
  {
    var s' := Returned(s, f);
    if f in s'.putters && !s'.panic then FinishPut(s', f) else s'
  }

  lemma {:induction false} ClearAlone(s: Pool, f: Call)
    requires f in s.putters && s.putters[f].Clearing? && !s.panic
    requires s.putters[f].k <= s.putters[f].cnt && s.putters[f].i + s.putters[f].cnt <= |s.used|
    ensures var g := s.putters[f]; FinishPut(s, f) == s.(putters := s.putters - {f}, used := Fill(s.used, g.i + g.k, g.cnt - g.k, false))
    decreases s.putters[f].cnt - s.putters[f].k
  {
    var g, s' := s.putters[f], Returned(s, f);
    if g.k < g.cnt {
      ClearAlone(s', f);
      assert Fill(s.used[g.i + g.k := false], g.i + g.k + 1, g.cnt - g.k - 1, false) == Fill(s.used, g.i + g.k, g.cnt - g.k, false);
      assert s'.putters - {f} == s.putters - {f};
    } else {
      assert Fill(s.used, g.i + g.k, 0, false) == s.used;
    }
  }

  lemma {:induction false} CheckAlone(s: Pool, f: Call)
    requires f in s.putters && s.putters[f].Checking? && !s.panic
    requires s.putters[f].k <= s.putters[f].cnt && s.putters[f].i + s.putters[f].cnt <= |s.used|
    requires AllAre(s.used, s.putters[f].i, s.putters[f].cnt, true)
    ensures var g := s.putters[f]; FinishPut(s, f) == s.(putters := s.putters - {f}, used := Fill(s.used, g.i, g.cnt, false))
    decreases s.putters[f].cnt - s.putters[f].k
  {
    var g, s' := s.putters[f], Returned(s, f);
    if g.k < g.cnt { CheckAlone(s', f); } else { ClearAlone(s', f); }
    assert s'.putters - {f} == s.putters - {f};
  }

  /** Without others in between, giving pages back clears their bits, takes them from their
      holder, and leaves everything else as it was. */
  lemma {:induction false} AloneFrees(s: Pool, f: Call, o: Tid, i: nat, cnt: nat)
    requires Inv(s) && Enabled(s, Put(f, o, i, cnt))
    ensures i + cnt <= |s.used| && AllAre(s.used, i, cnt, true)
    ensures FinishPut(Next(s, Put(f, o, i, cnt)), f) ==
      s.(used := Fill(s.used, i, cnt, false), held := s.held[o := HeldBy(s, o) - Pages(i, cnt)])
  {
    forall p: nat | Covers(i, cnt, p) ensures p < |s.used| && s.used[p] {
      assert p in Pages(i, cnt);
      assert Claims(s, Held(o), p);
    }
    assert Covers(i, cnt, i + cnt - 1);
    forall p | i <= p < i + cnt ensures s.used[p] { assert Covers(i, cnt, p); }
    var s' := Next(s, Put(f, o, i, cnt));
    CheckAlone(s', f);
    assert s'.putters - {f} == s.putters;
  }

  lemma {:induction false} FinishKeeps(s: Pool)
    requires Inv(s)
    ensures Inv(Finish(s))
    decreases if s.getter.Scanning? then 1 else 0,
              if s.getter.Scanning? then |s.used| - s.getter.i else 0,
              match s.getter case NoGetter => 0 case Scanning(_, cnt, _, j) => 1 + cnt - j case Marking(_, cnt, _, k) => 1 + cnt - k
  {
    if !s.getter.NoGetter? {
      SearchKeeps(s);
      FinishKeeps(Searched(s));
    }
  }

  /** Getting pages and giving them back leaves every bit and everyone's pages as before. */
  lemma {:induction false} PutUndoesGet(s: Pool, t: Tid, cnt: nat, f: Call) returns (r: Index)
    requires Inv(s) && Enabled(s, Get(t, cnt)) && f !in s.putters
    ensures FirstFit(s.used, 0, cnt, false, r) && SearchOk(Next(s, Get(t, cnt)))
    ensures var s1 := Finish(Next(s, Get(t, cnt)));
      if r.At? then
        && Enabled(s1, Put(f, t, r.index, cnt))
        && var s2 := FinishPut(Next(s1, Put(f, t, r.index, cnt)), f);
        && s2 == s.(held := s2.held)
        && forall u :: HeldBy(s2, u) == HeldBy(s, u)
      else s1 == s
  {
    r := AloneIsFirstFit(s, t, cnt);
    GetKeeps(s, t, cnt);
    FinishKeeps(Next(s, Get(t, cnt)));
    if r.At? {
      var s1 := Outcome(s, t, cnt, r);
      AloneFrees(s1, f, t, r.index, cnt);
      assert Fill(s1.used, r.index, cnt, false) == s.used;
      forall p | p in HeldBy(s, t) ensures !Covers(r.index, cnt, p) { assert Claims(s, Held(t), p); }
      assert HeldBy(s, t) + Pages(r.index, cnt) - Pages(r.index, cnt) == HeldBy(s, t);
    }
  }

  // ---------------------------------------------------------------------
  // Where the pools lie
  // ---------------------------------------------------------------------

  /** A pool's pages, after the pages its bitmap takes. */
  datatype Area = Area(base: nat, cnt: nat) | NotEnough

  function DivRoundUp(x: nat, step: nat): nat
    requires step > 0
  {
    (x + step - 1) / step
  }

  function BitmapBytes(pageCnt: nat): nat {
    8 + 4 * ElemCnt(pageCnt)
  }

  function InitPool(base: nat, pageCnt: nat): Area {
    var bmPages := DivRoundUp(BitmapBytes(pageCnt), PGSIZE);
    if bmPages > pageCnt then NotEnough else Area(base + bmPages * PGSIZE, pageCnt - bmPages)
  }

  function KernelPages(ramPages: nat, userPageLimit: nat): nat
    requires 256 <= ramPages
  {
    var free := ramPages - 256;
    var user := if free / 2 > userPageLimit then userPageLimit else free / 2;
    free - user
  }

  function KernelPool(ramPages: nat, userPageLimit: nat): Area
    requires 256 <= ramPages
  {
    InitPool(PHYS_BASE + 256 * PGSIZE, KernelPages(ramPages, userPageLimit))
  }

  function UserPool(ramPages: nat, userPageLimit: nat): Area
    requires 256 <= ramPages
  {
    var k := KernelPages(ramPages, userPageLimit);
    InitPool(PHYS_BASE + 256 * PGSIZE + k * PGSIZE, ramPages - 256 - k)
  }

  /** The user pool gets as many pages as the limit allows, up to half of them. */
  lemma UserShare(ramPages: nat, userPageLimit: nat, n: nat)
    requires 256 <= ramPages
    ensures KernelPages(ramPages, userPageLimit) <= ramPages - 256
    ensures n <= ramPages - 256 - KernelPages(ramPages, userPageLimit) <==> n <= userPageLimit && 2 * n <= ramPages - 256
  {
  }

  predicate PageFromPool(a: Area, page: nat)
    requires a.Area?
  {
    a.base / PGSIZE <= page / PGSIZE < a.base / PGSIZE + a.cnt
  }

  /** palloc_free_multiple's choice of pool and its page index. */
  function Locate(kernel: Area, user: Area, page: nat): (bool, int)
    requires kernel.Area? && user.Area?
  {
    if PageFromPool(kernel, page) then (true, page / PGSIZE - kernel.base / PGSIZE)
    else (false, page / PGSIZE - user.base / PGSIZE)
  }

  /** A pool's bitmap fits in the pages set aside for it. */
  lemma BitmapFits(base: nat, pageCnt: nat)
    requires InitPool(base, pageCnt).Area? && base % PGSIZE == 0
    ensures var a := InitPool(base, pageCnt);
      && base + BitmapBytes(a.cnt) <= a.base && a.base % PGSIZE == 0
      && a.base + a.cnt * PGSIZE == base + pageCnt * PGSIZE
  {
    RoundUp(BitmapBytes(pageCnt));
    FewerWords(InitPool(base, pageCnt).cnt, pageCnt);
  }

  lemma RoundUp(x: nat)
    ensures x <= DivRoundUp(x, PGSIZE) * PGSIZE
  {
  }

  lemma FewerWords(m: nat, n: nat)
    requires m <= n
    ensures ElemCnt(m) <= ElemCnt(n)
  {
  }

  /** The address made for page i of a pool leads back to that pool and that index, for
      either pool, and lies in RAM. */
  lemma LocateInverts(ramPages: nat, userPageLimit: nat, i: nat, inKernel: bool)
    requires 256 <= ramPages
    requires KernelPool(ramPages, userPageLimit).Area? && UserPool(ramPages, userPageLimit).Area?
    requires i < (if inKernel then KernelPool(ramPages, userPageLimit) else UserPool(ramPages, userPageLimit)).cnt
    ensures var k, u := KernelPool(ramPages, userPageLimit), UserPool(ramPages, userPageLimit);
      var page := (if inKernel then k else u).base + PGSIZE * i;
      && Locate(k, u, page) == (inKernel, i) && (inKernel || PageFromPool(u, page))
      && PHYS_BASE + 256 * PGSIZE <= page && page + PGSIZE <= PHYS_BASE + ramPages * PGSIZE
  {
    var k, u := KernelPool(ramPages, userPageLimit), UserPool(ramPages, userPageLimit);
    LaidOut(ramPages, userPageLimit);
    LocateArea(k, u, i, inKernel);
  }

  /** The kernel pool lies below the user pool, which ends where RAM does. */
  lemma LaidOut(ramPages: nat, userPageLimit: nat)
    requires 256 <= ramPages
    requires KernelPool(ramPages, userPageLimit).Area? && UserPool(ramPages, userPageLimit).Area?
    ensures var k, u := KernelPool(ramPages, userPageLimit), UserPool(ramPages, userPageLimit);
      && k.base % PGSIZE == 0 && u.base % PGSIZE == 0
      && PHYS_BASE + 256 * PGSIZE <= k.base && k.base + k.cnt * PGSIZE <= u.base
      && u.base + u.cnt * PGSIZE == PHYS_BASE + ramPages * PGSIZE
  {
    var kp := KernelPages(ramPages, userPageLimit);
    var start := PHYS_BASE + 256 * PGSIZE;
    WholePages(start, kp);
    BitmapFits(start, kp);
    BitmapFits(start + kp * PGSIZE, ramPages - 256 - kp);
  }

  lemma WholePages(base: nat, n: nat)
    requires base % PGSIZE == 0
    ensures (base + n * PGSIZE) % PGSIZE == 0
  {
  }

  lemma LocateArea(k: Area, u: Area, i: nat, inKernel: bool)
    requires k.Area? && u.Area? && k.base % PGSIZE == 0 && u.base % PGSIZE == 0 && k.base + k.cnt * PGSIZE <= u.base
    requires i < (if inKernel then k else u).cnt
    ensures var page := (if inKernel then k else u).base + PGSIZE * i;
      Locate(k, u, page) == (inKernel, i) && (inKernel || PageFromPool(u, page))
  {
    PageNumber((if inKernel then k else u).base, i);
    PagesBelow(k.base, k.cnt, u.base);
  }

  lemma PagesBelow(base: nat, cnt: nat, next: nat)
    requires base % PGSIZE == 0 && next % PGSIZE == 0 && base + cnt * PGSIZE <= next
    ensures base / PGSIZE + cnt <= next / PGSIZE
  {
  }

  lemma PageNumber(base: nat, i: nat)
    requires base % PGSIZE == 0
    ensures (base + PGSIZE * i) / PGSIZE == base / PGSIZE + i
  {
  }
}
