/**
 What the ordering operations of `lib/kernel/list.c` compute, as functions on the
 sequence of a list's elements, and what those functions promise.
 */
module ListOrder {
  import opened Words

  /** A list element is its address. */
  type Addr = int

  type Less = (Addr, Addr) -> bool

  /** The comparison a caller must supply: a strict weak order. */
  ghost predicate StrictWeak(less: Less) {
    && (forall a :: !less(a, a))
    && (forall a, b :: less(a, b) ==> !less(b, a))
    && (forall a, b, c :: !less(a, b) && !less(b, c) ==> !less(a, c))
  }

  ghost predicate Sorted(q: seq<Addr>, less: Less) {
    forall i, j :: 0 <= i < j < |q| ==> !less(q[j], q[i])
  }

  /** Equal as far as less can tell. */
  predicate Equiv(a: Addr, b: Addr, less: Less) {
    !less(a, b) && !less(b, a)
  }

  /** The elements of q equivalent to x, in the order they have in q. */
  function Class(q: seq<Addr>, x: Addr, less: Less): seq<Addr> {
    if q == [] then []
    else (if Equiv(q[0], x, less) then [q[0]] else []) + Class(q[1..], x, less)
  }

  /** r has the elements of q and keeps the order of equivalent ones. */
  ghost predicate StableCopy(r: seq<Addr>, q: seq<Addr>, less: Less) {
    multiset(r) == multiset(q) && forall x :: Class(r, x, less) == Class(q, x, less)
  }

  // ---------------------------------------------------------------------
  // Runs
  // ---------------------------------------------------------------------

  /** find_end_of_run: the length of the longest nondecreasing prefix. */
  function RunLen(q: seq<Addr>, less: Less): (n: nat)
    requires q != []
    ensures 1 <= n <= |q|
  {
    if |q| == 1 || less(q[1], q[0]) then 1 else 1 + RunLen(q[1..], less)
  }

  /** The run stops at the first descent and not before. */
  lemma {:induction false} RunLenIs(q: seq<Addr>, less: Less)
    requires q != []
    ensures var n := RunLen(q, less);
      && (forall j, k :: 0 <= j < n && k == j + 1 && k < n ==> !less(q[k], q[j]))
      && (n < |q| ==> less(q[n], q[n - 1]))
  {
    if |q| > 1 && !less(q[1], q[0]) {
      RunLenIs(q[1..], less);
      var n := RunLen(q, less);
      forall j, k | 0 <= j < n && k == j + 1 && k < n ensures !less(q[k], q[j]) {
        if j > 0 { assert q[1..][k - 1] == q[k] && q[1..][j - 1] == q[j]; }
      }
    }
  }

  /** The number of maximal nondecreasing runs in q. */
  function Runs(q: seq<Addr>, less: Less): nat
    decreases |q|
  {
    if q == [] then 0 else 1 + Runs(q[RunLen(q, less)..], less)
  }

  /** inplace_merge, with ties taken from the first range. */
  function Merge(a: seq<Addr>, b: seq<Addr>, less: Less): (r: seq<Addr>)
    ensures |r| == |a| + |b|
  {
    if a == [] then b else if b == [] then a
    else if less(b[0], a[0]) then [b[0]] + Merge(a, b[1..], less)
    else [a[0]] + Merge(a[1..], b, less)
  }

  /** One pass of list_sort over the rest of the list: the list it leaves. */
  function Pass(q: seq<Addr>, less: Less): (r: seq<Addr>)
    ensures |r| == |q|
    decreases |q|
  {
    if q == [] then [] else
    var n := RunLen(q, less);
    if n == |q| then q else
    var m := RunLen(q[n..], less);
    Merge(q[..n], q[n..n + m], less) + Pass(q[n + m..], less)
  }

  /** The number of output runs that pass counts. */
  function PassRuns(q: seq<Addr>, less: Less): nat
    decreases |q|
  {
    if q == [] then 0 else
    var n := RunLen(q, less);
    if n == |q| then 1 else 1 + PassRuns(q[n + RunLen(q[n..], less)..], less)
  }

  // ---------------------------------------------------------------------
  // Sequence facts
  // ---------------------------------------------------------------------

  lemma {:induction false} ClassConcat(p: seq<Addr>, q: seq<Addr>, x: Addr, less: Less)
    ensures Class(p + q, x, less) == Class(p, x, less) + Class(q, x, less)
  {
    if p == [] {
      assert p + q == q;
    } else {
      assert (p + q)[1..] == p[1..] + q;
      ClassConcat(p[1..], q, x, less);
    }
  }

  lemma {:induction false} ClassCons(y: Addr, q: seq<Addr>, x: Addr, less: Less)
    ensures Class([y] + q, x, less) == (if Equiv(y, x, less) then [y] else []) + Class(q, x, less)
  {
    assert ([y] + q)[1..] == q;
  }

  lemma {:induction false} ClassMembers(q: seq<Addr>, x: Addr, less: Less)
    ensures forall y :: y in Class(q, x, less) <==> y in q && Equiv(y, x, less)
  {
    if q != [] {
      ClassMembers(q[1..], x, less);
      assert q == [q[0]] + q[1..];
    }
  }

  lemma Between(less: Less, a: Addr, b: Addr, c: Addr)
    requires StrictWeak(less)
    ensures !less(a, b) && !less(b, c) ==> !less(a, c)
  {
  }

  /** Adjacent order is order throughout. */
  lemma {:induction false} AdjacentSorted(q: seq<Addr>, less: Less, i: nat, j: nat)
    requires StrictWeak(less) && i < j < |q|
    requires forall k :: i < k <= j ==> !less(q[k], q[k - 1])
    ensures !less(q[j], q[i])
    decreases j - i
  {
    assert !less(q[j], q[j - 1]);
    if i + 1 < j {
      AdjacentSorted(q, less, i, j - 1);
      Between(less, q[j], q[j - 1], q[i]);
    }
  }

  lemma {:induction false} RunSorted(q: seq<Addr>, less: Less)
    requires StrictWeak(less) && q != []
    ensures Sorted(q[..RunLen(q, less)], less)
  {
    var n := RunLen(q, less);
    RunLenIs(q, less);
    forall i, j | 0 <= i < j < n ensures !less(q[j], q[i]) {
      AdjacentSorted(q, less, i, j);
    }
  }

  /** A sorted prefix lies within the first run. */
  lemma {:induction false} SortedInRun(q: seq<Addr>, less: Less, n: nat)
    requires 0 < n <= |q| && Sorted(q[..n], less)
    ensures RunLen(q, less) >= n
  {
    forall i, j | 0 <= i < j < n ensures !less(q[j], q[i]) {
      assert q[..n][i] == q[i] && q[..n][j] == q[j];
    }
    RunLenIs(q, less);
  }

  // ---------------------------------------------------------------------
  // Merging
  // ---------------------------------------------------------------------

  lemma {:induction false} MergeTakes(a: seq<Addr>, b: seq<Addr>, less: Less)
    requires a != [] && b != []
    ensures less(b[0], a[0]) ==> Merge(a, b, less) == [b[0]] + Merge(a, b[1..], less)
    ensures !less(b[0], a[0]) ==> Merge(a, b, less) == [a[0]] + Merge(a[1..], b, less)
  {
  }

  lemma ConsMultiset(q: seq<Addr>)
    requires q != []
    ensures multiset(q) == multiset{q[0]} + multiset(q[1..])
  {
    assert q == [q[0]] + q[1..];
  }

  lemma MultisetCons(x: Addr, r: seq<Addr>, s: multiset<Addr>)
    requires multiset(r) == s
    ensures multiset([x] + r) == multiset{x} + s
  {
  }

  lemma {:induction false} MergeMultiset(a: seq<Addr>, b: seq<Addr>, less: Less)
    ensures multiset(Merge(a, b, less)) == multiset(a) + multiset(b)
  {
    if a != [] && b != [] {
      MergeTakes(a, b, less);
      if less(b[0], a[0]) {
        MergeMultiset(a, b[1..], less);
        MultisetCons(b[0], Merge(a, b[1..], less), multiset(a) + multiset(b[1..]));
        ConsMultiset(b);
      } else {
        MergeMultiset(a[1..], b, less);
        MultisetCons(a[0], Merge(a[1..], b, less), multiset(a[1..]) + multiset(b));
        ConsMultiset(a);
      }
    }
  }

  lemma InMultiset(r: seq<Addr>, s: seq<Addr>, t: seq<Addr>)
    requires multiset(r) == multiset(s) + multiset(t)
    ensures forall x :: x in r <==> x in s || x in t
  {
    forall x ensures x in r <==> x in s || x in t {
      assert x in r <==> x in multiset(r);
      assert x in s <==> x in multiset(s);
      assert x in t <==> x in multiset(t);
    }
  }

  /** x before a sorted sequence none of which is below it. */
  lemma ConsSorted(x: Addr, q: seq<Addr>, less: Less)
    requires Sorted(q, less) && forall y :: y in q ==> !less(y, x)
    ensures Sorted([x] + q, less)
  {
    var r := [x] + q;
    forall i, j | 0 <= i < j < |r| ensures !less(r[j], r[i]) {
      assert r[j] == q[j - 1] && q[j - 1] in q;
    }
  }

  lemma HeadLeast(q: seq<Addr>, less: Less)
    requires StrictWeak(less) && q != [] && Sorted(q, less)
    ensures forall y :: y in q ==> !less(y, q[0])
    ensures Sorted(q[1..], less)
  {
  }

  lemma {:induction false} MergeSorted(a: seq<Addr>, b: seq<Addr>, less: Less)
    requires StrictWeak(less) && Sorted(a, less) && Sorted(b, less)
    ensures Sorted(Merge(a, b, less), less)
  {
    if a != [] && b != [] {
      HeadLeast(a, less);
      HeadLeast(b, less);
      if less(b[0], a[0]) {
        forall y | y in a ensures !less(y, b[0]) { Between(less, y, a[0], b[0]); }
      } else {
        forall y | y in b ensures !less(y, a[0]) { Between(less, y, b[0], a[0]); }
      }
      var x, a', b' := if less(b[0], a[0]) then b[0] else a[0],
                       if less(b[0], a[0]) then a else a[1..],
                       if less(b[0], a[0]) then b[1..] else b;
      MergeSorted(a', b', less);
      MergeMultiset(a', b', less);
      InMultiset(Merge(a', b', less), a', b');
      ConsSorted(x, Merge(a', b', less), less);
    }
  }

  /** Nothing in a sorted range equals an element below its head. */
  lemma {:induction false} NoneEquiv(a: seq<Addr>, y: Addr, x: Addr, less: Less)
    requires StrictWeak(less) && a != [] && Sorted(a, less) && less(y, a[0]) && Equiv(y, x, less)
    ensures Class(a, x, less) == []
  {
    HeadLeast(a, less);
    forall z | z in a ensures !Equiv(z, x, less) {
      Between(less, y, z, a[0]);
      Between(less, y, x, z);
    }
    NoClass(a, x, less);
  }

  lemma {:induction false} NoClass(a: seq<Addr>, x: Addr, less: Less)
    requires forall z :: z in a ==> !Equiv(z, x, less)
    ensures Class(a, x, less) == []
  {
    if a != [] {
      assert a[0] in a;
      NoClass(a[1..], x, less);
    }
  }

  /** Moving y in front of what it was already in front of, or of nothing of its class. */
  lemma {:induction false} ClassMove(y: Addr, r: seq<Addr>, ca: seq<Addr>, cb: seq<Addr>, x: Addr, less: Less)
    requires Class(r, x, less) == ca + cb && (Equiv(y, x, less) ==> ca == [])
    ensures Class([y] + r, x, less) == ca + ((if Equiv(y, x, less) then [y] else []) + cb)
  {
    ClassCons(y, r, x, less);
  }

  lemma {:induction false} ClassKeep(y: Addr, r: seq<Addr>, ca: seq<Addr>, cb: seq<Addr>, x: Addr, less: Less)
    requires Class(r, x, less) == ca + cb
    ensures Class([y] + r, x, less) == ((if Equiv(y, x, less) then [y] else []) + ca) + cb
  {
    ClassCons(y, r, x, less);
  }

  lemma {:induction false} MergeStable(a: seq<Addr>, b: seq<Addr>, x: Addr, less: Less)
    requires StrictWeak(less) && Sorted(a, less) && Sorted(b, less)
    ensures Class(Merge(a, b, less), x, less) == Class(a, x, less) + Class(b, x, less)
  {
    if a != [] && b != [] {
      MergeTakes(a, b, less);
      if less(b[0], a[0]) {
        MergeStable(a, b[1..], x, less);
        if Equiv(b[0], x, less) { NoneEquiv(a, b[0], x, less); }
        ClassMove(b[0], Merge(a, b[1..], less), Class(a, x, less), Class(b[1..], x, less), x, less);
      } else {
        MergeStable(a[1..], b, x, less);
        ClassKeep(a[0], Merge(a[1..], b, less), Class(a[1..], x, less), Class(b, x, less), x, less);
      }
    }
  }

  // ---------------------------------------------------------------------
  // A pass
  // ---------------------------------------------------------------------

  lemma {:induction false} TwoRuns(q: seq<Addr>, less: Less, n: nat, m: nat)
    requires q != [] && n == RunLen(q, less) < |q| && m == RunLen(q[n..], less)
    ensures Runs(q, less) == 2 + Runs(q[n + m..], less)
  {
    assert q[n..][m..] == q[n + m..];
  }

  lemma {:induction false} TwoSorted(q: seq<Addr>, less: Less, n: nat, m: nat)
    requires q != [] && n == RunLen(q, less) < |q| && m == RunLen(q[n..], less) && StrictWeak(less)
    ensures Sorted(q[..n], less) && Sorted(q[n..n + m], less)
  {
    assert q[n..][..m] == q[n..n + m];
    RunSorted(q, less);
    RunSorted(q[n..], less);
  }

  lemma ThreeParts(q: seq<Addr>, n: nat, m: nat)
    requires n + m <= |q|
    ensures q == q[..n] + q[n..n + m] + q[n + m..]
  {
  }

  lemma {:induction false} PassUnfolds(q: seq<Addr>, less: Less, n: nat, m: nat)
    requires q != [] && RunLen(q, less) == n < |q| && RunLen(q[n..], less) == m
    ensures Pass(q, less) == Merge(q[..n], q[n..n + m], less) + Pass(q[n + m..], less)
  {
  }

  lemma {:induction false} PassRunsUnfolds(q: seq<Addr>, less: Less, n: nat, m: nat)
    requires q != [] && RunLen(q, less) == n < |q| && RunLen(q[n..], less) == m
    ensures PassRuns(q, less) == 1 + PassRuns(q[n + m..], less)
  {
  }

  /** The two runs a step of a pass merges, and the rest. */
  lemma {:induction false} PassStep(q: seq<Addr>, less: Less) returns (a: seq<Addr>, b: seq<Addr>, rest: seq<Addr>)
    requires q != [] && RunLen(q, less) < |q|
    ensures q == a + b + rest && a != [] && b != []
    ensures |a| == RunLen(q, less) && |b| == RunLen(q[|a|..], less)
    ensures StrictWeak(less) ==> Sorted(a, less) && Sorted(b, less)
    ensures Pass(q, less) == Merge(a, b, less) + Pass(rest, less)
    ensures PassRuns(q, less) == 1 + PassRuns(rest, less)
    ensures Runs(q, less) == 2 + Runs(rest, less)
  {
    var n := RunLen(q, less);
    var m := RunLen(q[n..], less);
    a, b, rest := q[..n], q[n..n + m], q[n + m..];
    ThreeParts(q, n, m);
    PassUnfolds(q, less, n, m);
    PassRunsUnfolds(q, less, n, m);
    TwoRuns(q, less, n, m);
    if StrictWeak(less) {
      TwoSorted(q, less, n, m);
    }
  }

  lemma {:induction false} PassMultiset(q: seq<Addr>, less: Less)
    ensures multiset(Pass(q, less)) == multiset(q)
    decreases |q|
  {
    if q != [] && RunLen(q, less) < |q| {
      var a, b, rest := PassStep(q, less);
      PassMultiset(rest, less);
      MergeMultiset(a, b, less);
    }
  }

  lemma {:induction false} PassStable(q: seq<Addr>, x: Addr, less: Less)
    requires StrictWeak(less)
    ensures Class(Pass(q, less), x, less) == Class(q, x, less)
    decreases |q|
  {
    if q != [] && RunLen(q, less) < |q| {
      var a, b, rest := PassStep(q, less);
      PassStable(rest, x, less);
      MergeStable(a, b, x, less);
      ClassConcat(Merge(a, b, less), Pass(rest, less), x, less);
      ClassConcat(a + b, rest, x, less);
      ClassConcat(a, b, x, less);
    }
  }

  /** A pass leaves at most as many runs as it counts. */
  lemma {:induction false} PassJoins(q: seq<Addr>, less: Less)
    requires StrictWeak(less)
    ensures Runs(Pass(q, less), less) <= PassRuns(q, less)
    decreases |q|
  {
    if q != [] && RunLen(q, less) < |q| {
      var a, b, rest := PassStep(q, less);
      PassJoins(rest, less);
      MergeSorted(a, b, less);
      RunsPrefix(Merge(a, b, less), Pass(rest, less), less);
    } else if q != [] {
      assert q[|q|..] == [];
    }
  }

  /** Putting a sorted block in front adds at most one run. */
  lemma {:induction false} RunsPrefix(p: seq<Addr>, q: seq<Addr>, less: Less)
    requires p != [] && Sorted(p, less)
    ensures Runs(p + q, less) <= 1 + Runs(q, less)
    decreases |q|
  {
    var r := p + q;
    assert r[..|p|] == p;
    SortedInRun(r, less, |p|);
    var n := RunLen(r, less);
    assert r[n..] == q[n - |p|..];
    RunsSuffix(q, n - |p|, less);
  }

  /** Cutting off a prefix adds no run. */
  lemma {:induction false} RunsSuffix(q: seq<Addr>, k: nat, less: Less)
    requires k <= |q|
    ensures Runs(q[k..], less) <= Runs(q, less)
    decreases |q|
  {
    if k == 0 {
      assert q[0..] == q;
    } else if k < |q| {
      var n := RunLen(q, less);
      if k < n {
        RunCut(q, k, less);
        assert q[k..][n - k..] == q[n..];
      } else {
        assert q[n..][k - n..] == q[k..];
        RunsSuffix(q[n..], k - n, less);
      }
    }
  }

  lemma {:induction false} RunCut(q: seq<Addr>, k: nat, less: Less)
    requires q != [] && k < RunLen(q, less)
    ensures RunLen(q[k..], less) == RunLen(q, less) - k
  {
    if k > 0 {
      RunCut(q[1..], k - 1, less);
      assert q[1..][k - 1..] == q[k..];
    } else {
      assert q[0..] == q;
    }
  }

  /** A pass counts half as many runs as it found, rounded up. */
  lemma {:induction false} PassHalves(q: seq<Addr>, less: Less)
    ensures PassRuns(q, less) == (Runs(q, less) + 1) / 2
    decreases |q|
  {
    if q != [] {
      if RunLen(q, less) < |q| {
        var a, b, rest := PassStep(q, less);
        PassHalves(rest, less);
      } else {
        assert q[|q|..] == [];
      }
    }
  }

  /** One run is a sorted list. */
  lemma {:induction false} OneRun(q: seq<Addr>, less: Less)
    requires StrictWeak(less) && Runs(q, less) <= 1
    ensures Sorted(q, less)
  {
    if q != [] {
      assert q[RunLen(q, less)..] == [];
      RunSorted(q, less);
      assert q[..|q|] == q;
    }
  }

  // ---------------------------------------------------------------------
  // list_sort
  // ---------------------------------------------------------------------

  /** The passes of list_sort: stop after the first that counts at most one run. */
  function Sort(q: seq<Addr>, less: Less): (r: seq<Addr>)
    requires StrictWeak(less)
    decreases Runs(q, less)
  {
    if PassRuns(q, less) <= 1 then Pass(q, less)
    else
      PassHalves(q, less); PassJoins(q, less);
      Sort(Pass(q, less), less)
  }

  /** list_sort sorts, keeps the elements, and keeps equal elements in order. */
  lemma {:induction false} SortCorrect(q: seq<Addr>, less: Less)
    requires StrictWeak(less)
    ensures Sorted(Sort(q, less), less)
    ensures StableCopy(Sort(q, less), q, less)
    decreases Runs(q, less)
  {
    forall x ensures Class(Pass(q, less), x, less) == Class(q, x, less) {
      PassStable(q, x, less);
    }
    PassMultiset(q, less);
    PassHalves(q, less);
    PassJoins(q, less);
    if PassRuns(q, less) <= 1 {
      OneRun(Pass(q, less), less);
    } else {
      SortCorrect(Pass(q, less), less);
      var r := Sort(Pass(q, less), less);
      forall x ensures Class(r, x, less) == Class(q, x, less) {
        assert Class(r, x, less) == Class(Pass(q, less), x, less);
      }
    }
  }

  function Passes(q: seq<Addr>, less: Less): nat
    requires StrictWeak(less)
    decreases Runs(q, less)
  {
    if PassRuns(q, less) <= 1 then 1
    else
      PassHalves(q, less); PassJoins(q, less);
      1 + Passes(Pass(q, less), less)
  }

  /** list_sort makes at most lg R + 1 passes over a list of R runs. */
  lemma {:induction false} FewPasses(q: seq<Addr>, less: Less, n: nat)
    requires StrictWeak(less) && Runs(q, less) <= Pow2(n)
    ensures Passes(q, less) <= n + 1
    decreases n
  {
    PassHalves(q, less);
    PassJoins(q, less);
    if PassRuns(q, less) > 1 {
      FewPasses(Pass(q, less), less, n - 1);
    }
  }

  /** Sorted and stable leaves no choice. */
  lemma {:induction false} StableUnique(p: seq<Addr>, q: seq<Addr>, less: Less)
    requires StrictWeak(less) && Sorted(p, less) && Sorted(q, less)
    requires forall x :: Class(p, x, less) == Class(q, x, less)
    ensures p == q
  {
    if p == [] || q == [] {
      assert p != [] ==> Class(p, p[0], less) != [];
      assert q != [] ==> Class(q, q[0], less) != [];
    } else {
      HeadsEqual(p, q, less);
      HeadLeast(p, less);
      HeadLeast(q, less);
      forall x ensures Class(p[1..], x, less) == Class(q[1..], x, less) {
        assert Class(p, x, less) == Class(q, x, less);
        var h := if Equiv(p[0], x, less) then [p[0]] else [];
        assert h + Class(p[1..], x, less) == h + Class(q[1..], x, less);
        assert (h + Class(p[1..], x, less))[|h|..] == (h + Class(q[1..], x, less))[|h|..];
      }
      StableUnique(p[1..], q[1..], less);
      assert p == [p[0]] + p[1..] && q == [q[0]] + q[1..];
    }
  }

  lemma {:induction false} HeadsEqual(p: seq<Addr>, q: seq<Addr>, less: Less)
    requires StrictWeak(less) && p != [] && q != [] && Sorted(p, less) && Sorted(q, less)
    requires forall x :: Class(p, x, less) == Class(q, x, less)
    ensures p[0] == q[0]
  {
    var a, b := p[0], q[0];
    HeadLeast(p, less);
    HeadLeast(q, less);
    ClassMembers(p, a, less);
    ClassMembers(q, a, less);
    ClassMembers(p, b, less);
    ClassMembers(q, b, less);
    assert Class(p, a, less)[0] == a;
    assert a in Class(p, a, less) && a in q;
    assert Class(q, b, less)[0] == b;
    assert b in Class(q, b, less) && b in p;
    assert Equiv(b, a, less);
    assert Class(q, a, less)[0] == b;
  }

  // ---------------------------------------------------------------------
  // list_insert_ordered
  // ---------------------------------------------------------------------

  /** Where list_insert_ordered stops. */
  function Place(q: seq<Addr>, e: Addr, less: Less): (i: nat)
    ensures i <= |q|
    ensures forall j :: 0 <= j < i ==> !less(e, q[j])
    ensures i < |q| ==> less(e, q[i])
  {
    if q == [] || less(e, q[0]) then 0 else 1 + Place(q[1..], e, less)
  }

  function InsertOrdered(q: seq<Addr>, e: Addr, less: Less): seq<Addr> {
    var i := Place(q, e, less);
    q[..i] + [e] + q[i..]
  }

  /** Inserting into a sorted list keeps it sorted and puts the new element behind
      those equal to it. */
  lemma InsertCorrect(q: seq<Addr>, e: Addr, less: Less)
    requires StrictWeak(less) && Sorted(q, less)
    ensures Sorted(InsertOrdered(q, e, less), less)
    ensures StableCopy(InsertOrdered(q, e, less), q + [e], less)
  {
    InsertSorted(q, e, less);
    var i := Place(q, e, less);
    assert q == q[..i] + q[i..];
    forall x ensures Class(InsertOrdered(q, e, less), x, less) == Class(q + [e], x, less) {
      InsertStable(q[..i], q[i..], e, x, less) by {
        if i < |q| { assert q[i..][0] == q[i]; }
      }
    }
  }

  lemma {:induction false} InsertStable(p: seq<Addr>, q: seq<Addr>, e: Addr, x: Addr, less: Less)
    requires StrictWeak(less) && Sorted(q, less) && (q != [] ==> less(e, q[0]))
    ensures Class(p + [e] + q, x, less) == Class(p + q + [e], x, less)
  {
    ClassConcat(p + [e], q, x, less);
    ClassConcat(p, [e], x, less);
    ClassConcat(p + q, [e], x, less);
    ClassConcat(p, q, x, less);
    if Equiv(e, x, less) && q != [] {
      NoneEquiv(q, e, x, less);
    }
  }

  lemma InsertSorted(q: seq<Addr>, e: Addr, less: Less)
    requires StrictWeak(less) && Sorted(q, less)
    ensures Sorted(InsertOrdered(q, e, less), less)
  {
    var i, r := Place(q, e, less), InsertOrdered(q, e, less);
    forall a, b | 0 <= a < b < |r| ensures !less(r[b], r[a]) {
      if b == i {
        assert r[a] == q[a];
      } else if a == i {
        assert r[b] == q[b - 1] && less(e, q[i]);
        assert b - 1 == i || !less(q[b - 1], q[i]);
        Between(less, q[b - 1], q[i], e);
      } else {
        assert r[a] == q[if a < i then a else a - 1] && r[b] == q[if b < i then b else b - 1];
      }
    }
  }

  /** Inserting the elements of q one after another into an empty list. */
  function InsertAll(q: seq<Addr>, less: Less): seq<Addr> {
    if q == [] then [] else InsertOrdered(InsertAll(q[..|q| - 1], less), q[|q| - 1], less)
  }

  lemma {:induction false} InsertAllCorrect(q: seq<Addr>, less: Less)
    requires StrictWeak(less)
    ensures Sorted(InsertAll(q, less), less) && forall x :: Class(InsertAll(q, less), x, less) == Class(q, x, less)
  {
    if q != [] {
      var p, e := q[..|q| - 1], q[|q| - 1];
      InsertAllCorrect(p, less);
      InsertCorrect(InsertAll(p, less), e, less);
      assert q == p + [e];
      forall x ensures Class(InsertAll(q, less), x, less) == Class(q, x, less) {
        ClassConcat(InsertAll(p, less), [e], x, less);
        ClassConcat(p, [e], x, less);
      }
    }
  }

  /** list_sort leaves exactly the list that list_insert_ordered builds. */
  lemma {:induction false} SortIsInsertAll(q: seq<Addr>, less: Less)
    requires StrictWeak(less)
    ensures Sort(q, less) == InsertAll(q, less)
  {
    SortCorrect(q, less);
    InsertAllCorrect(q, less);
    StableUnique(Sort(q, less), InsertAll(q, less), less);
  }

  // ---------------------------------------------------------------------
  // list_unique
  // ---------------------------------------------------------------------

  /** list_unique from element `first`, which is kept: what stays behind it, and what
      is moved out. */
  function Unique(first: Addr, q: seq<Addr>, less: Less): (r: (seq<Addr>, seq<Addr>))
    decreases |q|
  {
    if q == [] then ([], [])
    else if Equiv(first, q[0], less) then
      var (kept, dups) := Unique(first, q[1..], less); (kept, [q[0]] + dups)
    else
      var (kept, dups) := Unique(q[0], q[1..], less); ([q[0]] + kept, dups)
  }

  ghost predicate NoEqualNeighbours(q: seq<Addr>, less: Less) {
    forall i :: 0 <= i < |q| - 1 ==> !Equiv(q[i], q[i + 1], less)
  }

  /** Every element is either kept or moved out, neighbours that are kept differ, and
      each element moved out equals one that is kept. */
  lemma {:induction false} UniqueCorrect(first: Addr, q: seq<Addr>, less: Less)
    ensures var (kept, dups) := Unique(first, q, less);
      && multiset(kept) + multiset(dups) == multiset(q)
      && NoEqualNeighbours([first] + kept, less)
      && forall d :: d in dups ==> exists x :: x in [first] + kept && Equiv(x, d, less)
    decreases |q|
  {
    if q != [] {
      var (kept, dups) := Unique(first, q, less);
      assert q == [q[0]] + q[1..];
      if Equiv(first, q[0], less) {
        UniqueCorrect(first, q[1..], less);
        assert first in [first] + kept;
      } else {
        UniqueCorrect(q[0], q[1..], less);
        var k1 := Unique(q[0], q[1..], less).0;
        assert [first] + kept == [first] + ([q[0]] + k1);
        forall i | 0 <= i < |[first] + kept| - 1 ensures !Equiv(([first] + kept)[i], ([first] + kept)[i + 1], less) {
          if i > 0 {
            assert ([first] + kept)[i] == ([q[0]] + k1)[i - 1] && ([first] + kept)[i + 1] == ([q[0]] + k1)[i];
          }
        }
        forall d | d in dups ensures exists x :: x in [first] + kept && Equiv(x, d, less) {
          var x :| x in [q[0]] + k1 && Equiv(x, d, less);
          assert x in [first] + kept;
        }
      }
    }
  }
}
