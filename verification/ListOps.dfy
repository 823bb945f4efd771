/** The operations of `lib/kernel/list.c` on linked elements. */
module ListOps {
  import opened Options
  import opened Address
  import opened ListOrder
  import opened Sequences
  import opened ListLinks

  function Reverse(q: seq<Addr>): seq<Addr> {
    if q == [] then [] else Reverse(q[1..]) + [q[0]]
  }

  lemma {:induction false} ReverseAt(q: seq<Addr>, i: nat)
    requires i < |q|
    ensures |Reverse(q)| == |q| && Reverse(q)[i] == q[|q| - 1 - i]
  {
    if |q| > 1 { ReverseAt(q[1..], if i < |q| - 1 then i else 0); }
  }

  /** Reversing twice restores the list. */
  lemma {:induction false} ReverseTwice(q: seq<Addr>)
    ensures Reverse(Reverse(q)) == q
  {
    var r := Reverse(q);
    if q != [] { ReverseAt(q, 0); }
    forall i | 0 <= i < |q| ensures |Reverse(r)| == |q| && Reverse(r)[i] == q[i] {
      ReverseAt(r, i);
      ReverseAt(q, |q| - 1 - i);
    }
  }

  /** Fields of elements outside q are as before. */
  ghost predicate SameOutside(m: Links, m': Links, q: seq<Addr>) {
    && (forall z :: z !in q && z in m.prev ==> z in m'.prev && m'.prev[z] == m.prev[z])
    && (forall z :: z !in q && z in m.next ==> z in m'.next && m'.next[z] == m.next[z])
  }

  ghost predicate Within(q: seq<Addr>, r: seq<Addr>) {
    forall z :: z in q ==> z in r
  }

  /** What a chain tells about the element p leads to. */
  lemma ChainAt(m: Links, l: List, p: seq<Addr>, q: seq<Addr>)
    requires Chain(m, l, p + q)
    ensures First(q, l) in m.prev && First(q, l) in m.next
    ensures q != [] ==> m.next[q[0]] == First(q[1..], l) && q[0] != l.tail && q[0] in m.next
    ensures p != [] ==> m.prev[First(q, l)] == p[|p| - 1]
    ensures l.head in m.next && (p == [] ==> m.next[l.head] == First(q, l))
    ensures First(q, l) == l.tail <==> q == []
  {
    var u, v := [l.head] + p, q + [l.tail];
    NodesSplit(l, p, q);
    PathSplit(m, u, v);
    NoDupParts(u, v);
    assert v[0] in u + v && l.head in u + v;
    if q != [] {
      assert v == [q[0]] + (q[1..] + [l.tail]);
      PathSplit(m, [q[0]], q[1..] + [l.tail]);
      NodesSplit(l, p, q[1..]);
      NoDupParts([q[0]], q[1..] + [l.tail]);
      assert l.tail in q[1..] + [l.tail];
    }
  }

  /** The same, i elements further on. */
  lemma {:induction false} At(m: Links, l: List, p: seq<Addr>, q: seq<Addr>, i: nat)
    requires Chain(m, l, p + q) && i <= |q|
    ensures First(q[i..], l) in m.prev && First(q[i..], l) in m.next
    ensures i < |q| ==> m.next[q[i]] == First(q[i + 1..], l)
    ensures i > 0 ==> m.prev[First(q[i..], l)] == q[i - 1]
    ensures First(q[i..], l) == l.tail <==> i == |q|
  {
    assert (p + q[..i]) + q[i..] == p + q;
    ChainAt(m, l, p + q[..i], q[i..]);
    if i < |q| { assert q[i..][1..] == q[i + 1..] && q[i..][0] == q[i]; }
    if i > 0 { assert (p + q[..i])[|p + q[..i]| - 1] == q[i - 1]; }
  }

  /** And inside a range q that ends before y. */
  lemma InRange(m: Links, l: List, p: seq<Addr>, q: seq<Addr>, y: seq<Addr>, i: nat)
    requires Chain(m, l, p + q + y) && i <= |q|
    ensures First(q[i..] + y, l) in m.prev
    ensures i < |q| ==> First(q[i..] + y, l) == q[i] && q[i] in m.next && m.next[q[i]] == First(q[i + 1..] + y, l)
    ensures i > 0 ==> m.prev[First(q[i..] + y, l)] == q[i - 1]
    ensures First(q[i..] + y, l) == First(y, l) <==> i == |q|
  {
    assert (p + q[..i]) + q[i..] + y == p + q + y;
    SegmentEnds(m, l, p + q[..i], q[i..], y);
    assert (q + y)[i..] == q[i..] + y && p + (q + y) == p + q + y;
    At(m, l, p, q + y, i);
    if i < |q| { assert (q + y)[i + 1..] == q[i + 1..] + y; }
  }

  class ListHeap {
    var prev: map<Addr, Addr>
    var next: map<Addr, Addr>

    function M(): Links
      reads this
    {
      Links(prev, next)
    }

    method ListInit(l: List)
      requires l.head != l.tail && l.head != NULL && l.tail != NULL
      modifies this
      ensures Chain(M(), l, [])
      ensures SameOutside(old(M()), M(), [l.head, l.tail]) && Grows(old(M()), M())
    {
      prev := prev[l.head := NULL];
      next := next[l.head := l.tail];
      prev := prev[l.tail := l.head];
      next := next[l.tail := NULL];
      assert Nodes(l, []) == [l.head, l.tail];
    }

    /** elem goes in front of `before`, which follows p in the list. */
    method ListInsert(before: Addr, elem: Addr, ghost l: List, ghost p: seq<Addr>, ghost q: seq<Addr>)
      requires Chain(M(), l, p + q) && before == First(q, l)
      requires elem != NULL && elem in prev && elem in next && elem !in Nodes(l, p + q)
      modifies this
      ensures Chain(M(), l, p + [elem] + q)
      ensures M() == Link(old(M()), before, elem, elem)
    {
      ghost var m := M();
      ChainAt(m, l, p, q);
      OneMore(l, p, elem, q);
      InsertChain(m, l, p, [elem], q);
      prev := prev[elem := prev[before]];
      next := next[elem := before];
      next := next[prev[before] := elem];
      prev := prev[before := elem];
      assert M() == Link(m, before, elem, elem) by {
        assert elem != before by { HeadIn(l, p, q); }
      }
    }

    /** Returns the element that followed elem. */
    method ListRemove(elem: Addr, ghost l: List, ghost p: seq<Addr>, ghost q: seq<Addr>) returns (after: Addr)
      requires Chain(M(), l, p + [elem] + q)
      modifies this
      ensures Chain(M(), l, p + q)
      ensures after == First(q, l)
      ensures elem in old(prev) && elem in old(next) && M() == Unlink(old(M()), elem, elem)
      ensures elem in prev && elem in next && elem !in Nodes(l, p + q)
    {
      ghost var m := M();
      RemoveChain(m, l, p, [elem], q);
      SegmentOf(l, p, [elem], q);
      Removed(m, l, p, elem, q);
      next := next[prev[elem] := next[elem]];
      prev := prev[next[elem] := prev[elem]];
      after := next[elem];
    }

    /** The elements s, from first up to last exclusive, leave their list k and go in
        front of `before` in list l, which may be the same list. */
    method ListSplice(before: Addr, first: Addr, last: Addr,
                      ghost l: List, ghost p: seq<Addr>, ghost q: seq<Addr>,
                      ghost k: List, ghost x: seq<Addr>, ghost s: seq<Addr>, ghost y: seq<Addr>)
      requires Chain(M(), k, x + s + y) && first == First(s + y, k) && last == First(y, k) && before == First(q, l)
      requires if k == l then x + y == p + q
               else Chain(M(), l, p + q) && Disjoint(Nodes(l, p + q), Nodes(k, x + s + y))
      modifies this
      ensures Chain(M(), l, p + s + q)
      ensures k != l ==> Chain(M(), k, x + y)
      ensures SameOutside(old(M()), M(), Nodes(k, x + s + y) + Nodes(l, p + q))
    {
      ghost var m := M();
      SegmentEnds(m, k, x, s, y);
      if first == last {
        assert s == [] && x + s + y == x + y && p + s + q == p + q;
        return;
      }
      if k == l { SpliceWithin(m, l, p, q, x, s, y); } else { SpliceAcross(m, l, p, q, k, x, s, y); }
      SpliceOutside(m, l, p, q, k, x, s, y);
      var z := prev[last];
      next := next[prev[first] := next[z]];
      prev := prev[next[z] := prev[first]];
      assert M() == Unlink(m, first, z);
      ghost var m1 := M();
      prev := prev[first := prev[before]];
      next := next[z := before];
      next := next[prev[before] := first];
      prev := prev[before := z];
      assert M() == Link(m1, before, first, z);
    }

    /** The end, exclusive, of the run that starts at a = q[0], in the range that ends
        before b. */
    method FindEndOfRun(a: Addr, b: Addr, less: Less, ghost l: List, ghost p: seq<Addr>, ghost q: seq<Addr>, ghost y: seq<Addr>)
      returns (e: Addr)
      requires Chain(M(), l, p + q + y) && q != [] && a == q[0] && b == First(y, l)
      ensures e == First(q[RunLen(q, less)..] + y, l)
    {
      InRange(M(), l, p, q, y, 0);
      InRange(M(), l, p, q, y, 1);
      e := next[a];
      ghost var i := 1;
      while e != b && !less(e, prev[e])
        invariant 1 <= i <= |q| && e == First(q[i..] + y, l)
        invariant RunLen(q, less) == i - 1 + RunLen(q[i - 1..], less)
        invariant e in prev && (e == b <==> i == |q|) && prev[e] == q[i - 1]
        decreases |q| - i
      {
        assert q[i - 1..][1..] == q[i..] && q[i - 1..][1] == q[i];
        InRange(M(), l, p, q, y, i);
        e := next[e];
        i := i + 1;
        InRange(M(), l, p, q, y, i);
      }
    }

    /** The same in the rest of the list. */
    method RunEnd(a: Addr, less: Less, l: List, ghost p: seq<Addr>, ghost q: seq<Addr>) returns (e: Addr)
      requires Chain(M(), l, p + q) && q != [] && a == q[0]
      ensures e == First(q[RunLen(q, less)..], l)
    {
      assert p + q + [] == p + q;
      e := FindEndOfRun(a, l.tail, less, l, p, q, []);
      assert q[RunLen(q, less)..] + [] == q[RunLen(q, less)..];
    }

    /** One move of inplace_merge: the element y, which follows mid, goes in front of
        mid; returns what followed y. */
    method MergeMove(x: Addr, y: Addr, ghost l: List, ghost p: seq<Addr>, ghost mid: seq<Addr>, ghost q: seq<Addr>)
      returns (after: Addr)
      requires Chain(M(), l, p + mid + [y] + q) && mid != [] && x == mid[0]
      modifies this
      ensures Chain(M(), l, p + [y] + (mid + q)) && after == First(q, l)
      ensures SameOutside(old(M()), M(), Nodes(l, p + mid + [y] + q))
    {
      ghost var m := M();
      SegmentEnds(m, l, p + mid, [y], q);
      assert (p + mid) + q == p + (mid + q);
      after := next[y];
      ListSplice(x, prev[after], after, l, p, mid + q, l, p + mid, [y], q);
      SegmentOf(l, p + mid, [y], q);
      OutsideTrans(m, m, M(), Nodes(l, p + mid + [y] + q), Nodes(l, p + mid + [y] + q) + Nodes(l, p + (mid + q)));
    }

    /** Merges the adjacent ranges a, from a0 to a1b0, and b, from a1b0 to b1. */
    method InplaceMerge(a0: Addr, a1b0: Addr, b1: Addr, less: Less,
                        ghost l: List, ghost p: seq<Addr>, ghost a: seq<Addr>, ghost b: seq<Addr>, ghost q: seq<Addr>)
      requires Chain(M(), l, p + a + b + q)
      requires a0 == First(a + b + q, l) && a1b0 == First(b + q, l) && b1 == First(q, l)
      modifies this
      ensures Chain(M(), l, p + Merge(a, b, less) + q)
      ensures SameOutside(old(M()), M(), Nodes(l, p + a + b + q))
    {
      var x, y := a0, a1b0;
      ghost var d, a', b' := p, a, b;
      ghost var n := Nodes(l, p + a + b + q);
      while x != y && y != b1
        invariant Merging(M(), l, d, a', b', q, x, y)
        invariant d + Merge(a', b', less) == p + Merge(a, b, less)
        invariant Within(Nodes(l, d + a' + b' + q), n)
        invariant SameOutside(old(M()), M(), n)
        decreases |a'| + |b'|
      {
        MergeEnds(M(), l, d, a', b', q, x, y);
        MergeFirst(d, a', b', less);
        if !less(y, x) {
          MergeSkip(M(), l, d, a', b', q, x, y);
          d, a', x := d + [x], a'[1..], next[x];
        } else {
          ghost var m := M();
          MergeTake(l, d, a', b', q);
          ghost var n' := Nodes(l, d + a' + [y] + (b'[1..] + q));
          var e := y;
          y := MergeMove(x, e, l, d, a', b'[1..] + q);
          d, b' := d + [e], b'[1..];
          OutsideTrans(old(M()), m, M(), n, n');
        }
      }
      MergeEnds(M(), l, d, a', b', q, x, y);
      assert d + a' + b' == p + Merge(a, b, less);
    }

    /** One pass of list_sort; returns the number of runs it leaves. */
    method SortPass(l: List, less: Less, ghost q: seq<Addr>) returns (runs: nat)
      requires Chain(M(), l, q)
      modifies this
      ensures Chain(M(), l, Pass(q, less)) && runs == PassRuns(q, less)
      ensures SameOutside(old(M()), M(), Nodes(l, q))
    {
      runs := 0;
      ghost var d, r: seq<Addr> := [], q;
      assert d + r == q;
      ChainAt(M(), l, d, r);
      var a0 := next[l.head];
      while a0 != l.tail
        invariant Chain(M(), l, d + r) && a0 == First(r, l)
        invariant d + Pass(r, less) == Pass(q, less) && runs + PassRuns(r, less) == PassRuns(q, less)
        invariant Within(Nodes(l, d + r), Nodes(l, q))
        invariant SameOutside(old(M()), M(), Nodes(l, q))
        decreases |r|
      {
        ChainAt(M(), l, d, r);
        runs := runs + 1;
        var a1b0 := RunEnd(a0, less, l, d, r);
        RunEnds(M(), l, d, r, less);
        if a1b0 == l.tail { break; }
        ghost var a, b, rest := PassStep(r, less);
        PassParts(d, r, a, b, rest, less);
        var b1 := RunEnd(a1b0, less, l, d + a, b + rest);
        ghost var m := M();
        InplaceMerge(a0, a1b0, b1, less, l, d, a, b, rest);
        PassMerged(l, d, a, b, rest, less);
        OutsideTrans(old(M()), m, M(), Nodes(l, q), Nodes(l, d + r));
        d, r, a0 := d + Merge(a, b, less), rest, b1;
      }
      ChainAt(M(), l, d, r);
    }

    /** Passes over the list until a pass leaves one run. */
    method ListSort(l: List, less: Less, ghost q: seq<Addr>)
      requires Chain(M(), l, q) && StrictWeak(less)
      modifies this
      ensures Chain(M(), l, Sort(q, less))
      ensures SameOutside(old(M()), M(), Nodes(l, q))
    {
      var runs := SortPass(l, less, q);
      ghost var was, now := q, Pass(q, less);
      PassNodes(l, q, less);
      while runs > 1
        invariant now == Pass(was, less) && runs == PassRuns(was, less)
        invariant Sort(was, less) == Sort(q, less)
        invariant Chain(M(), l, now) && Within(Nodes(l, now), Nodes(l, q))
        invariant SameOutside(old(M()), M(), Nodes(l, q))
        decreases Runs(was, less)
      {
        PassHalves(was, less);
        PassJoins(was, less);
        ghost var m := M();
        runs := SortPass(l, less, now);
        OutsideTrans(old(M()), m, M(), Nodes(l, q), Nodes(l, now));
        PassNodes(l, now, less);
        was, now := now, Pass(now, less);
      }
    }

    method ListInsertOrdered(l: List, elem: Addr, less: Less, ghost q: seq<Addr>)
      requires Chain(M(), l, q)
      requires elem != NULL && elem in prev && elem in next && elem !in Nodes(l, q)
      modifies this
      ensures Chain(M(), l, InsertOrdered(q, elem, less))
      ensures SameOutside(old(M()), M(), Nodes(l, q) + [elem]) && Grows(old(M()), M())
    {
      var e := next[l.head];
      ghost var i := 0;
      Begin(M(), l, q);
      while e != l.tail && !less(elem, e)
        invariant M() == old(M())
        invariant 0 <= i <= |q| && e == First(q[i..], l) && Place(q, elem, less) == i + Place(q[i..], elem, less)
        decreases |q| - i
      {
        Step(M(), l, q, i);
        e := next[e];
        i := i + 1;
      }
      Step(M(), l, q, i);
      LinkOutside(M(), l, q[..i], elem, q[i..]);
      ListInsert(e, elem, l, q[..i], q[i..]);
    }

    /** Takes the duplicate e out of l and, if there is a list for duplicates, appends it there. */
    method DropDuplicate(e: Addr, l: List, duplicates: Option<List>, ghost p: seq<Addr>, ghost q: seq<Addr>, ghost t: seq<Addr>)
      requires Chain(M(), l, p + [e] + q) && Apart(M(), l, p + [e] + q, duplicates, t)
      modifies this
      ensures Chain(M(), l, p + q) && Apart(M(), l, p + q, duplicates, t + [e])
      ensures SameOutside(old(M()), M(), Nodes(l, p + [e] + q) + NodesOf(duplicates, t))
    {
      ghost var m, n := M(), Nodes(l, p + [e] + q) + NodesOf(duplicates, t);
      Removed(m, l, p, e, q);
      UnlinkOutside(m, l, p, e, q);
      SegmentOf(l, p, [e], q);
      if duplicates.Some? { UnlinkElsewhere(m, l, p, [e], q, duplicates.value, t); }
      var _ := ListRemove(e, l, p, q);
      if duplicates.Some? {
        var d := duplicates.value;
        assert t + [] == t && t + [e] + [] == t + [e];
        assert e in [e];
        ChainAt(M(), d, t, []);
        LinkElsewhere(M(), d, t, [], [e], l, p + q);
        ghost var m1 := M();
        LinkOutside(m1, d, t, e, []);
        ListInsert(d.tail, e, d, t, []);
        OutsideTrans(m, m1, M(), n, Nodes(d, t) + [e]);
      }
    }

    /** The same inside list_unique's loop; returns what then follows elem. */
    method DropNext(elem: Addr, e: Addr, l: List, duplicates: Option<List>, ghost m0: Links,
                    ghost p: seq<Addr>, ghost r: seq<Addr>, ghost u: seq<Addr>, ghost n: seq<Addr>)
      returns (after: Addr)
      requires r != [] && Uniquing(m0, M(), l, duplicates, p, r, u, n, elem, e)
      modifies this
      ensures Uniquing(m0, M(), l, duplicates, p, r[1..], u + [e], n, elem, after)
    {
      ghost var m := M();
      assert p + [r[0]] + r[1..] == p + r;
      DropDuplicate(e, l, duplicates, p, r[1..], u);
      OutsideTrans(m0, m, M(), n, Nodes(l, p + r) + NodesOf(duplicates, u));
      StillWithin(l, duplicates, p, e, r[1..], u, n);
      NextOf(M(), l, p, r[1..]);
      after := next[elem];
    }

    /** One round of that loop, at the elements elem and after. */
    method UniqueRound(elem: Addr, after: Addr, l: List, duplicates: Option<List>, less: Less, ghost m0: Links,
                       ghost p: seq<Addr>, ghost r: seq<Addr>, ghost u: seq<Addr>, ghost n: seq<Addr>)
      returns (elem': Addr, after': Addr, ghost p': seq<Addr>, ghost r': seq<Addr>, ghost u': seq<Addr>)
      requires Uniquing(m0, M(), l, duplicates, p, r, u, n, elem, after) && after != l.tail
      modifies this
      ensures Uniquing(m0, M(), l, duplicates, p', r', u', n, elem', after') && |r'| < |r|
      ensures UniqueFrom(p', u', elem', r', less) == UniqueFrom(p, u, elem, r, less)
    {
      UniqueStep(p, u, elem, r, less);
      if !less(elem, after) && !less(after, elem) {
        elem', p', r', u' := elem, p, r[1..], u + [after];
        after' := DropNext(elem, after, l, duplicates, m0, p, r, u, n);
      } else {
        elem', p', r', u' := after, p + [after], r[1..], u;
        KeepNext(m0, M(), l, duplicates, p, r, u, n, elem, after);
        after' := next[after];
      }
    }

    /** duplicates, when given, is a list t apart from l. */
    method ListUnique(l: List, duplicates: Option<List>, less: Less, ghost q: seq<Addr>, ghost t: seq<Addr>)
      requires Chain(M(), l, q) && Apart(M(), l, q, duplicates, t)
      modifies this
      ensures q == [] ==> M() == old(M())
      ensures q != [] ==> var (kept, dups) := Unique(q[0], q[1..], less);
        Chain(M(), l, [q[0]] + kept) && Apart(M(), l, [q[0]] + kept, duplicates, t + dups)
      ensures SameOutside(old(M()), M(), Nodes(l, q) + NodesOf(duplicates, t))
    {
      Begin(M(), l, q);
      Step(M(), l, q, 0);
      if next[l.head] == l.tail { return; }
      assert [q[0]] + q[1..] == q;
      UniqueRest(next[l.head], l, duplicates, less, M(), q[0], q[1..], t, Nodes(l, q) + NodesOf(duplicates, t));
    }

    /** The loop of list_unique, from the first element x of the list. */
    method UniqueRest(first: Addr, l: List, duplicates: Option<List>, less: Less, ghost m0: Links,
                      ghost x: Addr, ghost q: seq<Addr>, ghost t: seq<Addr>, ghost n: seq<Addr>)
      requires first == x && Parted(m0, M(), l, duplicates, [x] + q, t, n)
      modifies this
      ensures var (kept, dups) := UniqueFrom([x], t, x, q, less); Parted(m0, M(), l, duplicates, kept, dups, n)
    {
      var elem := first;
      ghost var p, r, u := [x], q, t;
      NextOf(M(), l, p, r);
      var after := next[elem];
      while after != l.tail
        invariant Uniquing(m0, M(), l, duplicates, p, r, u, n, elem, after)
        invariant UniqueFrom(p, u, elem, r, less) == UniqueFrom([x], t, x, q, less)
        decreases |r|
      {
        elem, after, p, r, u := UniqueRound(elem, after, l, duplicates, less, m0, p, r, u, n);
      }
      ChainAt(M(), l, p, r);
      assert p + r == p && p + [] == p && u + [] == u;
    }

    method ListReverse(l: List, ghost q: seq<Addr>)
      requires Chain(M(), l, q)
      modifies this
      ensures Chain(M(), l, Reverse(q))
      ensures SameOutside(old(M()), M(), Nodes(l, q))
    {
      Begin(M(), l, q);
      Step(M(), l, q, 0);
      if next[l.head] == l.tail { return; }
      ghost var m := M();
      var e := next[l.head];
      ghost var i := 0;
      while e != l.tail
        invariant 0 <= i <= |q| && e == First(q[i..], l)
        invariant Turned(m, M(), q[..i])
        decreases |q| - i
      {
        Step(m, l, q, i);
        Fresh(l, q, i);
        TurnOne(m, M(), q[..i], e);
        prev, next := prev[e := next[e]], next[e := prev[e]];
        e := prev[e];
        i := i + 1;
      }
      Step(m, l, q, i);
      assert q[..i] == q;
      SwapEnds(l, m, q);
    }

    /** The last two swaps of list_reverse. */
    method SwapEnds(l: List, ghost m: Links, ghost q: seq<Addr>)
      requires Chain(m, l, q) && q != [] && Turned(m, M(), q)
      modifies this
      ensures Chain(M(), l, Reverse(q))
      ensures SameOutside(m, M(), Nodes(l, q))
    {
      EndsOf(m, l, q);
      LinksOf(m, l, q, 0);
      LinksOf(m, l, q, |q| - 1);
      ghost var a, b := q[0], q[|q| - 1];
      assert a in q && b in q;
      var x := next[l.head];
      next := next[l.head := prev[l.tail]];
      prev := prev[l.tail := x];
      assert next[l.head] == b && prev[l.tail] == a;
      var y := prev[next[l.head]];
      prev := prev[next[l.head] := next[prev[l.tail]]];
      next := next[prev[l.tail] := y];
      assert prev[b] == l.head && next[a] == l.tail;
      forall i {:trigger SwappedAt(M(), l, q, i)} | 0 <= i < |q| ensures SwappedAt(M(), l, q, i) {
        LinksOf(m, l, q, i);
        Fresh(l, q, i);
        Fresh(l, q, |q| - 1);
        assert i < |q| - 1 ==> q[i] in q[..|q| - 1];
        assert 0 < i ==> q[0] in q[..i];
      }
      ReverseLinks(M(), l, q);
    }
  }

  /** A list of duplicates, when there is one, is t and shares nothing with l. */
  ghost predicate Apart(m: Links, l: List, q: seq<Addr>, d: Option<List>, t: seq<Addr>) {
    d.Some? ==> Chain(m, d.value, t) && Disjoint(Nodes(d.value, t), Nodes(l, q))
  }

  function NodesOf(d: Option<List>, t: seq<Addr>): seq<Addr> {
    if d.Some? then Nodes(d.value, t) else []
  }

  /** Inside list_unique: q is in l and u in the list of duplicates, and only nodes in n
      have been written. */
  ghost predicate Parted(m0: Links, m: Links, l: List, d: Option<List>, q: seq<Addr>, u: seq<Addr>, n: seq<Addr>) {
    && Chain(m, l, q) && Apart(m, l, q, d, u)
    && Within(Nodes(l, q), n) && Within(NodesOf(d, u), n) && SameOutside(m0, m, n)
  }

  ghost predicate Uniquing(m0: Links, m: Links, l: List, d: Option<List>, p: seq<Addr>, r: seq<Addr>, u: seq<Addr>, n: seq<Addr>,
                           elem: Addr, after: Addr)
  {
    Parted(m0, m, l, d, p + r, u, n) && p != [] && elem == p[|p| - 1] && after == First(r, l)
  }

  lemma KeepNext(m0: Links, m: Links, l: List, d: Option<List>, p: seq<Addr>, r: seq<Addr>, u: seq<Addr>, n: seq<Addr>,
                 elem: Addr, after: Addr)
    requires r != [] && Uniquing(m0, m, l, d, p, r, u, n, elem, after)
    ensures after in m.next && Uniquing(m0, m, l, d, p + [after], r[1..], u, n, after, m.next[after])
  {
    Shift(p, r);
    NextOf(m, l, p + [after], r[1..]);
  }

  lemma Shift(p: seq<Addr>, r: seq<Addr>)
    requires r != []
    ensures (p + [r[0]]) + r[1..] == p + r
  {
  }

  /** What list_unique makes of p, u and the rest r. */
  function UniqueFrom(p: seq<Addr>, u: seq<Addr>, elem: Addr, r: seq<Addr>, less: Less): (seq<Addr>, seq<Addr>) {
    var (kept, dups) := Unique(elem, r, less);
    (p + kept, u + dups)
  }

  lemma UniqueStep(p: seq<Addr>, u: seq<Addr>, elem: Addr, r: seq<Addr>, less: Less)
    requires r != []
    ensures UniqueFrom(p, u, elem, r, less) ==
      if Equiv(elem, r[0], less) then UniqueFrom(p, u + [r[0]], elem, r[1..], less)
      else UniqueFrom(p + [r[0]], u, r[0], r[1..], less)
  {
    assert u + ([r[0]] + Unique(elem, r[1..], less).1) == u + [r[0]] + Unique(elem, r[1..], less).1;
    assert p + ([r[0]] + Unique(r[0], r[1..], less).0) == p + [r[0]] + Unique(r[0], r[1..], less).0;
  }

  lemma StillWithin(l: List, d: Option<List>, p: seq<Addr>, e: Addr, q: seq<Addr>, t: seq<Addr>, n: seq<Addr>)
    requires Within(Nodes(l, p + [e] + q), n) && Within(NodesOf(d, t), n)
    ensures Within(Nodes(l, p + q), n) && Within(NodesOf(d, t + [e]), n)
  {
    assert forall z :: z in p + q || z == e ==> z in p + [e] + q;
  }

  lemma NextOf(m: Links, l: List, p: seq<Addr>, r: seq<Addr>)
    requires Chain(m, l, p + r) && p != []
    ensures p[|p| - 1] in m.next && m.next[p[|p| - 1]] == First(r, l)
  {
    var i := |p| - 1;
    Step(m, l, p + r, i);
    assert (p + r)[i] == p[i] && (p + r)[i + 1..] == r;
  }

  /** The elements of s have swapped their links; nothing else has changed. */
  ghost predicate Turned(m: Links, m': Links, s: seq<Addr>) {
    && SameOutside(m, m', s)
    && forall x :: x in s ==> x in m.prev && x in m.next && x in m'.prev && x in m'.next
                              && m'.prev[x] == m.next[x] && m'.next[x] == m.prev[x]
  }

  lemma TurnOne(m: Links, m1: Links, s: seq<Addr>, e: Addr)
    requires Turned(m, m1, s) && e !in s && e in m.prev && e in m.next
    ensures e in m1.prev && e in m1.next && m1.next[e] == m.next[e]
    ensures Turned(m, Links(m1.prev[e := m1.next[e]], m1.next[e := m1.prev[e]]), s + [e])
  {
  }

  lemma Fresh(l: List, q: seq<Addr>, i: nat)
    requires NoDup(Nodes(l, q)) && i < |q|
    ensures q[i] !in q[..i] && q[..i + 1] == q[..i] + [q[i]]
  {
    var n := Nodes(l, q);
    assert forall j :: 0 <= j < |q| ==> q[j] == n[j + 1];
  }

  function Before(l: List, q: seq<Addr>, i: nat): Addr
    requires i < |q|
  {
    if i == 0 then l.head else q[i - 1]
  }

  function After(l: List, q: seq<Addr>, i: nat): Addr
    requires i < |q|
  {
    if i == |q| - 1 then l.tail else q[i + 1]
  }

  predicate LinkedAt(m: Links, x: Addr, before: Addr, after: Addr) {
    x in m.prev && x in m.next && m.prev[x] == before && m.next[x] == after
  }

  /** The links of a list, element by element. */
  lemma LinksOf(m: Links, l: List, q: seq<Addr>, i: nat)
    requires Chain(m, l, q) && i < |q|
    ensures LinkedAt(m, q[i], Before(l, q, i), After(l, q, i))
  {
    var n := Nodes(l, q);
    assert q[i] == n[i + 1] && Before(l, q, i) == n[i] && After(l, q, i) == n[i + 2];
    assert Joined(m, n[i], n[i + 1]) && Joined(m, n[i + 1], n[i + 2]);
  }

  lemma EndsOf(m: Links, l: List, q: seq<Addr>)
    requires Chain(m, l, q) && q != []
    ensures l.head !in q && l.tail !in q && l.head != l.tail
    ensures LinkedAt(m, l.head, NULL, q[0]) && LinkedAt(m, l.tail, q[|q| - 1], NULL)
    ensures |q| > 1 ==> q[0] != q[|q| - 1]
  {
    var n := Nodes(l, q);
    assert n == [l.head] + (q + [l.tail]);
    NoDupParts([l.head], q + [l.tail]);
    NoDupParts(q, [l.tail]);
    assert n[0] == l.head && n[1] == q[0] && n[|q|] == q[|q| - 1] && n[|q| + 1] == l.tail;
    assert Joined(m, n[0], n[1]) && Joined(m, n[|q|], n[|q| + 1]);
    assert l.tail in q + [l.tail] && l.tail in n && l.head in n;
  }

  lemma {:induction false} ReverseNoDup(q: seq<Addr>)
    requires NoDup(q)
    ensures NoDup(Reverse(q)) && forall z :: z in Reverse(q) <==> z in q
  {
    if q != [] {
      assert q == [q[0]] + q[1..];
      NoDupParts([q[0]], q[1..]);
      ReverseNoDup(q[1..]);
      NoDupConcat(Reverse(q[1..]), [q[0]]);
    }
  }

  lemma {:induction false} ReverseNodes(l: List, q: seq<Addr>)
    requires NoDup(Nodes(l, q))
    ensures NoDup(Nodes(l, Reverse(q))) && forall z :: z in Nodes(l, Reverse(q)) ==> z in Nodes(l, q)
  {
    NoDupParts([l.head] + q, [l.tail]);
    NoDupParts([l.head], q);
    ReverseNoDup(q);
    NoDupConcat([l.head], Reverse(q));
    NoDupConcat([l.head] + Reverse(q), [l.tail]);
  }

  predicate SwappedAt(m: Links, l: List, q: seq<Addr>, i: int)
    requires 0 <= i < |q|
  {
    LinkedAt(m, q[i], if i == |q| - 1 then l.head else q[i + 1], if i == 0 then l.tail else q[i - 1])
  }

  lemma SwappedPair(m: Links, l: List, q: seq<Addr>, i: nat)
    requires 0 < i < |q| && SwappedAt(m, l, q, i) && SwappedAt(m, l, q, i - 1)
    ensures Joined(m, q[i], q[i - 1])
  {
  }

  /** In the reversed list the links of every inner element are swapped. */
  lemma {:induction false} ReverseLinks(m: Links, l: List, q: seq<Addr>)
    requires NoDup(Nodes(l, q)) && Fields(m, Nodes(l, q)) && q != []
    requires LinkedAt(m, l.head, NULL, q[|q| - 1]) && LinkedAt(m, l.tail, q[0], NULL)
    requires forall i {:trigger SwappedAt(m, l, q, i)} :: 0 <= i < |q| ==> SwappedAt(m, l, q, i)
    ensures Chain(m, l, Reverse(q))
  {
    var n, t := |q|, Nodes(l, Reverse(q));
    ReverseNodes(l, q);
    ReverseAt(q, 0);
    assert SwappedAt(m, l, q, 0) && SwappedAt(m, l, q, n - 1);
    forall i, j | 0 <= i && j == i + 1 && j < |t| ensures Joined(m, t[i], t[j]) {
      if 0 < i { ReverseAt(q, i - 1); }
      if j <= n { ReverseAt(q, i); }
      if 0 < i && j <= n {
        assert SwappedAt(m, l, q, n - i) && SwappedAt(m, l, q, n - i - 1);
        SwappedPair(m, l, q, n - i);
      }
    }
  }

  lemma Begin(m: Links, l: List, q: seq<Addr>)
    requires Chain(m, l, q)
    ensures q[0..] == q && l.head in m.next && m.next[l.head] == First(q[0..], l)
  {
    assert [] + q == q;
    ChainAt(m, l, [], q);
  }

  /** At the i-th element of a list. */
  lemma Step(m: Links, l: List, q: seq<Addr>, i: nat)
    requires Chain(m, l, q) && i <= |q|
    ensures q[..i] + q[i..] == q && First(q[i..], l) in m.prev
    ensures First(q[i..], l) == l.tail <==> i == |q|
    ensures i < |q| ==> q[i] in m.next && m.next[q[i]] == First(q[i + 1..], l) && q[i..][1..] == q[i + 1..]
  {
    assert q[..i] + q[i..] == q;
    ChainAt(m, l, q[..i], q[i..]);
  }

  lemma LinkOutside(m: Links, l: List, p: seq<Addr>, e: Addr, q: seq<Addr>)
    requires Chain(m, l, p + q) && First(q, l) in m.prev
    ensures SameOutside(m, Link(m, First(q, l), e, e), Nodes(l, p + q) + [e])
  {
    HeadIn(l, p, q);
    NodesSplit(l, p, q);
    PathSplit(m, [l.head] + p, q + [l.tail]);
    assert ([l.head] + p)[|p|] in [l.head] + p;
  }

  lemma UnlinkOutside(m: Links, l: List, p: seq<Addr>, e: Addr, q: seq<Addr>)
    requires Chain(m, l, p + [e] + q) && e in m.prev && e in m.next
    ensures SameOutside(m, Unlink(m, e, e), Nodes(l, p + [e] + q))
  {
    var x, y := [l.head] + p, q + [l.tail];
    assert Nodes(l, p + [e] + q) == x + [e] + y;
    UnlinkPath(m, x, [e], y);
    assert x[|x| - 1] in x + [e] + y && y[0] in x + [e] + y;
  }

  /** The first run reaches the end of the list exactly when it is the whole rest. */
  lemma {:induction false} RunEnds(m: Links, l: List, d: seq<Addr>, r: seq<Addr>, less: Less)
    requires Chain(m, l, d + r) && r != []
    ensures First(r[RunLen(r, less)..], l) == l.tail <==> RunLen(r, less) == |r|
  {
    At(m, l, d, r, RunLen(r, less));
  }

  lemma {:induction false} PassParts(d: seq<Addr>, r: seq<Addr>, a: seq<Addr>, b: seq<Addr>, rest: seq<Addr>, less: Less)
    requires r == a + b + rest && b != []
    requires |b| == RunLen(r[|a|..], less)
    ensures (d + a) + (b + rest) == d + r == d + a + b + rest
    ensures r[|a|..] == b + rest && (b + rest)[|b|..] == rest
    ensures |b| == RunLen(b + rest, less)
  {
    assert r[|a|..] == b + rest;
  }

  lemma {:induction false} PassMerged(l: List, d: seq<Addr>, a: seq<Addr>, b: seq<Addr>, rest: seq<Addr>, less: Less)
    ensures Within(Nodes(l, (d + Merge(a, b, less)) + rest), Nodes(l, d + (a + b + rest)))
    ensures (d + Merge(a, b, less)) + Pass(rest, less) == d + (Merge(a, b, less) + Pass(rest, less))
  {
    MergeMultiset(a, b, less);
    assert multiset(a + b) == multiset(a) + multiset(b);
    SameNodes(l, d, Merge(a, b, less), a + b, rest);
    assert d + (a + b + rest) == d + (a + b) + rest;
  }

  lemma {:induction false} PassNodes(l: List, q: seq<Addr>, less: Less)
    ensures Within(Nodes(l, Pass(q, less)), Nodes(l, q))
  {
    PassMultiset(q, less);
    SameNodes(l, [], Pass(q, less), q, []);
    assert [] + Pass(q, less) + [] == Pass(q, less) && [] + q + [] == q;
  }

  /** The state of inplace_merge: d is done, x and y start what is left of the ranges. */
  ghost predicate Merging(m: Links, l: List, d: seq<Addr>, a: seq<Addr>, b: seq<Addr>, q: seq<Addr>, x: Addr, y: Addr)
  {
    Chain(m, l, d + a + b + q) && x == First(a + b + q, l) && y == First(b + q, l)
  }

  /** The loop of inplace_merge stops when one of the ranges is used up. */
  lemma MergeEnds(m: Links, l: List, d: seq<Addr>, a: seq<Addr>, b: seq<Addr>, q: seq<Addr>, x: Addr, y: Addr)
    requires Merging(m, l, d, a, b, q, x, y)
    ensures x == y <==> a == []
    ensures y == First(q, l) <==> b == []
    ensures x in m.next
    ensures a != [] ==> x == a[0]
    ensures b != [] ==> y == b[0]
  {
    assert d + a + b + q == d + a + (b + q) == d + (a + (b + q));
    assert a + b + q == a + (b + q);
    SegmentEnds(m, l, d, a, b + q);
    SegmentEnds(m, l, d + a, b, q);
    ChainAt(m, l, d, a + (b + q));
  }

  lemma MergeSkip(m: Links, l: List, d: seq<Addr>, a: seq<Addr>, b: seq<Addr>, q: seq<Addr>, x: Addr, y: Addr)
    requires Merging(m, l, d, a, b, q, x, y) && a != []
    ensures x == a[0] && x in m.next
    ensures Merging(m, l, d + [x], a[1..], b, q, m.next[x], y)
    ensures (d + [x]) + a[1..] + b + q == d + a + b + q
  {
    Regroup(d, a, b, q);
    ChainAt(m, l, d, a + b + q);
  }

  lemma {:induction false} MergeFirst(d: seq<Addr>, a: seq<Addr>, b: seq<Addr>, less: Less)
    requires a != [] && b != []
    ensures !less(b[0], a[0]) ==> (d + [a[0]]) + Merge(a[1..], b, less) == d + Merge(a, b, less)
    ensures less(b[0], a[0]) ==> (d + [b[0]]) + Merge(a, b[1..], less) == d + Merge(a, b, less)
  {
    MergeTakes(a, b, less);
    Assoc(d, [a[0]], Merge(a[1..], b, less));
    Assoc(d, [b[0]], Merge(a, b[1..], less));
  }

  lemma Assoc(p: seq<Addr>, q: seq<Addr>, r: seq<Addr>)
    ensures (p + q) + r == p + (q + r)
  {
  }

  lemma Regroup(d: seq<Addr>, a: seq<Addr>, b: seq<Addr>, q: seq<Addr>)
    requires a != []
    ensures d + (a + b + q) == d + a + b + q == (d + [a[0]]) + a[1..] + b + q
    ensures (a + b + q)[1..] == a[1..] + b + q
  {
    assert a == [a[0]] + a[1..];
  }

  /** Regrouping around the element that a merge moves. */
  lemma MergeTake(l: List, d: seq<Addr>, a: seq<Addr>, b: seq<Addr>, q: seq<Addr>)
    requires a != [] && b != []
    ensures d + a + [b[0]] + (b[1..] + q) == d + a + b + q
    ensures d + [b[0]] + (a + (b[1..] + q)) == (d + [b[0]]) + a + b[1..] + q
    ensures First(a + b[1..] + q, l) == First(a + b + q, l) == a[0]
    ensures Within(Nodes(l, (d + [b[0]]) + a + b[1..] + q), Nodes(l, d + a + b + q))
  {
    assert b == [b[0]] + b[1..];
  }

  lemma OutsideTrans(m0: Links, m1: Links, m2: Links, n: seq<Addr>, n': seq<Addr>)
    requires SameOutside(m0, m1, n) && SameOutside(m1, m2, n') && forall z :: z in n' ==> z in n
    ensures SameOutside(m0, m2, n)
  {
  }

  lemma SameNodes(l: List, p: seq<Addr>, r: seq<Addr>, s: seq<Addr>, q: seq<Addr>)
    requires multiset(r) == multiset(s)
    ensures forall z :: z in Nodes(l, p + r + q) <==> z in Nodes(l, p + s + q)
  {
    assert forall z :: z in r <==> z in multiset(r);
    assert forall z :: z in s <==> z in multiset(s);
    forall t: seq<Addr>, z ensures z in Nodes(l, p + t + q) <==> z == l.head || z in p || z in t || z in q || z == l.tail {
      assert z in p + t + q <==> z in p || z in t || z in q;
    }
  }

  /** The ends of a segment and what they are linked to. */
  lemma SegmentEnds(m: Links, k: List, x: seq<Addr>, s: seq<Addr>, y: seq<Addr>)
    requires Chain(m, k, x + s + y)
    ensures s == [] <==> First(s + y, k) == First(y, k)
    ensures s != [] ==> First(s + y, k) == s[0]
    ensures First(y, k) in m.prev
    ensures s != [] ==> m.prev[First(y, k)] == s[|s| - 1] && s[|s| - 1] in m.next && m.next[s[|s| - 1]] == First(y, k)
    ensures s != [] ==> s[0] in m.prev && m.prev[s[0]] != s[|s| - 1]
  {
    var u, v := [k.head] + x, y + [k.tail];
    assert Nodes(k, x + s + y) == (u + s) + v;
    PathSplit(m, u + s, v);
    assert v[0] == First(y, k) && v[0] in (u + s) + v;
    NoDupParts(u + s, v);
    if s != [] {
      assert (u + s)[|u + s| - 1] == s[|s| - 1];
      PathSplit(m, u, s);
      NoDupParts(u, s);
      assert s[0] in s && s[|s| - 1] in s && u[|u| - 1] in u && s[0] in u + s;
      assert s[0] in (u + s) + v;
    }
  }

  /** A splice writes only elements of the lists involved. */
  lemma SpliceOutside(m: Links, l: List, p: seq<Addr>, q: seq<Addr>, k: List, x: seq<Addr>, s: seq<Addr>, y: seq<Addr>)
    requires Chain(m, k, x + s + y) && s != [] && s[0] in m.prev && s[|s| - 1] in m.next
    requires if k == l then x + y == p + q else Chain(m, l, p + q) && Disjoint(Nodes(l, p + q), Nodes(k, x + s + y))
    requires First(q, l) in Unlink(m, s[0], s[|s| - 1]).prev
    ensures SameOutside(m, Link(Unlink(m, s[0], s[|s| - 1]), First(q, l), s[0], s[|s| - 1]), Nodes(k, x + s + y) + Nodes(l, p + q))
  {
    var m1 := Unlink(m, s[0], s[|s| - 1]);
    var xs, ys := [k.head] + x, y + [k.tail];
    assert Nodes(k, x + s + y) == xs + s + ys;
    UnlinkPath(m, xs, s, ys);
    assert xs[|xs| - 1] in xs + s + ys && ys[0] in xs + s + ys;
    RemoveChain(m, k, x, s, y);
    if k != l { UnlinkElsewhere(m, k, x, s, y, l, p + q); }
    var u, v := [l.head] + p, q + [l.tail];
    NodesSplit(l, p, q);
    PathSplit(m1, u, v);
    assert u[|u| - 1] in u + v && v[0] in u + v;
    assert s[0] in xs + s + ys && s[|s| - 1] in xs + s + ys;
  }

  lemma HeadIn(l: List, p: seq<Addr>, q: seq<Addr>)
    ensures First(q, l) in Nodes(l, p + q)
  {
    NodesSplit(l, p, q);
    assert (q + [l.tail])[0] in q + [l.tail];
  }

  lemma OneMore(l: List, p: seq<Addr>, e: Addr, q: seq<Addr>)
    requires NoDup(Nodes(l, p + q)) && e !in Nodes(l, p + q)
    ensures NoDup(Nodes(l, p + [e] + q))
  {
    AcrossNoDup(l, p, [e], q, [e]);
  }

  lemma Removed(m: Links, l: List, p: seq<Addr>, e: Addr, q: seq<Addr>)
    requires Chain(m, l, p + [e] + q)
    ensures e in m.prev && e in m.next && m.prev[e] != e && m.next[e] != e
  {
    var x, y := [l.head] + p, q + [l.tail];
    assert Nodes(l, p + [e] + q) == x + [e] + y;
    UnlinkPath(m, x, [e], y);
    NoDupParts(x + [e], y);
    NoDupParts(x, [e]);
    assert x[|x| - 1] in x && y[0] in y && e in x + [e];
  }
}
