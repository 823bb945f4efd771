/**
 The intrusive doubly linked lists of `lib/kernel/list.c`.  Elements are addresses;
 one object holds the `prev` and `next` fields of every element, and the methods
 rewrite them as the original does.  `Chain` ties the links to a sequence.
 */
module ListLinks {
  import opened Address
  import opened ListOrder
  import opened Sequences

  /** struct list: the addresses of its two header elements. */
  datatype List = List(head: Addr, tail: Addr)

  datatype Links = Links(prev: map<Addr, Addr>, next: map<Addr, Addr>)

  /** a and b are linked to each other. */
  predicate Joined(m: Links, a: Addr, b: Addr) {
    a in m.next && b in m.prev && m.next[a] == b && m.prev[b] == a
  }

  /** The elements of q are linked one to the next. */
  ghost predicate Path(m: Links, q: seq<Addr>) {
    forall i, j {:trigger q[i], q[j]} :: 0 <= i && j == i + 1 && j < |q| ==> Joined(m, q[i], q[j])
  }

  /** Every element has both fields and is not null. */
  ghost predicate Fields(m: Links, q: seq<Addr>) {
    forall x :: x in q ==> x != NULL && x in m.prev && x in m.next
  }

  function Nodes(l: List, q: seq<Addr>): seq<Addr> {
    [l.head] + q + [l.tail]
  }

  /** l is a list of the elements q. */
  ghost predicate Chain(m: Links, l: List, q: seq<Addr>) {
    && NoDup(Nodes(l, q)) && Fields(m, Nodes(l, q)) && Path(m, Nodes(l, q))
    && m.prev[l.head] == NULL && m.next[l.tail] == NULL
  }

  /** Every element with links still has links. */
  ghost predicate Grows(m: Links, m': Links) {
    m.prev.Keys <= m'.prev.Keys && m.next.Keys <= m'.next.Keys
  }

  // ---------------------------------------------------------------------
  // Paths
  // ---------------------------------------------------------------------

  lemma PathSplit(m: Links, p: seq<Addr>, q: seq<Addr>)
    requires Path(m, p + q)
    ensures Path(m, p) && Path(m, q)
    ensures p != [] && q != [] ==> Joined(m, p[|p| - 1], q[0])
  {
    var r := p + q;
    forall i, j | 0 <= i && j == i + 1 && j < |p| ensures Joined(m, p[i], p[j]) {
      assert r[i] == p[i] && r[j] == p[j];
    }
    forall i, j | 0 <= i && j == i + 1 && j < |q| ensures Joined(m, q[i], q[j]) {
      assert r[|p| + i] == q[i] && r[|p| + j] == q[j];
    }
    if p != [] && q != [] {
      assert r[|p| - 1] == p[|p| - 1] && r[|p|] == q[0];
    }
  }

  lemma PathConcat(m: Links, p: seq<Addr>, q: seq<Addr>)
    requires Path(m, p) && Path(m, q)
    requires p != [] && q != [] ==> Joined(m, p[|p| - 1], q[0])
    ensures Path(m, p + q)
  {
    var r := p + q;
    forall i, j | 0 <= i && j == i + 1 && j < |r| ensures Joined(m, r[i], r[j]) {
      if j < |p| {
        assert r[i] == p[i] && r[j] == p[j];
      } else if i >= |p| {
        assert r[i] == q[i - |p|] && r[j] == q[j - |p|];
      }
    }
  }

  lemma NoDupParts(p: seq<Addr>, q: seq<Addr>)
    requires NoDup(p + q)
    ensures NoDup(p) && NoDup(q) && Disjoint(p, q) && Disjoint(q, p)
  {
    var r := p + q;
    forall i, j | 0 <= i < j < |p| ensures p[i] != p[j] { assert r[i] == p[i] && r[j] == p[j]; }
    forall i, j | 0 <= i < j < |q| ensures q[i] != q[j] { assert r[|p| + i] == q[i] && r[|p| + j] == q[j]; }
    forall i, j | 0 <= i < |p| && 0 <= j < |q| ensures p[i] != q[j] { assert r[i] == p[i] && r[|p| + j] == q[j]; }
  }

  // ---------------------------------------------------------------------
  // Taking a segment out and putting one in
  // ---------------------------------------------------------------------

  /** The two writes that take first..last out of their list. */
  function Unlink(m: Links, first: Addr, last: Addr): Links
    requires first in m.prev && last in m.next
  {
    Links(m.prev[m.next[last] := m.prev[first]], m.next[m.prev[first] := m.next[last]])
  }

  /** The four writes that put first..last in front of `before`. */
  function Link(m: Links, before: Addr, first: Addr, last: Addr): Links
    requires before in m.prev
  {
    Links(m.prev[first := m.prev[before]][before := last],
          m.next[last := before][m.prev[before] := first])
  }

  lemma UnlinkPath(m: Links, x: seq<Addr>, s: seq<Addr>, y: seq<Addr>)
    requires x != [] && s != [] && y != [] && NoDup(x + s + y) && Path(m, x + s + y) && Fields(m, x + s + y)
    ensures s[0] in m.prev && s[|s| - 1] in m.next
    ensures m.prev[s[0]] == x[|x| - 1] && m.next[s[|s| - 1]] == y[0]
    ensures var m' := Unlink(m, s[0], s[|s| - 1]); Path(m', x + y) && Path(m', s)
  {
    PathSplit(m, x + s, y);
    PathSplit(m, x, s);
    NoDupParts(x + s, y);
    NoDupParts(x, s);
    assert (x + s)[|x + s| - 1] == s[|s| - 1];
    assert s[0] in x + s + y && s[|s| - 1] in x + s + y;
    var m' := Unlink(m, s[0], s[|s| - 1]);
    var a, b := x[|x| - 1], y[0];
    assert m' == Links(m.prev[b := a], m.next[a := b]);
    assert forall z :: z in s ==> z in x + s;
    assert a in x && b in y;
    KeepInside(m, m', x, a, b);
    KeepInside(m, m', s, a, b);
    KeepInside(m, m', y, a, b);
    PathConcat(m', x, y);
  }

  /** Writes to next[a] and prev[b] leave a path alone when a is not in it or is its
      last element, and b is not in it or is its first. */
  lemma KeepInside(m: Links, m': Links, q: seq<Addr>, a: Addr, b: Addr)
    requires Path(m, q) && NoDup(q)
    requires q != [] ==> (a !in q || a == q[|q| - 1]) && (b !in q || b == q[0])
    requires forall z :: z in m.next && z != a ==> z in m'.next && m'.next[z] == m.next[z]
    requires forall z :: z in m.prev && z != b ==> z in m'.prev && m'.prev[z] == m.prev[z]
    ensures Path(m', q)
  {
    forall i, j | 0 <= i && j == i + 1 && j < |q| ensures Joined(m', q[i], q[j]) {
      assert Joined(m, q[i], q[j]);
      assert q[i] != a && q[j] != b;
    }
  }

  lemma LinkPath(m: Links, u: seq<Addr>, s: seq<Addr>, v: seq<Addr>)
    requires u != [] && s != [] && v != [] && NoDup(u + s + v)
    requires Path(m, u + v) && Path(m, s)
    ensures v[0] in m.prev && m.prev[v[0]] == u[|u| - 1]
    ensures Path(Link(m, v[0], s[0], s[|s| - 1]), u + s + v)
  {
    PathSplit(m, u, v);
    NoDupParts(u + s, v);
    NoDupParts(u, s);
    var a, b := u[|u| - 1], v[0];
    var f, e := s[0], s[|s| - 1];
    assert a in u && b in v && f in s && e in s;
    assert a in u + s && f in u + s && e in u + s;
    var m1 := Links(m.prev[f := a], m.next[e := b]);
    var m' := Link(m, b, f, e);
    assert m' == Links(m1.prev[b := e], m1.next[a := f]);
    assert forall z :: z in u || z in s ==> z in u + s;
    KeepInside(m, m1, u, e, f);
    KeepInside(m, m1, s, e, f);
    KeepInside(m, m1, v, e, f);
    KeepInside(m1, m', u, a, b);
    KeepInside(m1, m', s, a, b);
    KeepInside(m1, m', v, a, b);
    PathConcat(m', u, s);
    assert (u + s)[|u + s| - 1] == e;
    PathConcat(m', u + s, v);
  }

  // ---------------------------------------------------------------------
  // Lists
  // ---------------------------------------------------------------------

  /** The element at the front of q, or the tail header when q is empty. */
  function First(q: seq<Addr>, l: List): Addr {
    if q == [] then l.tail else q[0]
  }

  lemma NodesSplit(l: List, p: seq<Addr>, q: seq<Addr>)
    ensures Nodes(l, p + q) == ([l.head] + p) + (q + [l.tail])
    ensures (q + [l.tail])[0] == First(q, l)
  {
  }

  /** Another list's links are untouched by writes to elements it does not have. */
  lemma ChainFrame(m: Links, m': Links, l: List, q: seq<Addr>)
    requires Chain(m, l, q)
    requires forall z :: z in Nodes(l, q) ==>
               z in m'.prev && z in m'.next && (z in m.prev ==> m'.prev[z] == m.prev[z]) && (z in m.next ==> m'.next[z] == m.next[z])
    ensures Chain(m', l, q)
  {
    var n := Nodes(l, q);
    assert n[0] == l.head && n[|n| - 1] == l.tail;
    assert l.head in n && l.tail in n;
    forall i, j | 0 <= i && j == i + 1 && j < |n| ensures Joined(m', n[i], n[j]) {
      assert Joined(m, n[i], n[j]) && n[i] in n && n[j] in n;
    }
  }

  /** Writing the fields of s and of the two elements around it keeps the headers. */
  lemma InsertChain(m: Links, l: List, p: seq<Addr>, s: seq<Addr>, q: seq<Addr>)
    requires Chain(m, l, p + q) && s != [] && Path(m, s) && Fields(m, s)
    requires NoDup(Nodes(l, p + s + q))
    ensures First(q, l) in m.prev
    ensures Chain(Link(m, First(q, l), s[0], s[|s| - 1]), l, p + s + q)
  {
    var u, v := [l.head] + p, q + [l.tail];
    NodesSplit(l, p, q);
    assert Nodes(l, p + s + q) == u + s + v;
    LinkPath(m, u, s, v);
    var m' := Link(m, First(q, l), s[0], s[|s| - 1]);
    assert forall z :: z in u + s + v ==> z in u + v || z in s;
    NoDupParts(u + s, v);
    NoDupParts(u, s);
    assert l.head in u && l.head in u + s && l.tail in v && s[0] in s && s[0] in u + s && s[|s| - 1] in s && s[|s| - 1] in u + s;
    assert (u + v)[0] == l.head && (u + v)[|u + v| - 1] == l.tail;
    assert u[|u| - 1] in u && u[|u| - 1] in u + s;
    assert v[0] in v;
  }

  lemma RemoveChain(m: Links, l: List, p: seq<Addr>, s: seq<Addr>, q: seq<Addr>)
    requires Chain(m, l, p + s + q) && s != []
    ensures s[0] in m.prev && s[|s| - 1] in m.next && s[0] in m.next && s[|s| - 1] in m.prev
    ensures m.next[s[|s| - 1]] == First(q, l)
    ensures var m' := Unlink(m, s[0], s[|s| - 1]); Chain(m', l, p + q) && Path(m', s) && Fields(m', s)
  {
    var x, y := [l.head] + p, q + [l.tail];
    NodesSplit(l, p, q);
    assert Nodes(l, p + s + q) == x + s + y;
    UnlinkPath(m, x, s, y);
    NoDupParts(x + s, y);
    NoDupParts(x, s);
    assert forall z :: z in x || z in s ==> z in x + s;
    assert forall z :: z in x + s || z in y ==> z in x + s + y;
    NoDupConcat(x, y);
    assert forall z :: z in x + y ==> z in x + s + y;
    assert s[0] in s && s[|s| - 1] in s && l.head in x && l.tail in y && x[|x| - 1] in x && y[0] in y;
  }

  /** list_splice inside one list: s moves from between x and y to between p and q. */
  lemma SpliceWithin(m: Links, l: List, p: seq<Addr>, q: seq<Addr>, x: seq<Addr>, s: seq<Addr>, y: seq<Addr>)
    requires Chain(m, l, x + s + y) && s != [] && x + y == p + q
    ensures s[0] in m.prev && s[|s| - 1] in m.next
    ensures First(q, l) in Unlink(m, s[0], s[|s| - 1]).prev
    ensures Chain(Link(Unlink(m, s[0], s[|s| - 1]), First(q, l), s[0], s[|s| - 1]), l, p + s + q)
  {
    RemoveChain(m, l, x, s, y);
    SegmentOf(l, x, s, y);
    AcrossNoDup(l, p, s, q, s);
    InsertChain(Unlink(m, s[0], s[|s| - 1]), l, p, s, q);
  }

  /** list_splice from one list into another. */
  lemma SpliceAcross(m: Links, l: List, p: seq<Addr>, q: seq<Addr>, k: List, x: seq<Addr>, s: seq<Addr>, y: seq<Addr>)
    requires Chain(m, l, p + q) && Chain(m, k, x + s + y) && s != [] && Disjoint(Nodes(l, p + q), Nodes(k, x + s + y))
    ensures s[0] in m.prev && s[|s| - 1] in m.next
    ensures First(q, l) in Unlink(m, s[0], s[|s| - 1]).prev
    ensures Chain(Link(Unlink(m, s[0], s[|s| - 1]), First(q, l), s[0], s[|s| - 1]), l, p + s + q)
    ensures Chain(Link(Unlink(m, s[0], s[|s| - 1]), First(q, l), s[0], s[|s| - 1]), k, x + y)
  {
    RemoveChain(m, k, x, s, y);
    var m1 := Unlink(m, s[0], s[|s| - 1]);
    SegmentOf(k, x, s, y);
    UnlinkElsewhere(m, k, x, s, y, l, p + q);
    AcrossNoDup(l, p, s, q, Nodes(k, x + s + y));
    InsertChain(m1, l, p, s, q);
    LinkElsewhere(m1, l, p, q, s, k, x + y);
  }

  lemma SegmentOf(k: List, x: seq<Addr>, s: seq<Addr>, y: seq<Addr>)
    requires NoDup(Nodes(k, x + s + y))
    ensures NoDup(s) && (forall z :: z in s ==> z in Nodes(k, x + s + y))
    ensures forall z :: z in Nodes(k, x + y) ==> z in Nodes(k, x + s + y) && z !in s
  {
    var xs, ys := [k.head] + x, y + [k.tail];
    NodesSplit(k, x, y);
    assert Nodes(k, x + s + y) == xs + s + ys;
    NoDupParts(xs + s, ys);
    NoDupParts(xs, s);
    assert forall z :: z in s ==> z in xs + s;
  }

  lemma UnlinkElsewhere(m: Links, k: List, x: seq<Addr>, s: seq<Addr>, y: seq<Addr>, l: List, q: seq<Addr>)
    requires Chain(m, k, x + s + y) && s != [] && Chain(m, l, q) && Disjoint(Nodes(l, q), Nodes(k, x + s + y))
    requires s[0] in m.prev && s[|s| - 1] in m.next
    ensures Chain(Unlink(m, s[0], s[|s| - 1]), l, q)
  {
    var xs, ys := [k.head] + x, y + [k.tail];
    assert Nodes(k, x + s + y) == xs + s + ys;
    UnlinkPath(m, xs, s, ys);
    assert xs[|xs| - 1] in xs + s + ys && ys[0] in xs + s + ys;
    ChainFrame(m, Unlink(m, s[0], s[|s| - 1]), l, q);
  }

  lemma LinkElsewhere(m: Links, l: List, p: seq<Addr>, q: seq<Addr>, s: seq<Addr>, k: List, r: seq<Addr>)
    requires Chain(m, l, p + q) && Chain(m, k, r) && s != []
    requires forall z :: z in Nodes(k, r) ==> z !in Nodes(l, p + q) && z !in s
    requires First(q, l) in m.prev
    ensures Chain(Link(m, First(q, l), s[0], s[|s| - 1]), k, r)
  {
    var u, v := [l.head] + p, q + [l.tail];
    NodesSplit(l, p, q);
    PathSplit(m, u, v);
    assert u[|u| - 1] in u + v && v[0] in u + v;
    assert s[0] in s && s[|s| - 1] in s;
    ChainFrame(m, Link(m, First(q, l), s[0], s[|s| - 1]), k, r);
  }

  lemma AcrossNoDup(l: List, p: seq<Addr>, s: seq<Addr>, q: seq<Addr>, nk: seq<Addr>)
    requires NoDup(Nodes(l, p + q)) && Disjoint(Nodes(l, p + q), nk) && NoDup(s) && forall z :: z in s ==> z in nk
    ensures NoDup(Nodes(l, p + s + q))
  {
    var u, v := [l.head] + p, q + [l.tail];
    NodesSplit(l, p, q);
    assert Nodes(l, p + s + q) == u + s + v;
    NoDupParts(u, v);
    assert forall z :: z in u || z in v ==> z in Nodes(l, p + q);
    NoDupConcat(u, s);
    NoDupConcat(u + s, v);
  }
}
