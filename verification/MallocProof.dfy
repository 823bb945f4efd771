/** Every call keeps the invariant of the block allocator. */
module MallocProof {
  import opened Address
  import opened Numbers
  import opened Sequences
  import opened MallocState

  // ---------------------------------------------------------------------
  // Where blocks lie
  // ---------------------------------------------------------------------

  lemma MulMod(i: nat, k: nat)
    requires k > 0
    ensures (i * k) % k == 0 && (i * k) / k == i
  {
    assert i * k == k * i + 0;
    DivUnique(i * k, k, i, 0);
  }

  lemma DivUnique(x: int, k: int, q: int, r: int)
    requires k > 0 && x == k * q + r && 0 <= r < k
    ensures x / k == q && x % k == r
  {
    var d := x / k - q;
    assert x == k * (x / k) + x % k;
    assert k * d == r - x % k by { assert k * (x / k) - k * q == k * d; }
    assert d >= 1 ==> k * d >= k;
    assert d <= -1 ==> k * d <= -k;
  }

  /** Blocks lie inside their page, behind the header. */
  lemma {:induction false} BlockIs(a: nat, d: nat, i: nat)
    requires a % PGSIZE == 0 && i < PerArena(d)
    ensures Page(BlockAt(a, d, i)) == a && Aligned(BlockAt(a, d, i), d)
  {
    var k := BlockSize(d);
    assert (i + 1) * k <= PGSIZE - HEADER by {
      MulLe(i + 1, PerArena(d), k);
      assert PerArena(d) * k <= PGSIZE - HEADER by { assert PGSIZE - HEADER == k * PerArena(d) + (PGSIZE - HEADER) % k; }
    }
    assert (i + 1) * k == i * k + k;
    MulMod(i, k);
    Offset(a, HEADER + i * k);
  }

  lemma Offset(a: nat, o: nat)
    requires a % PGSIZE == 0 && o < PGSIZE
    ensures (a + o) % PGSIZE == o && Page(a + o) == a
  {
  }

  /** And an address that lies so is one of the arena's blocks. */
  lemma {:induction false} AlignedIs(b: nat, d: nat) returns (i: nat)
    requires Aligned(b, d)
    ensures i < PerArena(d) && b == BlockAt(Page(b), d, i)
  {
    var k, o := BlockSize(d), b % PGSIZE - HEADER;
    i := o / k;
    assert o == k * i + o % k;
    assert k * i == i * k;
    assert (i + 1) * k == i * k + k;
    RoomFor(i + 1, k, PGSIZE - HEADER);
  }

  lemma RoomFor(n: nat, k: nat, room: nat)
    requires k > 0 && n * k <= room
    ensures n <= room / k
  {
    assert room == k * (room / k) + room % k;
    assert room < (room / k + 1) * k by { assert (room / k + 1) * k == k * (room / k) + k; }
    if n > room / k { MulLe(room / k + 1, n, k); }
  }

  /** Different blocks of one arena do not overlap. */
  lemma {:induction false} BlocksApart(b: nat, c: nat, d: nat)
    requires Aligned(b, d) && Aligned(c, d) && Page(b) == Page(c) && b < c
    ensures b + BlockSize(d) <= c
  {
    var i := AlignedIs(b, d);
    var j := AlignedIs(c, d);
    var k := BlockSize(d);
    if j <= i { MulLe(j, i, k); }
    MulLe(i + 1, j, k);
    assert (i + 1) * k == i * k + k;
  }

  lemma {:induction false} BlocksAre(a: nat, d: nat, n: nat, i: nat)
    requires i < n
    ensures Blocks(a, d, n)[i] == BlockAt(a, d, i)
  {
    if i < n - 1 { BlocksAre(a, d, n - 1, i); }
  }

  lemma {:induction false} BlockLt(a: nat, d: nat, i: nat, j: nat)
    requires i < j
    ensures BlockAt(a, d, i) < BlockAt(a, d, j)
  {
    var k := BlockSize(d);
    MulLe(i + 1, j, k);
    assert (i + 1) * k == i * k + k;
  }

  /** The blocks of an arena are exactly the aligned addresses in its page, each once. */
  lemma {:induction false} ArenaBlocks(a: nat, d: nat)
    requires a % PGSIZE == 0
    ensures var q := Blocks(a, d, PerArena(d));
      && NoDup(q) && (forall b :: b in q <==> Aligned(b, d) && Page(b) == a)
  {
    var n := PerArena(d);
    var q := Blocks(a, d, n);
    forall i | 0 <= i < n ensures q[i] == BlockAt(a, d, i) && Aligned(q[i], d) && Page(q[i]) == a {
      BlocksAre(a, d, n, i);
      BlockIs(a, d, i);
    }
    forall i, j | 0 <= i < j < n ensures q[i] != q[j] { BlockLt(a, d, i, j); }
    forall b: nat | Aligned(b, d) && Page(b) == a ensures b in q {
      var i := AlignedIs(b, d);
      assert q[i] == b;
    }
  }

  // ---------------------------------------------------------------------
  // Counting
  // ---------------------------------------------------------------------

  function Elems(q: seq<nat>): set<nat> { set b | b in q }

  lemma {:induction false} CardOf(q: seq<nat>)
    requires NoDup(q)
    ensures |Elems(q)| == |q|
  {
    if q != [] {
      var p := q[..|q| - 1];
      CardOf(p);
      assert q == p + [q[|q| - 1]];
      assert Elems(q) == Elems(p) + {q[|q| - 1]};
      assert q[|q| - 1] !in Elems(p);
    } else {
      assert Elems(q) == {};
    }
  }

  /** A subset as large as the whole is the whole. */
  lemma {:induction false} SameCard(x: set<nat>, y: set<nat>)
    requires x <= y
    ensures |x| <= |y|
    ensures |x| == |y| ==> x == y
  {
    if x != {} {
      var e :| e in x;
      SameCard(x - {e}, y - {e});
    }
  }

  /** The free count never exceeds the blocks there are, and reaches them only when all
      are free. */
  lemma AllFree(s: Heap, a: nat, d: nat)
    requires Core(s) && a in s.arenas && s.arenas[a].Small? && s.arenas[a].d == d < DESCS
    ensures s.arenas[a].freeCnt <= PerArena(d)
    ensures s.arenas[a].freeCnt == PerArena(d) ==> forall b :: Aligned(b, d) && Page(b) == a ==> b in s.free[d]
  {
    assert ArenaOk(s, a) && CountAt(s, a);
    var x := Elems(Blocks(a, d, PerArena(d)));
    BlockCount(a, d);
    forall b | b in FreeIn(s.free[d], a) ensures b in x { assert IsBlock(s, d, b); }
    SameCard(FreeIn(s.free[d], a), x);
  }

  lemma {:induction false} BlockCount(a: nat, d: nat)
    requires a % PGSIZE == 0
    ensures var x := Elems(Blocks(a, d, PerArena(d)));
      |x| == PerArena(d) && forall b :: b in x <==> Aligned(b, d) && Page(b) == a
  {
    ArenaBlocks(a, d);
    CardOf(Blocks(a, d, PerArena(d)));
  }

  // ---------------------------------------------------------------------
  // A new arena
  // ---------------------------------------------------------------------

  lemma GrantedNew(s: Heap, page: nat, n: nat)
    requires ArenasOk(s) && page > 0 && n > 0 && Grant(s, page, n)
    ensures page !in s.arenas
  {
    assert page in s.arenas ==> ArenaOk(s, page) && Extent(s.arenas[page]) > 0;
  }

  /** Blocks of the arenas there were are blocks still. */
  lemma OtherBlocks(s: Heap, s': Heap, page: nat, d: nat, b: nat)
    requires page !in s.arenas && page in s'.arenas && s'.arenas == s.arenas[page := s'.arenas[page]]
    ensures Page(b) != page ==> IsBlock(s', d, b) == IsBlock(s, d, b)
    ensures IsBlock(s, d, b) ==> Page(b) != page
  {
  }

  lemma AddArena(s: Heap, s': Heap, page: nat, a: Arena)
    requires ArenasOk(s) && page > 0 && page % PGSIZE == 0 && Extent(a) > 0 && page !in s.arenas
    requires forall b :: b in s.arenas ==> b + Extent(s.arenas[b]) <= page || page + Extent(a) <= b
    requires s'.arenas == s.arenas[page := a] && forall b :: b in s.live ==> b in s'.live
    requires a.Small? ==> a.d < DESCS
    requires a.Big? ==> page + HEADER in s'.live
    ensures ArenasOk(s')
  {
    forall b | b in s'.arenas ensures ArenaOk(s', b) {
      if b != page { assert ArenaOk(s, b); }
    }
    forall b, c | b in s'.arenas && c in s'.arenas ensures Clear(s', b, c) {
      if b != page && c != page { assert Clear(s, b, c); }
    }
  }

  lemma GrownFree(s: Heap, d: nat, page: nat)
    requires FreeOk(s) && page > 0 && page % PGSIZE == 0 && d < DESCS && s.free[d] == [] && page !in s.arenas
    ensures FreeOk(Grown(s, d, page))
  {
    var s' := Grown(s, d, page);
    ArenaBlocks(page, d);
    assert s'.free[d] == Blocks(page, d, PerArena(d));
    forall c, b | 0 <= c < DESCS && b in s'.free[c] ensures IsBlock(s', c, b) {
      OtherBlocks(s, s', page, c, b);
      if c != d { assert b in s.free[c]; }
    }
  }

  lemma GrownCount(s: Heap, d: nat, page: nat)
    requires Core(s) && page > 0 && page % PGSIZE == 0 && d < DESCS && s.free[d] == [] && page !in s.arenas
    ensures CountOk(Grown(s, d, page))
  {
    var s' := Grown(s, d, page);
    var q := Blocks(page, d, PerArena(d));
    ArenaBlocks(page, d);
    CardOf(q);
    assert s'.free[d] == q;
    assert FreeIn(q, page) == Elems(q);
    forall a | a in s'.arenas ensures CountAt(s', a) {
      if a != page {
        assert CountAt(s, a);
        assert FreeIn(q, a) == {} == FreeIn(s.free[d], a);
      }
    }
  }

  lemma GrownRest(s: Heap, d: nat, page: nat)
    requires FreeOk(s) && LiveOk(s) && Complete(s) && page % PGSIZE == 0 && d < DESCS && s.free[d] == [] && page !in s.arenas
    ensures LiveOk(Grown(s, d, page)) && Complete(Grown(s, d, page))
  {
    var s' := Grown(s, d, page);
    ArenaBlocks(page, d);
    assert s'.free[d] == Blocks(page, d, PerArena(d));
    forall b | b in s'.live ensures LiveAt(s', b) { assert LiveAt(s, b); }
    forall c, b | 0 <= c < DESCS && IsBlock(s', c, b) ensures b in s'.free[c] || b in s'.live {
      if Page(b) != page { assert IsBlock(s, c, b); }
    }
  }

  lemma GrownKeeps(s: Heap, d: nat, page: nat)
    requires Core(s) && page > 0 && Grant(s, page, 1) && d < DESCS && s.free[d] == []
    ensures Core(Grown(s, d, page)) && page !in s.arenas
  {
    GrantedNew(s, page, 1);
    AddArena(s, Grown(s, d, page), page, Small(d, PerArena(d)));
    GrownFree(s, d, page);
    GrownCount(s, d, page);
    GrownRest(s, d, page);
  }

  // ---------------------------------------------------------------------
  // A block changes hands
  // ---------------------------------------------------------------------

  lemma SameArenas(s: Heap, s': Heap, a: nat, n: nat)
    requires ArenasOk(s) && a in s.arenas && s.arenas[a].Small? && s'.arenas == s.arenas[a := s.arenas[a].(freeCnt := n)]
    requires forall b :: b in s.live && b !in s'.live ==> Page(b) == a
    ensures ArenasOk(s')
    ensures forall d, b {:trigger IsBlock(s', d, b)} :: IsBlock(s', d, b) == IsBlock(s, d, b)
  {
    forall b | b in s'.arenas ensures ArenaOk(s', b) {
      assert ArenaOk(s, b);
      if s.arenas[b].Big? { Offset(b, HEADER); }
    }
    forall b, c | b in s'.arenas && c in s'.arenas ensures Clear(s', b, c) {
      assert Clear(s, b, c);
    }
  }

  lemma FrontGone(q: seq<nat>, a: nat)
    requires q != [] && NoDup(q)
    ensures NoDup(q[1..]) && q[0] !in q[1..] && (forall b :: b in q <==> b == q[0] || b in q[1..])
    ensures FreeIn(q[1..], a) == FreeIn(q, a) - {q[0]}
    ensures Page(q[0]) == a ==> q[0] in FreeIn(q, a) && |FreeIn(q[1..], a)| == |FreeIn(q, a)| - 1
    ensures Page(q[0]) != a ==> FreeIn(q[1..], a) == FreeIn(q, a)
  {
    assert q == [q[0]] + q[1..];
  }

  lemma {:induction false} PoppedFree(s: Heap, d: nat, size: nat)
    requires Core(s) && d < DESCS && s.free[d] != [] && 0 < size <= BlockSize(d)
    requires FrontOk(s, d)
    ensures FreeOk(Popped(s, d, size)) && CountOk(Popped(s, d, size)) && ArenasOk(Popped(s, d, size))
  {
    var s', b := Popped(s, d, size), s.free[d][0];
    var a := Page(b);
    SameArenas(s, s', a, s.arenas[a].freeCnt - 1);
    FrontGone(s.free[d], a);
    forall c, e | 0 <= c < DESCS && e in s'.free[c] ensures IsBlock(s', c, e) { assert e in s.free[c]; }
    forall e | e in s'.arenas ensures CountAt(s', e) {
      FrontGone(s.free[d], e);
      assert CountAt(s, e);
    }
  }

  ghost predicate FrontOk(s: Heap, d: nat)
    requires |s.free| == DESCS && d < DESCS && s.free[d] != []
  {
    var a := Page(s.free[d][0]);
    a in s.arenas && s.arenas[a].Small? && s.arenas[a].freeCnt > 0 && s.arenas[a].d == d
  }

  /** The block that leaves its free list is live, and was not before. */
  lemma {:induction false} PoppedLive(s: Heap, d: nat, size: nat)
    requires FreeOk(s) && LiveOk(s) && d < DESCS && s.free[d] != [] && 0 < size <= BlockSize(d)
    requires FrontOk(s, d)
    ensures LiveOk(Popped(s, d, size)) && s.free[d][0] !in s.live
  {
    var s', b := Popped(s, d, size), s.free[d][0];
    FrontGone(s.free[d], Page(b));
    assert b in s.free[d] && IsBlock(s, d, b);
    forall e | e in s.live ensures e != b { assert LiveAt(s, e); }
    forall e | e in s'.live ensures LiveAt(s', e) { if e != b { assert LiveAt(s, e); } }
  }

  lemma PoppedComplete(s: Heap, d: nat, size: nat)
    requires FreeOk(s) && Complete(s) && d < DESCS && s.free[d] != [] && FrontOk(s, d)
    ensures Complete(Popped(s, d, size))
  {
    var s', q := Popped(s, d, size), s.free[d];
    assert q == [q[0]] + q[1..];
    forall c, e | 0 <= c < DESCS && IsBlock(s', c, e) ensures e in s'.free[c] || e in s'.live { assert IsBlock(s, c, e); }
  }

  lemma {:induction false} PoppedKeeps(s: Heap, d: nat, size: nat)
    requires Core(s) && d < DESCS && s.free[d] != [] && 0 < size <= BlockSize(d)
    requires FrontOk(s, d)
    ensures Core(Popped(s, d, size)) && s.free[d][0] !in s.live
  {
    PoppedFree(s, d, size);
    PoppedLive(s, d, size);
    PoppedComplete(s, d, size);
  }

  lemma PushFront(q: seq<nat>, b: nat, a: nat)
    requires NoDup(q) && b !in q
    ensures NoDup([b] + q) && (forall e :: e in [b] + q <==> e == b || e in q)
    ensures Page(b) == a ==> FreeIn([b] + q, a) == FreeIn(q, a) + {b} && |FreeIn([b] + q, a)| == |FreeIn(q, a)| + 1
    ensures Page(b) != a ==> FreeIn([b] + q, a) == FreeIn(q, a)
  {
    assert b !in FreeIn(q, a);
  }

  lemma PushedFree(s: Heap, b: nat)
    requires FreeOk(s) && b in s.live && LiveAt(s, b) && s.arenas[Page(b)].Small?
    ensures FreeOk(Pushed(s, b))
  {
    var s', a := Pushed(s, b), Page(b);
    var d := s.arenas[a].d;
    PushFront(s.free[d], b, a);
    forall c, e | 0 <= c < DESCS && e in s'.free[c] ensures IsBlock(s', c, e) {
      if !(c == d && e == b) { assert e in s.free[c] && IsBlock(s, c, e); }
    }
  }

  lemma PushedCount(s: Heap, b: nat)
    requires FreeOk(s) && CountOk(s) && b in s.live && LiveAt(s, b) && s.arenas[Page(b)].Small?
    ensures CountOk(Pushed(s, b))
  {
    var s', d := Pushed(s, b), s.arenas[Page(b)].d;
    forall e | e in s'.arenas ensures CountAt(s', e) {
      PushFront(s.free[d], b, e);
      assert CountAt(s, e);
    }
  }

  lemma PushedRest(s: Heap, b: nat)
    requires FreeOk(s) && LiveOk(s) && Complete(s) && b in s.live && LiveAt(s, b) && s.arenas[Page(b)].Small?
    ensures LiveOk(Pushed(s, b)) && Complete(Pushed(s, b))
  {
    var s' := Pushed(s, b);
    forall e | e in s'.live ensures LiveAt(s', e) { assert LiveAt(s, e); }
    forall c, e | 0 <= c < DESCS && IsBlock(s', c, e) ensures e in s'.free[c] || e in s'.live { assert IsBlock(s, c, e); }
  }

  lemma PushedKeeps(s: Heap, b: nat)
    requires Core(s) && b in s.live && Page(b) in s.arenas && s.arenas[Page(b)].Small? && s.arenas[Page(b)].d < DESCS
    ensures Core(Pushed(s, b))
  {
    assert LiveAt(s, b);
    var a := Page(b);
    SameArenas(s, Pushed(s, b), a, s.arenas[a].freeCnt + 1);
    PushedFree(s, b);
    PushedCount(s, b);
    PushedRest(s, b);
  }

  // ---------------------------------------------------------------------
  // An arena goes back
  // ---------------------------------------------------------------------

  lemma {:induction false} WithoutIs(q: seq<nat>, a: nat)
    ensures forall b :: b in Without(q, a) <==> b in q && Page(b) != a
    ensures NoDup(q) ==> NoDup(Without(q, a))
  {
    if q != [] {
      WithoutIs(q[1..], a);
      assert q == [q[0]] + q[1..];
    }
  }

  lemma DropArena(s: Heap, s': Heap, a: nat)
    requires ArenasOk(s) && a in s.arenas && s'.arenas == s.arenas - {a}
    requires forall b :: b in s.live && b !in s'.live ==> Page(b) == a
    ensures ArenasOk(s')
    ensures forall d, b {:trigger IsBlock(s', d, b)} :: IsBlock(s', d, b) == (IsBlock(s, d, b) && Page(b) != a)
  {
    forall b | b in s'.arenas ensures ArenaOk(s', b) {
      assert ArenaOk(s, b);
      if s.arenas[b].Big? { Offset(b, HEADER); }
    }
    forall b, c | b in s'.arenas && c in s'.arenas ensures Clear(s', b, c) {
      assert Clear(s, b, c);
    }
  }

  lemma ReleasedFree(s: Heap, a: nat)
    requires Core(s) && a in s.arenas && s.arenas[a].Small? && s.arenas[a].d < DESCS
    ensures FreeOk(Released(s, a)) && CountOk(Released(s, a)) && ArenasOk(Released(s, a))
  {
    var s', d := Released(s, a), s.arenas[a].d;
    DropArena(s, s', a);
    WithoutIs(s.free[d], a);
    forall c, e | 0 <= c < DESCS && e in s'.free[c] ensures IsBlock(s', c, e) {
      assert e in s.free[c];
      assert IsBlock(s, c, e);
    }
    forall e | e in s'.arenas ensures CountAt(s', e) {
      assert CountAt(s, e);
      assert s'.arenas[e].Small? && s'.arenas[e].d == d ==> FreeIn(s'.free[d], e) == FreeIn(s.free[d], e);
    }
  }

  lemma ReleasedKeeps(s: Heap, a: nat)
    requires Core(s) && a in s.arenas && s.arenas[a].Small? && s.arenas[a].freeCnt >= PerArena(s.arenas[a].d)
    ensures s.arenas[a].d < DESCS && s.arenas[a].freeCnt == PerArena(s.arenas[a].d)
    ensures Core(Released(s, a))
  {
    assert ArenaOk(s, a);
    var s', d := Released(s, a), s.arenas[a].d;
    AllFree(s, a, d);
    ReleasedFree(s, a);
    DropArena(s, s', a);
    WithoutIs(s.free[d], a);
    forall e | e in s'.live ensures LiveAt(s', e) { assert LiveAt(s, e); }
    forall c, e | 0 <= c < DESCS && IsBlock(s', c, e) ensures e in s'.free[c] || e in s'.live { assert IsBlock(s, c, e); }
  }

  // ---------------------------------------------------------------------
  // Big blocks
  // ---------------------------------------------------------------------

  lemma PagesForIs(size: nat)
    ensures PagesFor(size) >= 1 && size + HEADER <= PagesFor(size) * PGSIZE
  {
  }

  lemma BigKeeps(s: Heap, page: nat, size: nat)
    requires Core(s) && size > 0 && page > 0 && Grant(s, page, PagesFor(size))
    ensures Core(s.(arenas := s.arenas[page := Big(PagesFor(size))], live := s.live[page + HEADER := size]))
    ensures page !in s.arenas && page + HEADER !in s.live
  {
    var n, s' := PagesFor(size), s.(arenas := s.arenas[page := Big(PagesFor(size))], live := s.live[page + HEADER := size]);
    PagesForIs(size);
    GrantedNew(s, page, n);
    AddArena(s, s', page, Big(n));
    Offset(page, HEADER);
    BigRest(s, s', page, n, size);
  }

  lemma BigRest(s: Heap, s': Heap, page: nat, n: nat, size: nat)
    requires FreeOk(s) && CountOk(s) && LiveOk(s) && Complete(s) && page !in s.arenas && Page(page + HEADER) == page
    requires 0 < size && size + HEADER <= n * PGSIZE
    requires s' == s.(arenas := s.arenas[page := Big(n)], live := s.live[page + HEADER := size])
    ensures FreeOk(s') && CountOk(s') && LiveOk(s') && Complete(s') && page + HEADER !in s.live
  {
    forall e | e in s.live ensures Page(e) in s.arenas { assert LiveAt(s, e); }
    forall e | e in s'.arenas ensures CountAt(s', e) { if e in s.arenas { assert CountAt(s, e); } }
    forall c, e | 0 <= c < DESCS && e in s'.free[c] ensures IsBlock(s', c, e) { assert e in s.free[c] && IsBlock(s, c, e); }
    forall e | e in s'.live ensures LiveAt(s', e) { if e != page + HEADER { assert LiveAt(s, e); } }
    forall c, e | 0 <= c < DESCS && IsBlock(s', c, e) ensures e in s'.free[c] || e in s'.live { assert IsBlock(s, c, e); }
  }

  lemma BigGone(s: Heap, b: nat)
    requires Core(s) && b in s.live && Page(b) in s.arenas && s.arenas[Page(b)].Big?
    ensures Core(s.(arenas := s.arenas - {Page(b)}, live := s.live - {b}))
  {
    var s' := s.(arenas := s.arenas - {Page(b)}, live := s.live - {b});
    DropArena(s, s', Page(b));
    assert LiveAt(s, b) && s'.free == s.free;
    forall e | e in s'.arenas ensures CountAt(s', e) { assert CountAt(s, e); }
    forall c, e | 0 <= c < DESCS && e in s'.free[c] ensures IsBlock(s', c, e) { assert IsBlock(s, c, e); }
    forall e | e in s'.live ensures LiveAt(s', e) { assert LiveAt(s, e); }
    forall c, e | 0 <= c < DESCS && IsBlock(s', c, e) ensures e in s'.free[c] || e in s'.live { assert IsBlock(s, c, e); }
  }
}
