/**
 The allocator's code: its loops over descriptors and blocks, and the memory it
 writes.  `mem` holds the bytes; the allocator scribbles on headers and free blocks,
 and callers' bytes stay as they are.
 */
module MallocHeap {
  import opened Address
  import opened Sequences
  import opened MallocState
  import opened MallocProof
  import opened MallocRuns

  datatype Desc = Desc(blockSize: nat, blocksPerArena: nat)

  /** malloc_init: the table has seven entries, which its ten places hold. */
  method MallocInit() returns (descs: seq<Desc>)
    ensures |descs| == DESCS <= 10
    ensures forall d :: 0 <= d < DESCS ==> descs[d] == Desc(BlockSize(d), PerArena(d))
  {
    descs := [];
    var size := 16;
    while size < PGSIZE / 2
      invariant |descs| <= DESCS && size == BlockSize(|descs|)
      invariant forall d :: 0 <= d < |descs| ==> descs[d] == Desc(BlockSize(d), PerArena(d))
      decreases PGSIZE - size
    {
      SizesLeft(|descs|);
      descs := descs + [Desc(size, (PGSIZE - HEADER) / size)];
      size := 2 * size;
    }
    SizesLeft(|descs|);
  }

  lemma {:induction false} SizesLeft(d: nat)
    requires d <= DESCS
    ensures BlockSize(d) < PGSIZE / 2 <==> d < DESCS
  {
    if d < DESCS { SizeBound(d); }
    SizeBound(6);
    assert BlockSize(7) == 2 * BlockSize(6);
    assert BlockSize(6) == 2 * BlockSize(5) == 4 * BlockSize(4);
    assert BlockSize(4) == 2 * BlockSize(3) == 4 * BlockSize(2);
    assert BlockSize(2) == 2 * BlockSize(1) == 4 * BlockSize(0);
  }

  /** q without the addresses in x. */
  function Drop(q: seq<nat>, x: set<nat>): seq<nat> {
    if q == [] then [] else (if q[0] in x then [] else [q[0]]) + Drop(q[1..], x)
  }

  lemma {:induction false} DropNothing(q: seq<nat>, x: set<nat>)
    requires forall b :: b in q ==> b !in x
    ensures Drop(q, x) == q
  {
    if q != [] {
      assert q[0] in q;
      forall b | b in q[1..] ensures b !in x { assert b in q; }
      DropNothing(q[1..], x);
    }
  }

  lemma {:induction false} DropSame(q: seq<nat>, x: set<nat>, y: set<nat>)
    requires forall b :: b in q ==> (b in x <==> b in y)
    ensures Drop(q, x) == Drop(q, y)
  {
    if q != [] {
      assert q[0] in q;
      forall b | b in q[1..] ensures b in x <==> b in y { assert b in q; }
      DropSame(q[1..], x, y);
    }
  }

  lemma {:induction false} RemoveIsDrop(q: seq<nat>, x: set<nat>, b: nat)
    requires NoDup(q) && b in q && b !in x
    ensures Remove(Drop(q, x), b) == Drop(q, x + {b})
  {
    var r := q[1..];
    assert q == [q[0]] + r;
    if q[0] == b {
      assert forall c :: c in r ==> c != b;
      DropSame(r, x, x + {b});
      assert Drop(q, x) == [b] + Drop(r, x) && ([b] + Drop(r, x))[1..] == Drop(r, x);
    } else {
      RemoveIsDrop(r, x, b);
      if q[0] !in x {
        assert Drop(q, x) == [q[0]] + Drop(r, x) && ([q[0]] + Drop(r, x))[1..] == Drop(r, x);
        assert Drop(q, x + {b}) == [q[0]] + Drop(r, x + {b});
      } else {
        assert Drop(q, x) == Drop(r, x) && Drop(q, x + {b}) == Drop(r, x + {b});
      }
    }
  }

  lemma {:induction false} WithoutIsDrop(q: seq<nat>, a: nat, x: set<nat>)
    requires forall b :: b in q ==> (b in x <==> Page(b) == a)
    ensures Without(q, a) == Drop(q, x)
  {
    if q != [] {
      assert q[0] in q;
      forall b | b in q[1..] ensures b in x <==> Page(b) == a { assert b in q; }
      WithoutIsDrop(q[1..], a, x);
    }
  }

  /** A byte of a block in some caller's hands. */
  ghost predicate InLive(s: Heap, q: nat) {
    exists b :: Holds(s, b, q)
  }

  /** q is a byte of block b. */
  ghost predicate Holds(s: Heap, b: nat, q: nat) {
    b in s.live && Page(b) in s.arenas && b <= q < b + Capacity(s, b)
  }

  type Memory = nat -> int

  /** The bytes of live blocks are the same. */
  ghost predicate Kept(s: Heap, m: Memory, m': Memory) {
    forall q: nat :: InLive(s, q) ==> m'(q) == m(q)
  }

  ghost predicate SameOutside(m: Memory, m': Memory, lo: nat, n: nat) {
    forall q: nat :: !(lo <= q < lo + n) ==> m'(q) == m(q)
  }

  /** p is in none of the blocks of q. */
  ghost predicate OffList(q: seq<nat>, d: nat, p: nat) {
    forall b :: b in q ==> !(b <= p < b + BlockSize(d))
  }

  class BlockHeap {
    var free: seq<seq<nat>>
    var arenas: map<nat, Arena>
    ghost var live: map<nat, nat>
    var mem: Memory

    ghost function State(): Heap
      reads this
    {
      Heap(free, arenas, live)
    }

    /** Writes whose values do not matter, to n bytes from lo on. */
    method Scribble(lo: nat, n: nat)
      modifies `mem
      ensures SameOutside(old(mem), mem, lo, n)
    {
      var m := mem;
      var junk: Memory := *;
      mem := (q: nat) => if lo <= q < lo + n then junk(q) else m(q);
    }

    /** Writes to the links inside the blocks of one free list. */
    method Relink(d: nat)
      requires d < |free|
      modifies `mem
      ensures forall p: nat :: OffList(free[d], d, p) ==> mem(p) == old(mem)(p)
    {
      var i := 0;
      var q := free[d];
      while i < |q|
        invariant 0 <= i <= |q|
        invariant forall p: nat :: OffList(q, d, p) ==> mem(p) == old(mem)(p)
      {
        assert q[i] in q;
        Scribble(q[i], 8);
        i := i + 1;
      }
    }

    method Malloc(size: nat, page: nat) returns (b: nat)
      requires Inv(State()) && Grant(State(), page, PagesWanted(State(), size))
      modifies this
      ensures (State(), b) == MallocState.Malloc(old(State()), size, page)
      ensures Inv(State()) && Kept(old(State()), old(mem), mem)
    {
      ghost var s := State();
      MallocKeeps(s, size, page);
      if size == 0 { return NULL; }
      var d := FindDesc(size);
      if page == NULL && (d == DESCS || free[d] == []) { return NULL; }
      if d == DESCS {
        b := MallocBig(size, page);
      } else {
        b := MallocSmall(d, size, page);
      }
      MallocIs(s, size, page, d);
    }

    method FindDesc(size: nat) returns (d: nat)
      ensures d == Pick(size, 0)
    {
      d := 0;
      while d < DESCS && BlockSize(d) < size
        invariant d <= DESCS && Pick(size, 0) == Pick(size, d)
      {
        d := d + 1;
      }
    }

    method MallocBig(size: nat, page: nat) returns (b: nat)
      requires Core(State()) && page > 0 && Grant(State(), page, PagesFor(size))
      modifies this
      ensures State() == old(State()).(arenas := old(arenas)[page := Big(PagesFor(size))], live := old(live)[page + HEADER := size])
      ensures b == page + HEADER && Kept(old(State()), old(mem), mem)
    {
      Unclaimed(State(), page, PagesFor(size));
      PagesForIs(size);
      Scribble(page, HEADER);
      arenas := arenas[page := Big(PagesFor(size))];
      live := live[page + HEADER := size];
      b := page + HEADER;
    }

    /** A block from descriptor d, from a new arena if the free list is empty. */
    method MallocSmall(d: nat, size: nat, page: nat) returns (b: nat)
      requires Core(State()) && d < DESCS && (free[d] == [] ==> page > 0 && Grant(State(), page, 1))
      modifies this
      ensures var s := if old(free)[d] == [] then Grown(old(State()), d, page) else old(State());
        Core(s) && s.free[d] != [] && FrontOk(s, d) && State() == Popped(s, d, size) && b == s.free[d][0]
      ensures Kept(old(State()), old(mem), mem)
    {
      if free[d] == [] {
        Unclaimed(State(), page, 1);
        GrownKeeps(State(), d, page);
        BlocksThere(page, d);
        NewArena(d, page);
        assert free[d] == Blocks(page, d, PerArena(d));
      }
      FrontCounted(State(), d);
      GrownLive(old(State()), State());
      b := Pop(d, size);
    }

    /** The front of a free list goes to the caller. */
    method Pop(d: nat, size: nat) returns (b: nat)
      requires Core(State()) && d < DESCS && free[d] != [] && FrontOk(State(), d)
      modifies this
      ensures State() == Popped(old(State()), d, size) && b == old(free)[d][0]
      ensures Kept(old(State()), old(mem), mem)
    {
      OwnUnclaimed(State());
      b := free[d][0];
      var a := Page(b);
      Relink(d);
      Scribble(a, HEADER);
      free := free[d := free[d][1..]];
      arenas := arenas[a := arenas[a].(freeCnt := arenas[a].freeCnt - 1)];
      live := live[b := size];
    }

    /** A new page, cut into blocks. */
    method NewArena(d: nat, page: nat)
      requires |free| == DESCS && d < DESCS
      modifies `free, `arenas, `mem
      ensures State() == Grown(old(State()), d, page)
      ensures SameOutside(old(mem), mem, page, PGSIZE)
    {
      Scribble(page, PGSIZE);
      arenas := arenas[page := Small(d, PerArena(d))];
      var i := 0;
      ghost var f := free;
      assert f[d] + Blocks(page, d, 0) == f[d] && f[d := f[d]] == f;
      while i < PerArena(d)
        invariant i <= PerArena(d) && |free| == DESCS
        invariant free == f[d := f[d] + Blocks(page, d, i)]
        invariant arenas == old(arenas)[page := Small(d, PerArena(d))]
        invariant SameOutside(old(mem), mem, page, PGSIZE)
      {
        free := free[d := free[d] + [BlockAt(page, d, i)]];
        i := i + 1;
        assert f[d] + Blocks(page, d, i) == f[d] + Blocks(page, d, i - 1) + [BlockAt(page, d, i - 1)];
      }
    }

    method Free(b: nat)
      requires Inv(State()) && (b == NULL || b in live)
      modifies this
      ensures State() == MallocState.Free(old(State()), b)
      ensures Inv(State()) && Kept(State(), old(mem), mem)
    {
      ghost var s := State();
      FreeKeeps(s, b);
      if b == NULL { return; }
      FreeShape(s, b);
      var a := Page(b);
      ghost var s' := MallocState.Free(s, b);
      if arenas[a].Small? {
        var d := arenas[a].d;
        FreeSmall(b, a, d);
        SmallKept(s, s', b, old(mem), mem);
      } else {
        var n := arenas[a].pages;
        arenas := arenas - {a};
        live := live - {b};
        Scribble(a, n * PGSIZE);
        GivenBack(s, s', a);
      }
    }

    /** The block is cleared and goes to the front of its free list; an arena that is
        free altogether goes back. */
    method FreeSmall(b: nat, a: nat, d: nat)
      requires |free| == DESCS && d < DESCS && a == Page(b) && a in arenas && arenas[a].Small? && arenas[a].d == d
      requires arenas[a].freeCnt + 1 >= PerArena(d) ==> ArenaListed([b] + free[d], a, d)
      modifies this
      ensures State() == FreedSmall(old(State()), b)
      ensures Touched(old(mem), mem, [b] + old(free)[d], a, d)
      ensures a !in arenas || SmallTouched(old(mem), mem, [b] + old(free)[d], a, d)
    {
      Scribble(b, BlockSize(d));
      live := live - {b};
      free := free[d := [b] + free[d]];
      assert b in free[d];
      Relink(d);
      Scribble(a, HEADER);
      arenas := arenas[a := arenas[a].(freeCnt := arenas[a].freeCnt + 1)];
      if arenas[a].freeCnt >= PerArena(d) {
        TakeBlocks(a, d);
        arenas := arenas - {a};
        Scribble(a, PGSIZE);
      }
    }

    /** Takes the blocks of an arena off the free list one by one. */
    method TakeBlocks(a: nat, d: nat)
      requires |free| == DESCS && d < DESCS && ArenaListed(free[d], a, d)
      modifies `free
      ensures free == old(free)[d := Without(old(free)[d], a)]
    {
      ghost var q := free[d];
      ArenaBlocks(a, d);
      DropNothing(q, {});
      assert Elems(Blocks(a, d, 0)) == {} && free == free[d := q];
      var i := 0;
      while i < PerArena(d)
        invariant i <= PerArena(d) && free == old(free)[d := Drop(q, Elems(Blocks(a, d, i)))]
      {
        NextBlock(a, d, i, q);
        free := free[d := Remove(free[d], BlockAt(a, d, i))];
        i := i + 1;
      }
      WithoutIsDrop(q, a, Elems(Blocks(a, d, PerArena(d))));
    }

    /** The first bytes move along; no other block notices. */
    method Realloc(b: nat, size: nat, page: nat) returns (n: nat)
      requires Inv(State()) && (b == NULL || b in live) && Grant(State(), page, PagesWanted(State(), size))
      modifies this
      ensures (State(), n) == MallocRuns.Realloc(old(State()), b, size, page)
      ensures Inv(State())
      ensures b != NULL && n != NULL ==> BytesMoved(old(State()), b, n, size, old(mem), mem)
      ensures OthersKept(old(State()), b, old(mem), mem)
      ensures size > 0 && n == NULL ==> Kept(old(State()), old(mem), mem)
    {
      ghost var s := State();
      ReallocKeeps(s, b, size, page);
      if size == 0 {
        Free(b);
        FreeStill(s, b);
        FreeKeeps(s, b);
        KeptOthers(s, State(), b, old(mem), mem);
        return NULL;
      }
      MallocKeeps(s, size, page);
      MallocStill(s, size, page);
      n := Malloc(size, page);
      KindsStill(s, s);
      KeptOthers(s, s, b, old(mem), mem);
      if b != NULL && n != NULL { Replace(b, n, size, s, old(mem)); }
    }

    /** The second half of realloc; s and m0 are from before the first. */
    method Replace(b: nat, n: nat, size: nat, ghost s: Heap, ghost m0: Memory)
      requires Inv(State()) && Core(s) && Still(s, State()) && Kept(s, m0, mem)
      requires b != NULL && b in s.live && n !in s.live && live == s.live[n := size]
      modifies this
      ensures State() == MallocState.Free(old(State()), b) && Inv(State())
      ensures BytesMoved(s, b, n, size, m0, mem) && OthersKept(s, b, m0, mem)
    {
      ghost var s1, m := State(), mem;
      FreeStill(s1, b);
      FreeKeeps(s1, b);
      BlockInside(s1, b);
      Copy(b, n, size);
      ghost var m1 := mem;
      Free(b);
      Replaced(s, s1, State(), b, n, size, m0, m, m1, mem);
    }

    /** memcpy of what both blocks have room for. */
    method Copy(b: nat, n: nat, size: nat)
      requires Page(b) in arenas && Capacity(State(), b) >= 0
      modifies `mem
      ensures Copied(State(), b, n, size, old(mem), mem)
    {
      var have := match arenas[Page(b)] case Small(d, _) => BlockSize(d) case Big(k) => PGSIZE * k - b % PGSIZE;
      var min := if size < have then size else have;
      var m := mem;
      mem := (q: nat) => if n <= q < n + min then m(b + (q - n)) else m(q);
    }
  }

  /** Free's two outcomes for a block of a descriptor. */
  function FreedSmall(s: Heap, b: nat): Heap
    requires |s.free| == DESCS && Page(b) in s.arenas && s.arenas[Page(b)].Small? && s.arenas[Page(b)].d < DESCS
  {
    var p, a := Pushed(s, b), Page(b);
    if p.arenas[a].freeCnt >= PerArena(p.arenas[a].d) then Released(p, a) else p
  }

  /** q lists every block of the arena, and no other address in its page. */
  ghost predicate ArenaListed(q: seq<nat>, a: nat, d: nat) {
    && a % PGSIZE == 0 && NoDup(q)
    && (forall b :: Aligned(b, d) && Page(b) == a ==> b in q)
    && (forall b :: b in q && Page(b) == a ==> Aligned(b, d))
  }

  /** Only the arena's page and the blocks of q may differ. */
  ghost predicate Touched(m: Memory, m': Memory, q: seq<nat>, a: nat, d: nat) {
    forall p: nat :: OffList(q, d, p) && !(a <= p < a + PGSIZE) ==> m'(p) == m(p)
  }

  /** Only the arena's header and the blocks of q may differ. */
  ghost predicate SmallTouched(m: Memory, m': Memory, q: seq<nat>, a: nat, d: nat) {
    forall p: nat :: OffList(q, d, p) && !(a <= p < a + HEADER) ==> m'(p) == m(p)
  }

  /** The cases of a call that succeeds. */
  lemma {:induction false} MallocIs(s: Heap, size: nat, page: nat, d: nat)
    requires Inv(s) && Grant(s, page, PagesWanted(s, size)) && size > 0 && d == Pick(size, 0)
    requires page == NULL ==> d < DESCS && s.free[d] != []
    ensures d == DESCS ==>
      var s' := s.(arenas := s.arenas[page := Big(PagesFor(size))], live := s.live[page + HEADER := size]);
      MallocState.Malloc(s, size, page) == (s', page + HEADER)
    ensures d < DESCS ==>
      var g := if s.free[d] == [] then Grown(s, d, page) else s;
      Core(g) && g.free[d] != [] && FrontOk(g, d) && MallocState.Malloc(s, size, page) == (Popped(g, d, size), g.free[d][0])
  {
    if d < DESCS {
      if s.free[d] == [] {
        GrownKeeps(s, d, page);
        BlocksThere(page, d);
        assert Grown(s, d, page).free[d] == Blocks(page, d, PerArena(d));
        FrontCounted(Grown(s, d, page), d);
      } else {
        FrontCounted(s, d);
      }
    }
  }

  /** A new arena leaves the live blocks where they were. */
  lemma GrownLive(s: Heap, s': Heap)
    requires s'.live == s.live && forall a :: a in s.arenas ==> a in s'.arenas && s'.arenas[a] == s.arenas[a]
    ensures forall q: nat :: InLive(s, q) ==> InLive(s', q)
  {
    forall q: nat | InLive(s, q) ensures InLive(s', q) {
      var b :| Holds(s, b, q);
      assert Holds(s', b, q);
    }
  }

  /** Pages fresh from the page allocator hold no live block. */
  lemma Unclaimed(s: Heap, page: nat, n: nat)
    requires Core(s) && page > 0 && Grant(s, page, n)
    ensures forall q: nat :: page <= q < page + n * PGSIZE ==> !InLive(s, q)
  {
    NoneThere(s, page, n * PGSIZE);
  }

  lemma NoneThere(s: Heap, lo: nat, n: nat)
    requires Core(s) && forall a :: a in s.arenas ==> a + Extent(s.arenas[a]) <= lo || lo + n <= a
    ensures forall q: nat :: lo <= q < lo + n ==> !InLive(s, q)
  {
    forall q: nat | InLive(s, q) ensures !(lo <= q < lo + n) {
      var b :| Holds(s, b, q);
      BlockInside(s, b);
    }
  }

  lemma OwnUnclaimed(s: Heap)
    requires Core(s)
    ensures forall q: nat :: Own(s, q) ==> !InLive(s, q)
  {
    forall q: nat | InLive(s, q) ensures !Own(s, q) {
      var b :| Holds(s, b, q);
      ClearOfOwn(s, b, q);
    }
  }

  /** Where an arena was there is no live block left. */
  lemma GivenBack(s: Heap, s': Heap, a: nat)
    requires ArenasOk(s) && Core(s') && a in s.arenas && s'.arenas == s.arenas - {a}
    ensures forall q: nat :: a <= q < a + Extent(s.arenas[a]) ==> !InLive(s', q)
  {
    forall c | c in s'.arenas ensures c + Extent(s'.arenas[c]) <= a || a + Extent(s.arenas[a]) <= c { assert Clear(s, a, c) && Clear(s, c, a); }
    NoneThere(s', a, Extent(s.arenas[a]));
  }

  /** What Free needs to know about the block. */
  lemma FreeShape(s: Heap, b: nat)
    requires Inv(s) && b in s.live && b != NULL
    ensures Page(b) in s.arenas
    ensures s.arenas[Page(b)].Small? ==>
      var d, a := s.arenas[Page(b)].d, Page(b);
      && d < DESCS && FreedSmall(s, b) == MallocState.Free(s, b)
      && (s.arenas[a].freeCnt + 1 >= PerArena(d) ==> ArenaListed([b] + s.free[d], a, d))
  {
    assert LiveAt(s, b);
    var a := Page(b);
    if s.arenas[a].Small? && s.arenas[a].freeCnt + 1 >= PerArena(s.arenas[a].d) {
      PushedKeeps(s, b);
      AllListed(Pushed(s, b), a);
    }
  }

  lemma AllListed(s: Heap, a: nat)
    requires Core(s) && a in s.arenas && s.arenas[a].Small? && s.arenas[a].freeCnt >= PerArena(s.arenas[a].d)
    ensures s.arenas[a].d < DESCS && ArenaListed(s.free[s.arenas[a].d], a, s.arenas[a].d)
  {
    assert ArenaOk(s, a);
    var d := s.arenas[a].d;
    AllFree(s, a, d);
    forall b | b in s.free[d] && Page(b) == a ensures Aligned(b, d) { assert IsBlock(s, d, b); }
  }

  lemma {:induction false} NextBlock(a: nat, d: nat, i: nat, q: seq<nat>)
    requires ArenaListed(q, a, d) && i < PerArena(d)
    ensures Remove(Drop(q, Elems(Blocks(a, d, i))), BlockAt(a, d, i)) == Drop(q, Elems(Blocks(a, d, i + 1)))
  {
    var b, x := BlockAt(a, d, i), Elems(Blocks(a, d, i));
    BlockIs(a, d, i);
    forall c | c in Blocks(a, d, i) ensures c != b {
      var j :| 0 <= j < i && Blocks(a, d, i)[j] == c;
      BlocksAre(a, d, i, j);
      BlockLt(a, d, j, i);
    }
    RemoveIsDrop(q, x, b);
    assert Elems(Blocks(a, d, i + 1)) == x + {b};
  }

  /** Freeing a small block writes only to what is the allocator's own afterwards, or to
      a page that is no arena any more. */
  lemma SmallKept(s: Heap, s': Heap, b: nat, m: Memory, m': Memory)
    requires Inv(s) && b in s.live && b != NULL && Page(b) in s.arenas && s.arenas[Page(b)].Small? && s.arenas[Page(b)].d < DESCS
    requires s' == FreedSmall(s, b) && Core(s')
    requires var a, d := Page(b), s.arenas[Page(b)].d;
      Touched(m, m', [b] + s.free[d], a, d) && (a !in s'.arenas || SmallTouched(m, m', [b] + s.free[d], a, d))
    ensures Kept(s', m, m')
  {
    var a, d, p := Page(b), s.arenas[Page(b)].d, Pushed(s, b);
    PushedKeeps(s, b);
    if a in s'.arenas {
      ListUnclaimed(s', d, a);
    } else {
      ListUnclaimed(p, d, a);
      GivenBack(p, s', a);
      forall q: nat | InLive(s', q) ensures InLive(p, q) {
        var c :| Holds(s', c, q);
        assert Holds(p, c, q);
      }
    }
  }

  lemma ListUnclaimed(s: Heap, d: nat, a: nat)
    requires Core(s) && d < DESCS && a in s.arenas
    ensures forall q: nat :: InLive(s, q) ==> OffList(s.free[d], d, q) && !(a <= q < a + HEADER)
  {
    forall q: nat | InLive(s, q) ensures OffList(s.free[d], d, q) && !(a <= q < a + HEADER) {
      var b :| Holds(s, b, q);
      ClearOfOwn(s, b, q);
    }
  }

  /** Every block that is live in both is as large as it was. */
  ghost predicate Still(s: Heap, s': Heap) {
    forall c {:trigger c in s'.live} :: c in s.live && c in s'.live ==>
      Page(c) in s.arenas && Page(c) in s'.arenas && Capacity(s', c) == Capacity(s, c)
  }

  predicate SameKind(x: Arena, y: Arena) {
    match x
    case Small(d, _) => y.Small? && y.d == d
    case Big(n) => y == x
  }

  lemma KindsStill(s: Heap, s': Heap)
    requires Core(s) && Core(s')
    requires SameKinds(s, s')
    ensures Still(s, s')
  {
    forall c | c in s.live && c in s'.live ensures Page(c) in s.arenas && Page(c) in s'.arenas && Capacity(s', c) == Capacity(s, c) {
      BlockInside(s, c);
      BlockInside(s', c);
    }
  }

  lemma MallocStill(s: Heap, size: nat, page: nat)
    requires Inv(s) && Grant(s, page, PagesWanted(s, size))
    ensures Still(s, MallocState.Malloc(s, size, page).0)
  {
    MallocKeeps(s, size, page);
    MallocKinds(s, size, page);
    KindsStill(s, MallocState.Malloc(s, size, page).0);
  }

  ghost predicate SameKinds(s: Heap, s': Heap) {
    forall a :: a in s.arenas && a in s'.arenas ==> SameKind(s.arenas[a], s'.arenas[a])
  }

  lemma MallocKinds(s: Heap, size: nat, page: nat)
    requires Inv(s) && Grant(s, page, PagesWanted(s, size))
    ensures SameKinds(s, MallocState.Malloc(s, size, page).0)
  {
    MallocKeeps(s, size, page);
    PagesForIs(size);
    var d, n := Pick(size, 0), PagesWanted(s, size);
    if size > 0 && (n == 0 || page > 0) {
      if n > 0 { GrantedNew(s, page, n); }
      MallocIs(s, size, page, d);
      if d < DESCS { PopKinds(s, d, size, page); }
    }
  }

  lemma PopKinds(s: Heap, d: nat, size: nat, page: nat)
    requires |s.free| == DESCS && d < DESCS && (s.free[d] == [] ==> page !in s.arenas)
    ensures var g := if s.free[d] == [] then Grown(s, d, page) else s;
      g.free[d] != [] && FrontOk(g, d) ==> SameKinds(s, Popped(g, d, size))
  {
  }

  lemma FreeStill(s: Heap, b: nat)
    requires Inv(s) && (b == NULL || b in s.live)
    ensures Still(s, MallocState.Free(s, b))
  {
    FreeKeeps(s, b);
    if b != NULL {
      FreeShape(s, b);
      if s.arenas[Page(b)].Small? { FreedKinds(s, b); }
    }
    KindsStill(s, MallocState.Free(s, b));
  }

  lemma FreedKinds(s: Heap, b: nat)
    requires |s.free| == DESCS && Page(b) in s.arenas && s.arenas[Page(b)].Small? && s.arenas[Page(b)].d < DESCS
    ensures SameKinds(s, FreedSmall(s, b))
  {
  }

  lemma HoldsStill(s: Heap, s': Heap, c: nat, q: nat)
    requires Still(s, s') && Holds(s, c, q) && c in s'.live
    ensures Holds(s', c, q) && InLive(s', q)
  {
    assert Holds(s', c, q);
  }

  /** m1 is m with the first bytes of b, as many as both blocks have room for, at n. */
  ghost predicate Copied(s: Heap, b: nat, n: nat, size: nat, m: Memory, m1: Memory)
    requires Page(b) in s.arenas
  {
    forall q: nat {:trigger m1(q)} :: m1(q) == if n <= q < n + size && q - n < Capacity(s, b) then m(b + (q - n)) else m(q)
  }

  lemma FirstBytes(s: Heap, b: nat, i: nat)
    requires Core(s) && b in s.live && i < s.live[b]
    ensures Holds(s, b, b + i) && InLive(s, b + i) && i < Capacity(s, b)
  {
    BlockInside(s, b);
    assert Holds(s, b, b + i);
  }

  lemma OutsideOther(s: Heap, n: nat, c: nat, q: nat)
    requires Core(s) && n in s.live && c != n && Holds(s, c, q)
    ensures !(n <= q < n + s.live[n])
  {
    BlockInside(s, n);
    if c < n { LiveApart(s, c, n); } else { LiveApart(s, n, c); }
  }

  /** After the copy and the free, the new block starts with the old one's bytes. */
  lemma MovedByte(s: Heap, s1: Heap, s2: Heap, b: nat, n: nat, size: nat, m0: Memory, m: Memory, m1: Memory, m2: Memory, i: nat)
    requires InLive(s, b + i) && Page(b) in s1.arenas && i < Capacity(s1, b) && InLive(s2, n + i) && i < size
    requires Kept(s, m0, m) && Copied(s1, b, n, size, m, m1) && Kept(s2, m1, m2)
    ensures m2(n + i) == m0(b + i)
  {
    assert m(b + i) == m0(b + i) && m1(n + i) == m(b + (n + i - n));
  }

  /** And every other block has its own. */
  lemma OtherByte(s: Heap, s1: Heap, s2: Heap, b: nat, n: nat, size: nat, m0: Memory, m: Memory, m1: Memory, m2: Memory, c: nat, q: nat)
    requires Holds(s, c, q) && InLive(s2, q) && Page(b) in s1.arenas && !(n <= q < n + size)
    requires Kept(s, m0, m) && Copied(s1, b, n, size, m, m1) && Kept(s2, m1, m2)
    ensures m2(q) == m0(q)
  {
    assert InLive(s, q) && m1(q) == m(q);
  }

  /** The bytes of the blocks other than b. */
  ghost predicate OthersKept(s: Heap, b: nat, m: Memory, m': Memory) {
    forall c, q: nat :: c != b && Holds(s, c, q) ==> m'(q) == m(q)
  }

  lemma KeptOthers(s: Heap, s': Heap, b: nat, m: Memory, m': Memory)
    requires Still(s, s') && (forall c :: c in s.live && c != b ==> c in s'.live) && Kept(s', m, m')
    ensures OthersKept(s, b, m, m')
  {
    forall c, q: nat | c != b && Holds(s, c, q) ensures m'(q) == m(q) { HoldsStill(s, s', c, q); }
  }

  predicate ByteMoved(b: nat, n: nat, i: nat, m: Memory, m': Memory) {
    m'(n + i) == m(b + i)
  }

  /** The first size bytes at n are those that were at b, as far as b was asked to reach. */
  ghost predicate BytesMoved(s: Heap, b: nat, n: nat, size: nat, m: Memory, m': Memory)
    requires b in s.live
  {
    forall i: nat :: i < size && i < s.live[b] ==> ByteMoved(b, n, i, m, m')
  }

  lemma Replaced(s: Heap, s1: Heap, s2: Heap, b: nat, n: nat, size: nat, m0: Memory, m: Memory, m1: Memory, m2: Memory)
    requires Core(s) && Core(s1) && Core(s2) && Still(s, s1) && Still(s1, s2) && Page(b) in s1.arenas
    requires b in s.live && n !in s.live && s1.live == s.live[n := size] && s2.live == s1.live - {b}
    requires Kept(s, m0, m) && Copied(s1, b, n, size, m, m1) && Kept(s2, m1, m2)
    ensures BytesMoved(s, b, n, size, m0, m2) && OthersKept(s, b, m0, m2)
  {
    BytesMove(s, s1, s2, b, n, size, m0, m, m1, m2);
    BytesStay(s, s1, s2, b, n, size, m0, m, m1, m2);
  }

  lemma BytesMove(s: Heap, s1: Heap, s2: Heap, b: nat, n: nat, size: nat, m0: Memory, m: Memory, m1: Memory, m2: Memory)
    requires Core(s) && Core(s1) && Core(s2) && Page(b) in s1.arenas
    requires b in s.live && b in s1.live && s1.live[b] == s.live[b] && n in s2.live && s2.live[n] == size
    requires Kept(s, m0, m) && Copied(s1, b, n, size, m, m1) && Kept(s2, m1, m2)
    ensures BytesMoved(s, b, n, size, m0, m2)
  {
    forall i: nat | i < size && i < s.live[b] ensures ByteMoved(b, n, i, m0, m2) {
      ByteMoves(s, s1, s2, b, n, size, m0, m, m1, m2, i);
    }
  }

  lemma BytesStay(s: Heap, s1: Heap, s2: Heap, b: nat, n: nat, size: nat, m0: Memory, m: Memory, m1: Memory, m2: Memory)
    requires Core(s1) && Still(s, s1) && Still(s1, s2) && Page(b) in s1.arenas
    requires n !in s.live && s1.live == s.live[n := size] && s2.live == s1.live - {b}
    requires Kept(s, m0, m) && Copied(s1, b, n, size, m, m1) && Kept(s2, m1, m2)
    ensures OthersKept(s, b, m0, m2)
  {
    forall c, q: nat | c != b && Holds(s, c, q) ensures m2(q) == m0(q) {
      ByteStays(s, s1, s2, b, n, size, m0, m, m1, m2, c, q);
    }
  }

  lemma ByteMoves(s: Heap, s1: Heap, s2: Heap, b: nat, n: nat, size: nat, m0: Memory, m: Memory, m1: Memory, m2: Memory, i: nat)
    requires Core(s) && Core(s1) && Core(s2) && Page(b) in s1.arenas
    requires b in s.live && b in s1.live && s1.live[b] == s.live[b] && n in s2.live && s2.live[n] == size
    requires Kept(s, m0, m) && Copied(s1, b, n, size, m, m1) && Kept(s2, m1, m2) && i < size && i < s.live[b]
    ensures m2(n + i) == m0(b + i)
  {
    FirstBytes(s, b, i);
    FirstBytes(s1, b, i);
    FirstBytes(s2, n, i);
    MovedByte(s, s1, s2, b, n, size, m0, m, m1, m2, i);
  }

  lemma ByteStays(s: Heap, s1: Heap, s2: Heap, b: nat, n: nat, size: nat, m0: Memory, m: Memory, m1: Memory, m2: Memory, c: nat, q: nat)
    requires Core(s1) && Still(s, s1) && Still(s1, s2) && Page(b) in s1.arenas
    requires n !in s.live && s1.live == s.live[n := size] && s2.live == s1.live - {b} && c != b && Holds(s, c, q)
    requires Kept(s, m0, m) && Copied(s1, b, n, size, m, m1) && Kept(s2, m1, m2)
    ensures m2(q) == m0(q)
  {
    HoldsStill(s, s1, c, q);
    HoldsStill(s1, s2, c, q);
    OutsideOther(s1, n, c, q);
    OtherByte(s, s1, s2, b, n, size, m0, m, m1, m2, c, q);
  }
}
