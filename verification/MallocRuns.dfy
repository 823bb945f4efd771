/** What holds of the block allocator after any sequence of calls. */
module MallocRuns {
  import opened Address
  import opened Sequences
  import opened MallocState
  import opened MallocProof

  /** The smallest descriptor that is large enough. */
  lemma {:induction false} PickIs(size: nat, d: nat)
    requires d <= DESCS
    ensures var r := Pick(size, d);
      && (r < DESCS ==> size <= BlockSize(r))
      && (forall c :: d <= c < r ==> BlockSize(c) < size)
    decreases DESCS - d
  {
    if d < DESCS && BlockSize(d) < size { PickIs(size, d + 1); }
  }

  /** A call either fails and changes nothing, or adds one block that was not live. */
  lemma MallocKeeps(s: Heap, size: nat, page: nat)
    requires Inv(s) && Grant(s, page, PagesWanted(s, size))
    ensures var (s', b) := Malloc(s, size, page);
      && Inv(s')
      && (b == NULL ==> s' == s)
      && (b != NULL ==> b !in s.live && s'.live == s.live[b := size])
      && (b == NULL <==> size == 0 || (PagesWanted(s, size) > 0 && page == NULL))
  {
    PickIs(size, 0);
    PagesForIs(size);
    var d := Pick(size, 0);
    if size > 0 && d == DESCS && page != NULL {
      BigKeeps(s, page, size);
      var s' := Malloc(s, size, page).0;
      forall a | a in s'.arenas ensures BusyAt(s', a) { assert a in s.arenas ==> BusyAt(s, a); }
    } else if size > 0 && d < DESCS && s.free[d] == [] && page != NULL {
      GrownKeeps(s, d, page);
      BlocksThere(page, d);
      var g := Grown(s, d, page);
      assert g.free[d] == Blocks(page, d, PerArena(d));
      PoppedKeeps(g, d, size);
      GrownBusy(s, d, page, size);
    } else if size > 0 && d < DESCS && s.free[d] != [] {
      FrontCounted(s, d);
      PoppedKeeps(s, d, size);
      PoppedBusy(s, d, size);
      FrontLive(s, d);
    }
  }

  lemma PoppedBusy(s: Heap, d: nat, size: nat)
    requires Busy(s) && |s.free| == DESCS && d < DESCS && s.free[d] != [] && FrontOk(s, d)
    ensures Busy(Popped(s, d, size))
  {
    var s' := Popped(s, d, size);
    forall a | a in s'.arenas ensures BusyAt(s', a) { assert BusyAt(s, a); }
  }

  /** A new arena is full of free blocks only until its first block is handed out. */
  lemma GrownBusy(s: Heap, d: nat, page: nat, size: nat)
    requires Busy(s) && |s.free| == DESCS && d < DESCS && page !in s.arenas
    requires Grown(s, d, page).free[d] != [] && Page(Grown(s, d, page).free[d][0]) == page && PerArena(d) >= 1
    ensures Busy(Popped(Grown(s, d, page), d, size))
  {
    var s' := Popped(Grown(s, d, page), d, size);
    forall a | a in s'.arenas ensures BusyAt(s', a) { assert a in s.arenas ==> BusyAt(s, a); }
  }

  /** Blocks on free lists have addresses past a header, so none is null. */
  lemma FrontLive(s: Heap, d: nat)
    requires Core(s) && d < DESCS && s.free[d] != []
    ensures s.free[d][0] != NULL
  {
    assert s.free[d][0] in s.free[d];
    assert IsBlock(s, d, s.free[d][0]);
  }

  /** Giving a block back removes it and nothing else, and the assertion on the free
      count of its arena holds. */
  lemma FreeKeeps(s: Heap, b: nat)
    requires Inv(s) && (b == NULL || b in s.live)
    ensures Inv(Free(s, b))
    ensures Free(s, b).live == s.live - {b}
    ensures b != NULL ==> Page(b) in s.arenas
    ensures b != NULL && s.arenas[Page(b)].Small? ==> s.arenas[Page(b)].freeCnt + 1 <= PerArena(s.arenas[Page(b)].d)
  {
    NullNotLive(s);
    if b != NULL {
      assert LiveAt(s, b) && BusyAt(s, Page(b));
      FreeBusy(s, b);
      if s.arenas[Page(b)].Big? {
        BigGone(s, b);
      } else {
        PushedKeeps(s, b);
        var p, a := Pushed(s, b), Page(b);
        if p.arenas[a].freeCnt >= PerArena(p.arenas[a].d) { ReleasedKeeps(p, a); }
      }
    }
  }

  lemma FreeBusy(s: Heap, b: nat)
    requires Inv(s) && b != NULL && b in s.live
    ensures Busy(Free(s, b))
  {
    var s' := Free(s, b);
    assert LiveAt(s, b);
    forall a | a in s'.arenas ensures BusyAt(s', a) { assert BusyAt(s, a); }
  }

  lemma NullNotLive(s: Heap)
    requires Core(s)
    ensures NULL !in s.live && 0 !in s.arenas
  {
    assert 0 in s.arenas ==> ArenaOk(s, 0);
    assert NULL in s.live ==> LiveAt(s, NULL);
  }

  function Realloc(s: Heap, b: nat, size: nat, page: nat): (Heap, nat)
    requires Inv(s) && (b == NULL || b in s.live) && Grant(s, page, PagesWanted(s, size))
  {
    if size == 0 then (Free(s, b), NULL) else
    MallocKeeps(s, size, page);
    var (s', n) := Malloc(s, size, page);
    if b != NULL && n != NULL then (Free(s', b), n) else (s', n)
  }

  /** On success the new block replaces the old one; on failure the old one stays. */
  lemma ReallocKeeps(s: Heap, b: nat, size: nat, page: nat)
    requires Inv(s) && (b == NULL || b in s.live) && Grant(s, page, PagesWanted(s, size))
    ensures var (s', n) := Realloc(s, b, size, page);
      && Inv(s')
      && (size == 0 ==> n == NULL && s'.live == s.live - {b})
      && (size > 0 && n == NULL ==> s' == s)
      && (size > 0 && n != NULL ==> n !in s.live && s'.live == s.live[n := size] - {b})
  {
    if size == 0 {
      FreeKeeps(s, b);
    } else {
      MallocKeeps(s, size, page);
      var (s', n) := Malloc(s, size, page);
      NullNotLive(s');
      if b != NULL && n != NULL {
        FreeKeeps(s', b);
      } else if n != NULL {
        NotThere(s'.live, b);
      }
    }
  }

  lemma NotThere(m: map<nat, nat>, b: nat)
    requires b !in m
    ensures m - {b} == m
  {
  }

  datatype Call = MallocCall(size: nat, page: nat) | FreeCall(b: nat) | ReallocCall(b: nat, size: nat, page: nat)

  /** Callers free and resize only blocks they have; page is what the page allocator gives. */
  ghost predicate Allowed(s: Heap, c: Call) {
    && Inv(s)
    && match c
       case MallocCall(size, page) => Grant(s, page, PagesWanted(s, size))
       case FreeCall(b) => b == NULL || b in s.live
       case ReallocCall(b, size, page) => (b == NULL || b in s.live) && Grant(s, page, PagesWanted(s, size))
  }

  ghost function After(s: Heap, c: Call): Heap
    requires Allowed(s, c)
  {
    match c
    case MallocCall(size, page) => Malloc(s, size, page).0
    case FreeCall(b) => Free(s, b)
    case ReallocCall(b, size, page) => Realloc(s, b, size, page).0
  }

  /** The heaps that a sequence of calls goes through.  By RunOk every one of them keeps
      the invariant, so that every call is constrained. */
  ghost predicate IsRun(run: seq<Heap>, calls: seq<Call>) {
    && |run| == |calls| + 1 && Init(run[0])
    && forall n :: 0 <= n < |calls| && Inv(run[n]) ==> Allowed(run[n], calls[n]) && run[n + 1] == After(run[n], calls[n])
  }

  lemma InitOk(s: Heap)
    requires Init(s)
    ensures Inv(s)
  {
  }

  lemma {:induction false} RunOk(run: seq<Heap>, calls: seq<Call>, n: nat)
    requires IsRun(run, calls) && n < |run|
    ensures Inv(run[n])
  {
    if n == 0 {
      InitOk(run[0]);
    } else {
      RunOk(run, calls, n - 1);
      var s := run[n - 1];
      match calls[n - 1]
      case MallocCall(size, page) => MallocKeeps(s, size, page);
      case FreeCall(b) => FreeKeeps(s, b);
      case ReallocCall(b, size, page) => ReallocKeeps(s, b, size, page);
    }
  }

  // ---------------------------------------------------------------------
  // What the invariant gives the callers
  // ---------------------------------------------------------------------

  /** A live block lies behind the header and inside its arena's pages, and is as large
      as was asked. */
  lemma BlockInside(s: Heap, b: nat)
    requires Core(s) && b in s.live
    ensures Page(b) in s.arenas && Page(b) + HEADER <= b
    ensures 0 < s.live[b] <= Capacity(s, b)
    ensures b + Capacity(s, b) <= Page(b) + Extent(s.arenas[Page(b)])
  {
    assert LiveAt(s, b) && ArenaOk(s, Page(b));
    if s.arenas[Page(b)].Big? { Offset(Page(b), HEADER); }
  }

  /** Live blocks never overlap. */
  lemma LiveApart(s: Heap, b: nat, c: nat)
    requires Core(s) && b in s.live && c in s.live && b < c
    ensures Page(b) in s.arenas && b + Capacity(s, b) <= c
  {
    BlockInside(s, b);
    BlockInside(s, c);
    assert LiveAt(s, b) && LiveAt(s, c);
    if Page(b) == Page(c) {
      if s.arenas[Page(b)].Small? { BlocksApart(b, c, s.arenas[Page(b)].d); }
    } else {
      PagesOrdered(b, c);
      assert Clear(s, Page(b), Page(c));
    }
  }

  lemma PagesOrdered(b: nat, c: nat)
    requires b < c && Page(b) != Page(c)
    ensures Page(b) < Page(c)
  {
    assert Page(b) % PGSIZE == 0 && Page(c) % PGSIZE == 0;
  }

  /** No live block touches a header or a free block. */
  lemma ClearOfOwn(s: Heap, b: nat, q: nat)
    requires Core(s) && b in s.live && Page(b) in s.arenas && b <= q < b + Capacity(s, b)
    ensures !Own(s, q)
  {
    BlockInside(s, b);
    assert LiveAt(s, b) && ArenaOk(s, Page(b));
    forall a | a in s.arenas ensures !(a <= q < a + HEADER) {
      assert ArenaOk(s, a) && Clear(s, a, Page(b)) && Clear(s, Page(b), a);
    }
    forall d, f | 0 <= d < DESCS && f in s.free[d] ensures !(f <= q < f + BlockSize(d)) { ApartFromFree(s, b, d, f); }
  }

  lemma {:induction false} ApartFromFree(s: Heap, b: nat, d: nat, f: nat)
    requires Core(s) && b in s.live && d < DESCS && f in s.free[d]
    ensures Page(b) in s.arenas && (b + Capacity(s, b) <= f || f + BlockSize(d) <= b)
  {
    BlockInside(s, b);
    FreeInside(s, d, f);
    if Page(b) == Page(f) {
      SamePage(s, b, d, f);
    } else {
      assert ArenaOk(s, Page(b)) && ArenaOk(s, Page(f)) && Clear(s, Page(b), Page(f)) && Clear(s, Page(f), Page(b));
      if b < f { PagesOrdered(b, f); } else { PagesOrdered(f, b); }
    }
  }

  lemma {:induction false} FreeInside(s: Heap, d: nat, f: nat)
    requires FreeOk(s) && ArenasOk(s) && d < DESCS && f in s.free[d]
    ensures IsBlock(s, d, f) && f + BlockSize(d) <= Page(f) + PGSIZE
  {
    assert IsBlock(s, d, f);
  }

  lemma {:induction false} SamePage(s: Heap, b: nat, d: nat, f: nat)
    requires Core(s) && b in s.live && d < DESCS && f in s.free[d] && Page(b) == Page(f) && IsBlock(s, d, f)
    ensures Page(b) in s.arenas && (b + Capacity(s, b) <= f || f + BlockSize(d) <= b)
  {
    assert LiveAt(s, b);
    assert b != f && Capacity(s, b) == BlockSize(d);
    if b < f { BlocksApart(b, f, d); } else { BlocksApart(f, b, d); }
  }

  /** A byte the allocator keeps for itself: in a header or in a free block. */
  ghost predicate Own(s: Heap, q: nat)
    requires |s.free| == DESCS
  {
    || (exists a :: a in s.arenas && a <= q < a + HEADER)
    || (exists d, f {:trigger f in s.free[d]} :: 0 <= d < DESCS && f in s.free[d] && f <= q < f + BlockSize(d))
  }

  /** An arena is kept only as long as some block in it is live. */
  lemma KeptForALiveBlock(s: Heap, a: nat) returns (b: nat)
    requires Inv(s) && a in s.arenas
    ensures b in s.live && Page(b) == a
  {
    assert ArenaOk(s, a);
    if s.arenas[a].Big? {
      Offset(a, HEADER);
      b := a + HEADER;
    } else {
      var d := s.arenas[a].d;
      var x := Elems(Blocks(a, d, PerArena(d)));
      BlockCount(a, d);
      assert CountAt(s, a) && BusyAt(s, a);
      if x <= FreeIn(s.free[d], a) { SameCard(x, FreeIn(s.free[d], a)); }
      b :| b in x && b !in FreeIn(s.free[d], a);
      assert IsBlock(s, d, b);
    }
  }
}
