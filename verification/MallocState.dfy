/**
 The block allocator of `threads/malloc.c` as a state and what each call makes of it.
 A free list is a sequence of block addresses, an arena is named by the address of its
 page, and `live` records, for each block in a caller's hands, the size it asked for.
 */
module MallocState {
  import opened Address
  import opened Sequences

  const HEADER: nat := 12
  const DESCS: nat := 7

  /** An arena's header: its descriptor and free count, or the pages of a big block. */
  datatype Arena = Small(d: nat, freeCnt: nat) | Big(pages: nat)

  datatype Heap = Heap(free: seq<seq<nat>>, arenas: map<nat, Arena>, live: map<nat, nat>)

  function BlockSize(d: nat): (r: nat)
    ensures r >= 16
  {
    if d == 0 then 16 else 2 * BlockSize(d - 1)
  }

  function PerArena(d: nat): nat {
    QuotientNat(PGSIZE - HEADER, BlockSize(d));
    (PGSIZE - HEADER) / BlockSize(d)
  }

  lemma QuotientNat(x: int, k: int)
    requires x >= 0 && k > 0
    ensures x / k >= 0
  {
    var q := x / k;
    assert x == k * q + x % k;
    NotBelow(k, q);
  }

  lemma NotBelow(k: int, q: int)
    requires k > 0
    ensures q < 0 ==> k * q <= -k
  {
  }

  /** pg_round_down */
  function Page(b: nat): nat { b - b % PGSIZE }

  function BlockAt(a: nat, d: nat, i: nat): nat { a + HEADER + i * BlockSize(d) }

  /** The first n blocks of an arena. */
  function Blocks(a: nat, d: nat, n: nat): (q: seq<nat>)
    ensures |q| == n
  {
    if n == 0 then [] else Blocks(a, d, n - 1) + [BlockAt(a, d, n - 1)]
  }

  function Extent(a: Arena): nat {
    match a
    case Small(_, _) => PGSIZE
    case Big(n) => n * PGSIZE
  }

  function PagesFor(size: nat): nat { (size + HEADER + PGSIZE - 1) / PGSIZE }

  /** The smallest descriptor that satisfies a request, DESCS if none does. */
  function Pick(size: nat, d: nat): (r: nat)
    requires d <= DESCS
    ensures d <= r <= DESCS
    decreases DESCS - d
  {
    if d == DESCS || BlockSize(d) >= size then d else Pick(size, d + 1)
  }

  /** What the page allocator may hand out: null, or pages that no arena has. */
  predicate Grant(s: Heap, page: nat, n: nat) {
    page == NULL || (
      && page % PGSIZE == 0
      && forall a :: a in s.arenas ==> a + Extent(s.arenas[a]) <= page || page + n * PGSIZE <= a)
  }

  function PagesWanted(s: Heap, size: nat): nat
    requires |s.free| == DESCS
  {
    var d := Pick(size, 0);
    if size == 0 then 0 else if d == DESCS then PagesFor(size) else if s.free[d] == [] then 1 else 0
  }

  // ---------------------------------------------------------------------
  // The calls
  // ---------------------------------------------------------------------

  /** A new arena, all its blocks on the free list. */
  function Grown(s: Heap, d: nat, page: nat): Heap
    requires |s.free| == DESCS && d < DESCS
  {
    s.(free := s.free[d := s.free[d] + Blocks(page, d, PerArena(d))], arenas := s.arenas[page := Small(d, PerArena(d))])
  }

  /** The front of the free list goes to the caller. */
  function Popped(s: Heap, d: nat, size: nat): Heap
    requires |s.free| == DESCS && d < DESCS && s.free[d] != []
    requires Page(s.free[d][0]) in s.arenas && s.arenas[Page(s.free[d][0])].Small?
    requires s.arenas[Page(s.free[d][0])].freeCnt > 0
  {
    var b := s.free[d][0];
    var a := s.arenas[Page(b)];
    s.(free := s.free[d := s.free[d][1..]], arenas := s.arenas[Page(b) := a.(freeCnt := a.freeCnt - 1)], live := s.live[b := size])
  }

  function Malloc(s: Heap, size: nat, page: nat): (r: (Heap, nat))
    requires Inv(s) && Grant(s, page, PagesWanted(s, size))
  {
    if size == 0 then (s, NULL) else
    var d := Pick(size, 0);
    if d == DESCS then
      if page == NULL then (s, NULL)
      else (s.(arenas := s.arenas[page := Big(PagesFor(size))], live := s.live[page + HEADER := size]), page + HEADER)
    else if s.free[d] == [] then
      if page == NULL then (s, NULL)
      else
        BlocksThere(page, d);
        var g := Grown(s, d, page);
        (Popped(g, d, size), g.free[d][0])
    else
      FrontCounted(s, d);
      (Popped(s, d, size), s.free[d][0])
  }

  /** The block is on the free list again, and counted. */
  function Pushed(s: Heap, b: nat): Heap
    requires |s.free| == DESCS && Page(b) in s.arenas && s.arenas[Page(b)].Small? && s.arenas[Page(b)].d < DESCS
  {
    var a := s.arenas[Page(b)];
    s.(free := s.free[a.d := [b] + s.free[a.d]], arenas := s.arenas[Page(b) := a.(freeCnt := a.freeCnt + 1)], live := s.live - {b})
  }

  /** q without the blocks of the arena at a. */
  function Without(q: seq<nat>, a: nat): seq<nat> {
    if q == [] then [] else (if Page(q[0]) == a then [] else [q[0]]) + Without(q[1..], a)
  }

  /** The arena at a goes back to the page allocator. */
  function Released(s: Heap, a: nat): Heap
    requires |s.free| == DESCS && a in s.arenas && s.arenas[a].Small? && s.arenas[a].d < DESCS
  {
    var d := s.arenas[a].d;
    s.(free := s.free[d := Without(s.free[d], a)], arenas := s.arenas - {a})
  }

  function Free(s: Heap, b: nat): Heap
    requires Inv(s) && (b == NULL || b in s.live)
  {
    if b == NULL then s else
    assert LiveAt(s, b);
    var a := Page(b);
    if s.arenas[a].Big? then s.(arenas := s.arenas - {a}, live := s.live - {b})
    else
      var p := Pushed(s, b);
      if p.arenas[a].freeCnt >= PerArena(p.arenas[a].d) then Released(p, a) else p
  }

  /** block_size: the bytes there are in a block. */
  function Capacity(s: Heap, b: nat): int
    requires Page(b) in s.arenas
  {
    match s.arenas[Page(b)]
    case Small(d, _) => BlockSize(d)
    case Big(n) => PGSIZE * n - b % PGSIZE
  }

  // ---------------------------------------------------------------------
  // What every call keeps
  // ---------------------------------------------------------------------

  /** b is where a block of an arena of descriptor d can be. */
  predicate Aligned(b: nat, d: nat) {
    var o := b % PGSIZE;
    HEADER <= o && (o - HEADER) % BlockSize(d) == 0 && o + BlockSize(d) <= PGSIZE
  }

  predicate IsBlock(s: Heap, d: nat, b: nat) {
    Page(b) in s.arenas && s.arenas[Page(b)].Small? && s.arenas[Page(b)].d == d && Aligned(b, d)
  }

  predicate ArenaOk(s: Heap, a: nat)
    requires a in s.arenas
  {
    && a > 0 && a % PGSIZE == 0
    && (s.arenas[a].Small? ==> s.arenas[a].d < DESCS)
    && (s.arenas[a].Big? ==> s.arenas[a].pages >= 1 && a + HEADER in s.live)
  }

  /** The pages of two arenas do not overlap. */
  predicate Clear(s: Heap, a: nat, b: nat)
    requires a in s.arenas && b in s.arenas
  {
    a < b ==> a + Extent(s.arenas[a]) <= b
  }

  ghost predicate ArenasOk(s: Heap) {
    && (forall a {:trigger ArenaOk(s, a)} :: a in s.arenas ==> ArenaOk(s, a))
    && (forall a, b {:trigger Clear(s, a, b)} :: a in s.arenas && b in s.arenas ==> Clear(s, a, b))
  }

  ghost predicate FreeOk(s: Heap) {
    && |s.free| == DESCS
    && (forall d {:trigger s.free[d]} :: 0 <= d < DESCS ==> NoDup(s.free[d]))
    && (forall d, b {:trigger b in s.free[d]} :: 0 <= d < DESCS && b in s.free[d] ==> IsBlock(s, d, b))
  }

  /** The free blocks of the arena at a. */
  ghost function FreeIn(q: seq<nat>, a: nat): set<nat> {
    set b | b in q && Page(b) == a
  }

  /** The count in the header is the number of blocks on the free list. */
  ghost predicate CountAt(s: Heap, a: nat)
    requires |s.free| == DESCS && a in s.arenas
  {
    match s.arenas[a]
    case Small(d, n) => d < DESCS ==> n == |FreeIn(s.free[d], a)|
    case Big(_) => true
  }

  ghost predicate CountOk(s: Heap)
    requires |s.free| == DESCS
  {
    forall a {:trigger CountAt(s, a)} :: a in s.arenas ==> CountAt(s, a)
  }

  ghost predicate LiveAt(s: Heap, b: nat)
    requires |s.free| == DESCS && b in s.live
  {
    && Page(b) in s.arenas && s.live[b] > 0
    && match s.arenas[Page(b)]
       case Small(d, _) => d < DESCS && Aligned(b, d) && b !in s.free[d] && s.live[b] <= BlockSize(d)
       case Big(n) => b == Page(b) + HEADER && s.live[b] + HEADER <= n * PGSIZE
  }

  ghost predicate LiveOk(s: Heap)
    requires |s.free| == DESCS
  {
    forall b {:trigger LiveAt(s, b)} :: b in s.live ==> LiveAt(s, b)
  }

  /** Every block of every arena is either free or live. */
  ghost predicate Complete(s: Heap)
    requires |s.free| == DESCS
  {
    forall d, b {:trigger IsBlock(s, d, b)} :: 0 <= d < DESCS && IsBlock(s, d, b) ==> b in s.free[d] || b in s.live
  }

  /** No arena is entirely free. */
  ghost predicate Busy(s: Heap) {
    forall a {:trigger BusyAt(s, a)} :: a in s.arenas ==> BusyAt(s, a)
  }

  predicate BusyAt(s: Heap, a: nat)
    requires a in s.arenas
  {
    match s.arenas[a]
    case Small(d, n) => n < PerArena(d)
    case Big(_) => true
  }

  ghost predicate Core(s: Heap) {
    FreeOk(s) && ArenasOk(s) && CountOk(s) && LiveOk(s) && Complete(s)
  }

  ghost predicate Inv(s: Heap) {
    Core(s) && Busy(s)
  }

  ghost predicate Init(s: Heap) {
    s.free == [[], [], [], [], [], [], []] && s.arenas == map[] && s.live == map[]
  }

  // ---------------------------------------------------------------------
  // Facts the definitions above need
  // ---------------------------------------------------------------------

  lemma {:induction false} BlocksThere(page: nat, d: nat)
    requires d < DESCS && page % PGSIZE == 0
    ensures PerArena(d) >= 1 && Blocks(page, d, PerArena(d)) != []
    ensures Blocks(page, d, PerArena(d))[0] == page + HEADER && Page(page + HEADER) == page
  {
    SizeBound(d);
    FirstBlock(page, d, PerArena(d));
  }

  lemma {:induction false} FirstBlock(page: nat, d: nat, n: nat)
    requires n >= 1
    ensures Blocks(page, d, n)[0] == page + HEADER
  {
    if n > 1 { FirstBlock(page, d, n - 1); }
  }

  lemma {:induction false} SizeBound(d: nat)
    requires d < DESCS
    ensures BlockSize(d) <= 1024 && PerArena(d) >= 1
    ensures BlockSize(d) in {16, 32, 64, 128, 256, 512, 1024}
  {
    assert BlockSize(1) == 32 && BlockSize(2) == 64;
    assert BlockSize(3) == 128 && BlockSize(4) == 256;
    assert BlockSize(5) == 512 && BlockSize(6) == 1024;
  }

  /** A block on a free list is counted in its arena. */
  lemma FrontCounted(s: Heap, d: nat)
    requires Core(s) && d < DESCS && s.free[d] != []
    ensures var b := s.free[d][0];
      Page(b) in s.arenas && s.arenas[Page(b)].Small? && s.arenas[Page(b)].d == d && s.arenas[Page(b)].freeCnt > 0
  {
    var b := s.free[d][0];
    assert b in s.free[d] && IsBlock(s, d, b);
    assert b in FreeIn(s.free[d], Page(b)) && CountAt(s, Page(b));
    assert |FreeIn(s.free[d], Page(b))| > 0;
  }
}
