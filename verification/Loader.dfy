/** Loading a segment of an executable: `userprog/process.c`. */
module Loader {
  import opened Address
  import opened Sequences
  import opened Words
  import opened PageEntry
  import opened Pagedir
  import opened UserSpace

  /** The fields of a program header that matter here, 32 bits each. */
  datatype Phdr = Phdr(offset: nat, vaddr: nat, filesz: nat, memsz: nat, writable: bool)

  predicate IsHeader(h: Phdr) {
    h.offset < B32 && h.vaddr < B32 && h.filesz < B32 && h.memsz < B32
  }

  predicate IsUser(va: nat) { va < PHYS_BASE }

  predicate ValidateSegment(h: Phdr, fileLength: nat) {
    && And(h.offset, PGMASK) == And(h.vaddr, PGMASK)
    && h.offset <= fileLength
    && h.memsz >= h.filesz
    && h.memsz != 0
    && IsUser(h.vaddr)
    && IsUser(U32(h.vaddr + h.memsz))
    && U32(h.vaddr + h.memsz) >= h.vaddr
    && h.vaddr >= PGSIZE
  }

  /** What the tests amount to: the region lies between page 1 and the kernel, without
      wrapping around. */
  lemma ValidateIs(h: Phdr, fileLength: nat)
    requires IsHeader(h)
    ensures ValidateSegment(h, fileLength) <==> (
      && h.offset % PGSIZE == h.vaddr % PGSIZE && h.offset <= fileLength
      && 0 < h.memsz && h.filesz <= h.memsz
      && PGSIZE <= h.vaddr && h.vaddr + h.memsz < PHYS_BASE)
  {
    PageOffset(h.offset);
    PageOffset(h.vaddr);
    Wrapped(h.vaddr + h.memsz);
  }

  lemma Wrapped(x: nat)
    requires x < 2 * B32
    ensures U32(x) == if x < B32 then x else x - B32
  {
  }

  lemma {:induction false} PageOffset(x: nat)
    ensures And(x, PGMASK) == x % PGSIZE
  {
    Pow2Values();
    Pow2Sum(4, 8);
    MaskIsLow(x, 12);
    LowPartIs(x, 12);
  }

  /** ROUND_UP, in 32 bits. */
  function RoundUp(x: nat): nat {
    U32(U32(x + PGSIZE - 1) / PGSIZE * PGSIZE)
  }

  /** The arithmetic of load() for one segment; o is the segment's offset in its page. */
  function ReadBytes(h: Phdr, o: nat): nat {
    if h.filesz > 0 then U32(o + h.filesz) else 0
  }

  function ZeroBytes(h: Phdr, o: nat): nat {
    if h.filesz > 0 then U32(RoundUp(U32(o + h.memsz)) - ReadBytes(h, o)) else RoundUp(U32(o + h.memsz))
  }

  lemma RoundUpIs(x: nat)
    requires x + PGSIZE <= B32
    ensures RoundUp(x) % PGSIZE == 0 && x <= RoundUp(x) < x + PGSIZE
  {
    var y := x + PGSIZE - 1;
    Wrapped(y);
    var z := y / PGSIZE * PGSIZE;
    assert z <= y < z + PGSIZE;
    Wrapped(z);
  }

  /** For a segment that passes, nothing wraps: the two counts make whole pages that
      cover the segment and end below the kernel. */
  lemma SegmentArithmetic(h: Phdr, o: nat)
    requires o == h.vaddr % PGSIZE && h.filesz <= h.memsz && PGSIZE <= h.vaddr && h.vaddr + h.memsz < PHYS_BASE
    ensures ReadBytes(h, o) == if h.filesz > 0 then o + h.filesz else 0
    ensures ReadBytes(h, o) + ZeroBytes(h, o) == RoundUp(o + h.memsz)
    ensures (ReadBytes(h, o) + ZeroBytes(h, o)) % PGSIZE == 0
    ensures o + h.memsz <= ReadBytes(h, o) + ZeroBytes(h, o) < o + h.memsz + PGSIZE
    ensures PGSIZE <= h.vaddr - o && h.vaddr - o + ReadBytes(h, o) + ZeroBytes(h, o) <= PHYS_BASE
  {
    Wrapped(o + h.filesz);
    Wrapped(o + h.memsz);
    RoundUpIs(o + h.memsz);
    TotalBytes(h, o);
    Rounded(h.vaddr, o);
    EndsBelow(h.vaddr - o, o + h.memsz, ReadBytes(h, o) + ZeroBytes(h, o));
  }

  lemma EndsBelow(start: nat, n: nat, total: nat)
    requires start % PGSIZE == 0 && total % PGSIZE == 0 && total < n + PGSIZE && start + n < PHYS_BASE
    ensures start + total <= PHYS_BASE
  {
    PagesBelow(start, total);
  }

  lemma TotalBytes(h: Phdr, o: nat)
    requires o < PGSIZE && h.filesz <= h.memsz && o + h.memsz + PGSIZE <= B32
    requires U32(o + h.filesz) == o + h.filesz && U32(o + h.memsz) == o + h.memsz <= RoundUp(o + h.memsz) < B32
    ensures ReadBytes(h, o) + ZeroBytes(h, o) == RoundUp(o + h.memsz)
  {
    Wrapped(RoundUp(o + h.memsz) - ReadBytes(h, o));
  }

  /** Whole pages that start below the kernel and reach less than a page past an address
      below it end at the kernel at the latest. */
  lemma PagesBelow(start: nat, total: nat)
    requires start % PGSIZE == 0 && total % PGSIZE == 0 && start + total < PHYS_BASE + PGSIZE
    ensures start + total <= PHYS_BASE
  {
  }

  // ---------------------------------------------------------------------
  // Filling pages
  // ---------------------------------------------------------------------

  /** s' adds pages of [start, start + n) to s and changes none. */
  ghost predicate OnlyPages(s: Space, s': Space, start: nat, n: nat) {
    && (forall p :: p in s ==> p in s' && s'[p] == s[p])
    && (forall p :: p in s' && p !in s ==> start <= p < start + n && p % PGSIZE == 0)
  }

  /** The answers of the page allocator while a segment is loaded: for its k-th page, the
      frame, and the page table if one is asked for; null is a refusal. */
  datatype Supply = Supply(frames: seq<nat>, tables: seq<nat>)

  function Answer(s: seq<nat>, k: nat): nat { if k < |s| then s[k] else 0 }

  /** The answers from the k-th on are pages in no use, no page twice. */
  ghost predicate SupplyOk(a: Supply, m: Mem, f: Frames, k: nat) {
    && (forall j: nat {:trigger Answer(a.frames, j)} :: k <= j ==> Unused(m, f, Answer(a.frames, j)))
    && (forall j: nat {:trigger Answer(a.tables, j)} :: k <= j ==> Unused(m, f, Answer(a.tables, j)))
    && (forall i: nat, j: nat {:trigger Answer(a.frames, i), Answer(a.frames, j)} ::
          k <= i < j ==> Answer(a.frames, i) != Answer(a.frames, j) || Answer(a.frames, i) == 0)
    && (forall i: nat, j: nat {:trigger Answer(a.tables, i), Answer(a.tables, j)} ::
          k <= i < j ==> Answer(a.tables, i) != Answer(a.tables, j) || Answer(a.tables, i) == 0)
    && (forall i: nat, j: nat {:trigger Answer(a.frames, i), Answer(a.tables, j)} ::
          k <= i && k <= j ==> Answer(a.frames, i) != Answer(a.tables, j) || Answer(a.frames, i) == 0)
  }

  /** The slot of the directory for page k of a range. */
  function SlotFor(start: nat, k: nat): nat { PdNo(start + k * PGSIZE) }

  ghost predicate NoneIn(start: nat, k: nat, i: nat) {
    forall j: nat {:trigger SlotFor(start, j)} :: j < k ==> SlotFor(start, j) != i
  }

  /** Page k of the range is the first for which a table that m lacks is needed. */
  ghost predicate NeedsTable(m: Mem, pd: nat, start: nat, k: nat)
    requires IsTable(m, pd)
  {
    SlotFor(start, k) < ENTRIES && Empty(m, pd, SlotFor(start, k)) && NoneIn(start, k, SlotFor(start, k))
  }

  /** Memory for page k of the range can be had. */
  ghost predicate CanHave(m: Mem, pd: nat, start: nat, k: nat, a: Supply)
    requires IsTable(m, pd)
  {
    Answer(a.frames, k) != 0 && (NeedsTable(m, pd, start, k) ==> Answer(a.tables, k) != 0)
  }

  /** After k pages: what is left of the supply, and which slots have been filled since m0. */
  ghost predicate Supplied(m0: Mem, m: Mem, f: Frames, pd: nat, start: nat, k: nat, a: Supply) {
    && SupplyOk(a, m, f, k) && IsTable(m0, pd) && IsTable(m, pd)
    && (forall i: nat {:trigger Empty(m, pd, i)} :: i < ENTRIES ==> (Empty(m, pd, i) <==> Empty(m0, pd, i) && NoneIn(start, k, i)))
    && (forall j: nat {:trigger CanHave(m0, pd, start, j, a)} :: j < k ==> CanHave(m0, pd, start, j, a))
  }

  lemma {:induction false} SupplyNext(m: Mem, m': Mem, f: Frames, pd: nat, i: nat, k: nat, a: Supply, bytes: Bytes)
    requires SupplyOk(a, m, f, k) && OnlySlot(m, m', pd, i, Answer(a.tables, k)) && Answer(a.frames, k) != 0
    ensures SupplyOk(a, m', f[Answer(a.frames, k) := bytes], k + 1)
  {
    var f', table := f[Answer(a.frames, k) := bytes], Answer(a.tables, k);
    forall j: nat | k + 1 <= j ensures Unused(m', f', Answer(a.frames, j)) {
      assert Unused(m, f, Answer(a.frames, j));
    }
    forall j: nat | k + 1 <= j ensures Unused(m', f', Answer(a.tables, j)) {
      assert Unused(m, f, Answer(a.tables, j));
    }
  }

  lemma {:induction false} SuppliedNext(m0: Mem, m: Mem, m': Mem, f: Frames, pd: nat, start: nat, k: nat, a: Supply, bytes: Bytes)
    requires Supplied(m0, m, f, pd, start, k, a) && SlotFor(start, k) < ENTRIES && CanHave(m0, pd, start, k, a)
    requires OnlySlot(m, m', pd, SlotFor(start, k), Answer(a.tables, k)) && !Empty(m', pd, SlotFor(start, k))
    ensures Supplied(m0, m', f[Answer(a.frames, k) := bytes], pd, start, k + 1, a)
  {
    SupplyNext(m, m', f, pd, SlotFor(start, k), k, a, bytes);
    forall i: nat | i < ENTRIES ensures Empty(m', pd, i) <==> Empty(m0, pd, i) && NoneIn(start, k + 1, i) {
      assert NoneIn(start, k + 1, i) <==> NoneIn(start, k, i) && SlotFor(start, k) != i;
      if i != SlotFor(start, k) { assert Empty(m', pd, i) == Empty(m, pd, i); }
    }
  }

  /** The first k pages of the range have been added to s0, filled from the file. */
  ghost predicate Progress(s0: Space, s: Space, file: Bytes, ofs: nat, read: nat, start: nat, k: nat, writable: bool) {
    && OnlyPages(s0, s, start, k * PGSIZE) && Unmapped(s0, start, k * PGSIZE)
    && AllLoaded(s, file, ofs, read, start, k * PGSIZE, writable)
  }

  /** The bytes of page k of the range. */
  ghost predicate PageBytes(bytes: Bytes, file: Bytes, ofs: nat, read: nat, k: nat) {
    && |bytes| == PGSIZE
    && forall j :: 0 <= j < PGSIZE ==> bytes[j] == SourceByte(file, ofs, read, k * PGSIZE + j)
  }

  /** Byte i of a range: from the file, and zero from read on. */
  function SourceByte(file: Bytes, ofs: nat, read: nat, i: nat): int {
    if i < read then (if ofs + i < |file| then file[ofs + i] else -1) else 0
  }

  lemma ProgressMade(s0: Space, s: Space, file: Bytes, ofs: nat, read: nat, start: nat, k: nat, bytes: Bytes, writable: bool)
    requires start % PGSIZE == 0 && Progress(s0, s, file, ofs, read, start, k, writable) && PageBytes(bytes, file, ofs, read, k)
    requires start + k * PGSIZE !in s
    ensures Progress(s0, s[start + k * PGSIZE := Page(bytes, writable)], file, ofs, read, start, k + 1, writable)
  {
    NextPage(s0, s, start, k * PGSIZE);
    PageFilled(s, file, ofs, read, start, k * PGSIZE, bytes, writable);
    PageOnly(s0, s, start, k, Page(bytes, writable));
  }

  /** The page at which loading fails shows that the range cannot be loaded. */
  lemma Refused(s0: Space, s: Space, m0: Mem, pd: nat, file: Bytes, ofs: nat, start: nat, read: nat, total: nat, a: Supply, k: nat,
                writable: bool)
    requires IsTable(m0, pd) && start % PGSIZE == 0 && k * PGSIZE < total && Progress(s0, s, file, ofs, read, start, k, writable)
    requires start + k * PGSIZE in s || !CanHave(m0, pd, start, k, a)
    ensures !CanLoad(s0, m0, pd, |file|, ofs, start, read, total, a)
  {
    NextPage(s0, s, start, k * PGSIZE);
  }

  lemma Complete(s0: Space, s: Space, m0: Mem, m: Mem, f: Frames, pd: nat, file: Bytes, ofs: nat, start: nat, read: nat, a: Supply, k: nat,
                 writable: bool)
    requires Supplied(m0, m, f, pd, start, k, a) && Progress(s0, s, file, ofs, read, start, k, writable)
    requires read == 0 || ofs + read <= |file|
    ensures CanLoad(s0, m0, pd, |file|, ofs, start, read, k * PGSIZE, a)
  {
  }

  /** How many bytes of page k come from the file. */
  function FileBytes(read: nat, k: nat): nat {
    if k * PGSIZE + PGSIZE <= read then PGSIZE else if k * PGSIZE < read then read - k * PGSIZE else 0
  }

  /** What goes into page k. */
  method FillPage(file: Bytes, pos: nat, n: nat, ghost ofs: nat, ghost read: nat, ghost k: nat) returns (bytes: Bytes)
    requires n == FileBytes(read, k) && (n > 0 ==> pos == ofs + k * PGSIZE && pos + n <= |file|)
    ensures PageBytes(bytes, file, ofs, read, k)
  {
    bytes := (if n > 0 then file[pos..pos + n] else []) + Zeros(PGSIZE - n);
  }

  /** One page of the segment: a frame is got, filled and installed, or given back. */
  method LoadPage(space: AddressSpace, file: Bytes, pos: nat, n: nat, upage: nat, writable: bool, a: Supply, k: nat,
                  ghost m0: Mem, ghost ofs: nat, ghost read: nat, ghost start: nat)
    returns (ok: bool, ghost bytes: Bytes)
    requires space.Valid() && Supplied(m0, space.tables.m, space.frames, space.pd, start, k, a)
    requires upage == start + k * PGSIZE < PHYS_BASE && upage % PGSIZE == 0
    requires n == FileBytes(read, k) && (n > 0 ==> pos == ofs + k * PGSIZE)
    modifies space, space.tables
    ensures space.Valid()
    ensures ok <==> (n > 0 ==> pos + n <= |file|) && upage !in old(space.Pages()) && CanHave(m0, space.pd, start, k, a)
    ensures space.Pages() == if ok then old(space.Pages())[upage := Page(bytes, writable)] else old(space.Pages())
    ensures ok ==> PageBytes(bytes, file, ofs, read, k)
    ensures ok ==> Supplied(m0, space.tables.m, space.frames, space.pd, start, k + 1, a)
  {
    var kpage, table := Answer(a.frames, k), Answer(a.tables, k);
    bytes := [];
    if kpage == 0 || (n > 0 && pos + n > |file|) { return false, bytes; }
    var filled := FillPage(file, pos, n, ofs, read, k);
    bytes := filled;
    ghost var m, f := space.tables.m, space.frames;
    SlotNumbers(upage);
    TableWanted(m0, m, f, space.pd, start, k, a);
    ok := space.AddPage(upage, kpage, filled, writable, table);
    if ok { SuppliedNext(m0, m, space.tables.m, f, space.pd, start, k, a, bytes); }
  }

  lemma {:induction false} TableWanted(m0: Mem, m: Mem, f: Frames, pd: nat, start: nat, k: nat, a: Supply)
    requires Supplied(m0, m, f, pd, start, k, a) && SlotFor(start, k) < ENTRIES
    ensures Empty(m, pd, SlotFor(start, k)) <==> NeedsTable(m0, pd, start, k)
    ensures Unused(m, f, Answer(a.frames, k)) && Unused(m, f, Answer(a.tables, k))
    ensures Answer(a.frames, k) != 0 ==> Answer(a.frames, k) != Answer(a.tables, k)
  {
  }

  /** What a round of load_segment makes of the pages: it adds page k, or shows that the
      range cannot be loaded. */
  lemma Round(s0: Space, s: Space, s': Space, m0: Mem, pd: nat, file: Bytes, ofs: nat, start: nat, read: nat, total: nat,
              a: Supply, k: nat, n: nat, bytes: Bytes, writable: bool, ok: bool)
    requires IsTable(m0, pd) && start % PGSIZE == 0 && (k + 1) * PGSIZE <= total && n == FileBytes(read, k)
    requires Progress(s0, s, file, ofs, read, start, k, writable)
    requires ok <==> (n > 0 ==> ofs + k * PGSIZE + n <= |file|) && start + k * PGSIZE !in s && CanHave(m0, pd, start, k, a)
    requires s' == if ok then s[start + k * PGSIZE := Page(bytes, writable)] else s
    requires ok ==> PageBytes(bytes, file, ofs, read, k)
    ensures ok ==> Progress(s0, s', file, ofs, read, start, k + 1, writable)
    ensures !ok ==> !CanLoad(s0, m0, pd, |file|, ofs, start, read, total, a) && OnlyPages(s0, s', start, total)
  {
    if ok {
      ProgressMade(s0, s, file, ofs, read, start, k, bytes, writable);
    } else {
      OnlyFewer(s0, s, start, k * PGSIZE, total);
      if !(n > 0 && ofs + k * PGSIZE + n > |file|) {
        Refused(s0, s, m0, pd, file, ofs, start, read, total, a, k, writable);
      }
    }
  }

  /** One round of load_segment, for page k of a range of total bytes. */
  method LoadRound(space: AddressSpace, file: Bytes, pos: nat, n: nat, upage: nat, writable: bool, a: Supply, k: nat,
                   ghost m0: Mem, ghost s0: Space, ghost ofs: nat, ghost read: nat, ghost start: nat, ghost total: nat)
    returns (ok: bool)
    requires space.Valid() && Supplied(m0, space.tables.m, space.frames, space.pd, start, k, a)
    requires Progress(s0, space.Pages(), file, ofs, read, start, k, writable)
    requires start % PGSIZE == 0 && (k + 1) * PGSIZE <= total && start + total <= PHYS_BASE
    requires upage == start + k * PGSIZE && upage % PGSIZE == 0 && n == FileBytes(read, k) && (n > 0 ==> pos == ofs + k * PGSIZE)
    modifies space, space.tables
    ensures space.Valid()
    ensures ok ==> Supplied(m0, space.tables.m, space.frames, space.pd, start, k + 1, a)
    ensures ok ==> Progress(s0, space.Pages(), file, ofs, read, start, k + 1, writable) && (n > 0 ==> pos + n <= |file|)
    ensures !ok ==> !CanLoad(s0, m0, space.pd, |file|, ofs, start, read, total, a) && OnlyPages(s0, space.Pages(), start, total)
  {
    ghost var s, bytes := space.Pages(), [];
    ok, bytes := LoadPage(space, file, pos, n, upage, writable, a, k, m0, ofs, read, start);
    Round(s0, s, space.Pages(), m0, space.pd, file, ofs, start, read, total, a, k, n, bytes, writable, ok);
  }

  /** The variables of load_segment's loop before page k. */
  ghost predicate Counts(ofs: nat, upage: nat, read: nat, zero: nat, r: nat, z: nat, u: nat, pos: nat, k: nat) {
    && k * PGSIZE <= read + zero && u == upage + k * PGSIZE
    && r == (if k * PGSIZE < read then read - k * PGSIZE else 0) && z == read + zero - k * PGSIZE - r
    && pos == ofs + (read - r)
  }

  lemma CountsNext(ofs: nat, upage: nat, read: nat, zero: nat, r: nat, z: nat, u: nat, pos: nat, k: nat)
    requires Counts(ofs, upage, read, zero, r, z, u, pos, k) && r + z > 0 && (read + zero) % PGSIZE == 0
    ensures var n := if r < PGSIZE then r else PGSIZE;
      && n == FileBytes(read, k) && (n > 0 ==> pos == ofs + k * PGSIZE) && PGSIZE - n <= z && (k + 1) * PGSIZE <= read + zero
      && u % PGSIZE == upage % PGSIZE
      && Counts(ofs, upage, read, zero, r - n, z - (PGSIZE - n), u + PGSIZE, pos + n, k + 1)
  {
    WholePages(read + zero, k * PGSIZE);
  }

  lemma OnlyFewer(s0: Space, s: Space, start: nat, n: nat, total: nat)
    requires OnlyPages(s0, s, start, n) && n <= total
    ensures OnlyPages(s0, s, start, total)
  {
  }

  /** Before page k of load_segment's loop: the counts are right, and what has been loaded
      is. */
  ghost predicate Underway(space: AddressSpace, file: Bytes, ofs: nat, upage: nat, read: nat, zero: nat, writable: bool, a: Supply,
                           m0: Mem, s0: Space, r: nat, z: nat, u: nat, pos: nat, k: nat)
    reads space, space.tables
  {
    && Counts(ofs, upage, read, zero, r, z, u, pos, k) && (r < read ==> pos <= |file|)
    && space.Valid() && Supplied(m0, space.tables.m, space.frames, space.pd, upage, k, a)
    && Progress(s0, space.Pages(), file, ofs, read, upage, k, writable)
  }

  /** Its body. */
  method LoadNext(space: AddressSpace, file: Bytes, ghost ofs: nat, ghost upage: nat, ghost read: nat, ghost zero: nat,
                  writable: bool, a: Supply, ghost m0: Mem, ghost s0: Space, r: nat, z: nat, u: nat, pos: nat, k: nat)
    returns (ok: bool, r': nat, z': nat, u': nat, pos': nat)
    requires (read + zero) % PGSIZE == 0 && upage % PGSIZE == 0 && upage + read + zero <= PHYS_BASE && r + z > 0
    requires Underway(space, file, ofs, upage, read, zero, writable, a, m0, s0, r, z, u, pos, k)
    modifies space, space.tables
    ensures ok ==> Underway(space, file, ofs, upage, read, zero, writable, a, m0, s0, r', z', u', pos', k + 1) && r' + z' < r + z
    ensures space.Valid()
    ensures !ok ==> !CanLoad(s0, m0, space.pd, |file|, ofs, upage, read, read + zero, a)
    ensures !ok ==> OnlyPages(s0, space.Pages(), upage, read + zero)
  {
    CountsNext(ofs, upage, read, zero, r, z, u, pos, k);
    var n := if r < PGSIZE then r else PGSIZE;
    r', z', u', pos' := r - n, z - (PGSIZE - n), u + PGSIZE, pos + n;
    ok := LoadRound(space, file, pos, n, u, writable, a, k, m0, s0, ofs, read, upage, read + zero);
  }

  /** The loop of load_segment. */
  method LoadPages(space: AddressSpace, file: Bytes, ofs: nat, upage: nat, read: nat, zero: nat, writable: bool, a: Supply,
                   ghost m0: Mem, ghost s0: Space)
    returns (ok: bool, ghost k: nat)
    requires (read + zero) % PGSIZE == 0 && upage % PGSIZE == 0 && upage + read + zero <= PHYS_BASE
    requires Underway(space, file, ofs, upage, read, zero, writable, a, m0, s0, read, zero, upage, ofs, 0)
    modifies space, space.tables
    ensures space.Valid()
    ensures ok ==> k * PGSIZE == read + zero && Underway(space, file, ofs, upage, read, zero, writable, a, m0, s0, 0, 0, upage + read + zero, ofs + read, k)
    ensures !ok ==> !CanLoad(s0, m0, space.pd, |file|, ofs, upage, read, read + zero, a)
    ensures !ok ==> OnlyPages(s0, space.Pages(), upage, read + zero)
  {
    var r: nat, z: nat, u: nat, pos: nat, page: nat := read, zero, upage, ofs, 0;
    k := 0;
    while r > 0 || z > 0
      invariant k == page && Underway(space, file, ofs, upage, read, zero, writable, a, m0, s0, r, z, u, pos, page)
      decreases r + z
    {
      ok, r, z, u, pos := LoadNext(space, file, ofs, upage, read, zero, writable, a, m0, s0, r, z, u, pos, page);
      if !ok { return; }
      page := page + 1;
      k := page;
    }
    ok := true;
  }

  /** Fills whole pages from upage on with read bytes of the file and then zeros, if memory
      and the file suffice and nothing is in the way. */
  method LoadSegment(space: AddressSpace, file: Bytes, ofs: nat, upage: nat, read: nat, zero: nat, writable: bool, a: Supply)
    returns (ok: bool)
    requires (read + zero) % PGSIZE == 0 && upage % PGSIZE == 0 && ofs % PGSIZE == 0
    requires space.Valid() && upage + read + zero <= PHYS_BASE && SupplyOk(a, space.tables.m, space.frames, 0)
    modifies space, space.tables
    ensures space.Valid() && IsTable(old(space.tables.m), space.pd)
    ensures OnlyPages(old(space.Pages()), space.Pages(), upage, read + zero)
    ensures ok <==> CanLoad(old(space.Pages()), old(space.tables.m), space.pd, |file|, ofs, upage, read, read + zero, a)
    ensures ok ==> AllLoaded(space.Pages(), file, ofs, read, upage, read + zero, writable)
  {
    ghost var m0, s0 := space.tables.m, space.Pages();
    SuppliedFirst(space, upage, a);
    assert Underway(space, file, ofs, upage, read, zero, writable, a, m0, s0, read, zero, upage, ofs, 0);
    ghost var k;
    ok, k := LoadPages(space, file, ofs, upage, read, zero, writable, a, m0, s0);
    if ok {
      Complete(s0, space.Pages(), m0, space.tables.m, space.frames, space.pd, file, ofs, upage, read, a, k, writable);
    }
  }

  lemma {:induction false} SuppliedFirst(space: AddressSpace, start: nat, a: Supply)
    requires space.Valid() && SupplyOk(a, space.tables.m, space.frames, 0)
    ensures Supplied(space.tables.m, space.tables.m, space.frames, space.pd, start, 0, a)
  {
    assert DirOk(space.tables.m, space.tables.root, space.tables.dirs, space.pd);
  }

  lemma PageOnly(s0: Space, s: Space, start: nat, k: nat, page: Page)
    requires OnlyPages(s0, s, start, k * PGSIZE) && start + k * PGSIZE !in s && (start + k * PGSIZE) % PGSIZE == 0
    ensures OnlyPages(s0, s[start + k * PGSIZE := page], start, (k + 1) * PGSIZE)
  {
  }

  /** No page of [start, start + n) is mapped. */
  ghost predicate Unmapped(s: Space, start: nat, n: nat) {
    forall p :: p in s && p % PGSIZE == 0 ==> p < start || start + n <= p
  }

  /** Memory and the file suffice for total bytes from start on, and nothing is in the way. */
  ghost predicate CanLoad(s: Space, m: Mem, pd: nat, fileLength: nat, ofs: nat, start: nat, read: nat, total: nat, a: Supply)
    requires IsTable(m, pd)
  {
    && (forall k: nat {:trigger CanHave(m, pd, start, k, a)} :: k * PGSIZE < total ==> CanHave(m, pd, start, k, a))
    && (read == 0 || ofs + read <= fileLength)
    && Unmapped(s, start, total)
  }

  /** The page behind those added is free iff it was, and then one page more was. */
  lemma NextPage(before: Space, s: Space, start: nat, i: nat)
    requires start % PGSIZE == 0 && i % PGSIZE == 0 && OnlyPages(before, s, start, i) && Unmapped(before, start, i)
    ensures (start + i) % PGSIZE == 0
    ensures start + i in s <==> start + i in before
    ensures start + i !in s ==> Unmapped(before, start, i + PGSIZE)
  {
    if start + i !in s {
      forall p | p in before && p % PGSIZE == 0 ensures p < start || start + i + PGSIZE <= p {
        if start + i <= p { PagesApart(start + i, p); }
      }
    }
  }

  lemma PagesApart(a: nat, b: nat)
    requires a % PGSIZE == 0 && b % PGSIZE == 0 && a < b
    ensures a + PGSIZE <= b
  {
  }

  lemma WholePages(total: nat, i: nat)
    requires total % PGSIZE == 0 && i % PGSIZE == 0 && i < total
    ensures i + PGSIZE <= total
  {
  }

  ghost predicate AllLoaded(s: Space, file: Bytes, ofs: nat, read: nat, start: nat, n: nat, writable: bool) {
    forall k: nat {:trigger Loaded(s, file, ofs, read, start, k, writable)} :: k < n ==> Loaded(s, file, ofs, read, start, k, writable)
  }

  /** One more page. */
  lemma PageFilled(s: Space, file: Bytes, ofs: nat, read: nat, start: nat, i: nat, bytes: Bytes, writable: bool)
    requires start % PGSIZE == 0 && i % PGSIZE == 0 && start + i !in s && |bytes| == PGSIZE
    requires forall k :: 0 <= k < PGSIZE ==> bytes[k] == SourceByte(file, ofs, read, i + k)
    requires AllLoaded(s, file, ofs, read, start, i, writable)
    ensures AllLoaded(s[start + i := Page(bytes, writable)], file, ofs, read, start, i + PGSIZE, writable)
  {
    var s' := s[start + i := Page(bytes, writable)];
    forall k: nat | k < i + PGSIZE ensures Loaded(s', file, ofs, read, start, k, writable) {
      if k < i {
        assert Loaded(s, file, ofs, read, start, k, writable);
      } else {
        PageOf(start + i, k - i);
      }
    }
  }

  lemma PageOf(page: nat, k: nat)
    requires page % PGSIZE == 0 && k < PGSIZE
    ensures (page + k) % PGSIZE == k
  {
  }

  /** Byte k of the segment is in place. */
  ghost predicate Loaded(s: Space, file: Bytes, ofs: nat, read: nat, start: nat, k: nat, writable: bool) {
    var p := (start + k) - (start + k) % PGSIZE;
    && p in s && s[p].writable == writable
    && ByteAt(s, start + k) == SourceByte(file, ofs, read, k)
  }

  /** Loading a segment that passes the tests: on success its bytes are those of the file
      and then zeros, at the addresses it asked for, with the permission it asked for;
      whether or not it succeeds, only pages between page 1 and the kernel are touched. */
  method LoadPhdr(space: AddressSpace, h: Phdr, file: Bytes, a: Supply) returns (ok: bool)
    requires IsHeader(h) && space.Valid() && SupplyOk(a, space.tables.m, space.frames, 0)
    modifies space, space.tables
    ensures space.Valid() && IsTable(old(space.tables.m), space.pd)
    ensures !ValidateSegment(h, |file|) ==> space.Pages() == old(space.Pages())
    ensures ok <==> ValidateSegment(h, |file|) && SegmentFits(old(space.Pages()), old(space.tables.m), space.pd, h, |file|, a)
    ensures OnlyPages(old(space.Pages()), space.Pages(), PGSIZE, PHYS_BASE - PGSIZE)
    ensures ok ==> forall k: nat :: k < h.memsz ==> SegmentByte(space.Pages(), h, file, k)
  {
    SuppliedFirst(space, 0, a);
    if !ValidateSegment(h, |file|) { return false; }
    var o := And(h.vaddr, PGMASK);
    SegmentPlan(h, |file|, o);
    var filePage, memPage := h.offset - And(h.offset, PGMASK), h.vaddr - o;
    var read, zero := ReadBytes(h, o), ZeroBytes(h, o);
    PlanFits(space.Pages(), space.tables.m, space.pd, h, |file|, o, a);
    ok := LoadSegment(space, file, filePage, memPage, read, zero, h.writable, a);
    AmongUserPages(old(space.Pages()), space.Pages(), memPage, read + zero);
    if ok { SegmentBytes(space.Pages(), h, file, o); }
  }

  lemma AmongUserPages(before: Space, s: Space, start: nat, n: nat)
    requires OnlyPages(before, s, start, n) && PGSIZE <= start && start + n <= PHYS_BASE
    ensures OnlyPages(before, s, PGSIZE, PHYS_BASE - PGSIZE)
  {
  }

  lemma PlanFits(s: Space, m: Mem, pd: nat, h: Phdr, fileLength: nat, o: nat, a: Supply)
    requires IsTable(m, pd) && o == h.vaddr % PGSIZE && o <= h.offset && o <= h.vaddr
    requires ReadBytes(h, o) == if h.filesz > 0 then o + h.filesz else 0
    requires ReadBytes(h, o) + ZeroBytes(h, o) == RoundUp(o + h.memsz)
    ensures CanLoad(s, m, pd, fileLength, h.offset - o, h.vaddr - o, ReadBytes(h, o), ReadBytes(h, o) + ZeroBytes(h, o), a)
            <==> SegmentFits(s, m, pd, h, fileLength, a)
  {
  }

  /** The file holds the segment, its pages are free, and there is memory for them. */
  ghost predicate SegmentFits(s: Space, m: Mem, pd: nat, h: Phdr, fileLength: nat, a: Supply)
    requires IsTable(m, pd)
  {
    var o := h.vaddr % PGSIZE;
    var total := RoundUp(o + h.memsz);
    && (h.filesz == 0 || h.offset + h.filesz <= fileLength)
    && h.vaddr >= o && Unmapped(s, h.vaddr - o, total)
    && forall k: nat {:trigger CanHave(m, pd, h.vaddr - o, k, a)} :: k * PGSIZE < total ==> CanHave(m, pd, h.vaddr - o, k, a)
  }

  /** What load() hands to load_segment. */
  lemma {:induction false} SegmentPlan(h: Phdr, fileLength: nat, o: nat)
    requires IsHeader(h) && ValidateSegment(h, fileLength) && o == And(h.vaddr, PGMASK)
    ensures And(h.offset, PGMASK) == o == h.vaddr % PGSIZE && o <= h.offset && o <= h.vaddr && h.filesz <= h.memsz
    ensures (h.offset - o) % PGSIZE == 0 && (h.vaddr - o) % PGSIZE == 0 && (ReadBytes(h, o) + ZeroBytes(h, o)) % PGSIZE == 0
    ensures PGSIZE <= h.vaddr - o && h.vaddr - o + ReadBytes(h, o) + ZeroBytes(h, o) <= PHYS_BASE
    ensures ReadBytes(h, o) == if h.filesz > 0 then o + h.filesz else 0
    ensures o + h.memsz <= ReadBytes(h, o) + ZeroBytes(h, o) == RoundUp(o + h.memsz)
  {
    ValidateIs(h, fileLength);
    PageOffset(h.offset);
    PageOffset(h.vaddr);
    SegmentArithmetic(h, o);
    Rounded(h.offset, o);
    Rounded(h.vaddr, o);
  }

  lemma Rounded(x: nat, o: nat)
    requires o == x % PGSIZE
    ensures o <= x && (x - o) % PGSIZE == 0
  {
  }

  lemma SegmentBytes(s: Space, h: Phdr, file: Bytes, o: nat)
    requires o <= h.offset && o <= h.vaddr && h.filesz <= h.memsz
    requires ReadBytes(h, o) == if h.filesz > 0 then o + h.filesz else 0
    requires o + h.memsz <= ReadBytes(h, o) + ZeroBytes(h, o)
    requires ReadBytes(h, o) == 0 || h.offset - o + ReadBytes(h, o) <= |file|
    requires AllLoaded(s, file, h.offset - o, ReadBytes(h, o), h.vaddr - o, ReadBytes(h, o) + ZeroBytes(h, o), h.writable)
    ensures forall k: nat :: k < h.memsz ==> SegmentByte(s, h, file, k)
  {
    forall k: nat | k < h.memsz ensures SegmentByte(s, h, file, k) {
      assert Loaded(s, file, h.offset - o, ReadBytes(h, o), h.vaddr - o, o + k, h.writable);
      assert (h.vaddr - o) + (o + k) == h.vaddr + k && (h.offset - o) + (o + k) == h.offset + k;
    }
  }

  /** Byte k of the segment, as the executable defines it. */
  ghost predicate SegmentByte(s: Space, h: Phdr, file: Bytes, k: nat) {
    var p := (h.vaddr + k) - (h.vaddr + k) % PGSIZE;
    && p in s && s[p].writable == h.writable
    && if k < h.filesz then h.offset + k < |file| && ByteAt(s, h.vaddr + k) == file[h.offset + k]
       else ByteAt(s, h.vaddr + k) == 0
  }
}
