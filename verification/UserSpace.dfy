/** The user pages of a process: page tables and the frames they lead to. */
module UserSpace {
  import opened Address
  import opened Sequences
  import opened Words
  import opened PageEntry
  import opened Pagedir

  datatype Page = Page(bytes: Bytes, writable: bool)

  /** What a process sees: its pages, by user address. */
  type Space = map<nat, Page>

  /** The contents of the frames in use, by kernel address. */
  type Frames = map<nat, Bytes>

  function EntryOf(m: Mem, pd: nat, p: nat): nat {
    EntryAt(m, pd, PdNo(p), PtNo(p))
  }

  predicate Mapped(m: Mem, pd: nat, p: nat) {
    p % PGSIZE == 0 && Present(EntryOf(m, pd, p))
  }

  function PageAt(m: Mem, pd: nat, f: Frames, p: nat): Page {
    var e := EntryOf(m, pd, p);
    Page(if PteGetPage(e) in f then f[PteGetPage(e)] else [], Bit(e, 1))
  }

  /** The pages that directory pd maps, through its tables. */
  ghost function PagesOf(m: Mem, pd: nat, f: Frames): (s: Space)
    ensures forall p {:trigger p in s} :: p in s <==> 0 <= p < PHYS_BASE && Mapped(m, pd, p)
    ensures forall p {:trigger s[p]} :: p in s ==> s[p] == PageAt(m, pd, f, p)
  {
    map p: nat | p < PHYS_BASE && Mapped(m, pd, p) :: PageAt(m, pd, f, p)
  }

  /** Every page that is mapped has a frame, and frames are pages that are no tables. */
  ghost predicate FramesOk(m: Mem, pd: nat, f: Frames) {
    && (forall p: nat {:trigger Mapped(m, pd, p)} :: p < PHYS_BASE && Mapped(m, pd, p) ==> PteGetPage(EntryOf(m, pd, p)) in f)
    && (forall k {:trigger k in f} :: k in f ==> KernelPage(k) && k !in m)
  }

  /** What palloc_get_page may return: null, or a page that is in no use. */
  predicate Unused(m: Mem, f: Frames, page: nat) {
    page == 0 || (KernelPage(page) && page !in m && page !in f)
  }

  lemma EntrySame(m: Mem, m': Mem, dirs: set<nat>, pd: nat, upage: nat, p: nat)
    requires SameBut(m, m', dirs, pd, PdNo(upage), PtNo(upage)) && pd in dirs
    requires upage < PHYS_BASE && p < PHYS_BASE && upage % PGSIZE == 0 && p % PGSIZE == 0 && p != upage
    ensures EntryOf(m', pd, p) == EntryOf(m, pd, p)
  {
    SlotNumbers(p);
    PagesHaveEntries(p, upage);
  }

  /** One entry set is one page added. */
  lemma PageAdded(m: Mem, m': Mem, dirs: set<nat>, pd: nat, f: Frames, upage: nat, kpage: nat, writable: bool)
    requires SameBut(m, m', dirs, pd, PdNo(upage), PtNo(upage)) && pd in dirs
    requires upage < PHYS_BASE && upage % PGSIZE == 0 && KernelPage(kpage) && kpage in f
    requires EntryOf(m', pd, upage) == PteCreateUser(kpage, writable)
    ensures PagesOf(m', pd, f) == PagesOf(m, pd, f)[upage := Page(f[kpage], writable)]
  {
    PteRoundTrip(kpage, writable);
    assert Mapped(m', pd, upage) && PageAt(m', pd, f, upage) == Page(f[kpage], writable);
    forall p: nat | p < PHYS_BASE && p != upage
      ensures Mapped(m', pd, p) == Mapped(m, pd, p)
      ensures Mapped(m, pd, p) ==> PageAt(m', pd, f, p) == PageAt(m, pd, f, p)
    {
      if p % PGSIZE == 0 { EntrySame(m, m', dirs, pd, upage, p); }
    }
    OneMorePage(m, m', pd, f, upage, Page(f[kpage], writable));
  }

  lemma OneMorePage(m: Mem, m': Mem, pd: nat, f: Frames, upage: nat, page: Page)
    requires upage < PHYS_BASE && Mapped(m', pd, upage) && PageAt(m', pd, f, upage) == page
    requires forall p: nat {:trigger Mapped(m', pd, p)} :: p < PHYS_BASE && p != upage ==>
               Mapped(m', pd, p) == Mapped(m, pd, p) && (Mapped(m, pd, p) ==> PageAt(m', pd, f, p) == PageAt(m, pd, f, p))
    ensures PagesOf(m', pd, f) == PagesOf(m, pd, f)[upage := page]
  {
  }

  lemma PageAddedOk(m: Mem, m': Mem, dirs: set<nat>, pd: nat, f: Frames, upage: nat, kpage: nat, writable: bool, table: nat)
    requires SameBut(m, m', dirs, pd, PdNo(upage), PtNo(upage)) && pd in dirs
    requires upage < PHYS_BASE && upage % PGSIZE == 0 && KernelPage(kpage) && kpage in f
    requires EntryOf(m', pd, upage) == PteCreateUser(kpage, writable)
    requires FramesOk(m, pd, f) && OnlySlot(m, m', pd, PdNo(upage), table) && table !in f
    ensures FramesOk(m', pd, f)
  {
    PteRoundTrip(kpage, writable);
    forall p: nat | p < PHYS_BASE && Mapped(m', pd, p) ensures PteGetPage(EntryOf(m', pd, p)) in f {
      if p != upage {
        EntrySame(m, m', dirs, pd, upage, p);
        assert Mapped(m, pd, p);
      }
    }
  }

  /** A frame nobody maps can be filled unseen. */
  lemma FrameUnseen(m: Mem, pd: nat, f: Frames, kpage: nat, bytes: Bytes)
    requires FramesOk(m, pd, f) && KernelPage(kpage) && kpage !in f && kpage !in m
    ensures FramesOk(m, pd, f[kpage := bytes]) && PagesOf(m, pd, f[kpage := bytes]) == PagesOf(m, pd, f)
  {
    var s, s' := PagesOf(m, pd, f), PagesOf(m, pd, f[kpage := bytes]);
    forall p | p in s ensures s'[p] == s[p] { assert Mapped(m, pd, p); }
  }

  /** A byte read through the page tables. */
  function UserByte(m: Mem, pd: nat, f: Frames, va: nat): int {
    ReadFrame(f, Translate(m, pd, va))
  }

  /** The byte at kernel address a; -1 for null. */
  function ReadFrame(f: Frames, a: nat): int {
    var k := a - a % PGSIZE;
    if a != 0 && k in f && a % PGSIZE < |f[k]| then f[k][a % PGSIZE] else -1
  }

  /** The byte at a user address; -1 where nothing is mapped. */
  function ByteAt(s: Space, va: nat): int {
    var p := va - va % PGSIZE;
    if p in s && va % PGSIZE < |s[p].bytes| then s[p].bytes[va % PGSIZE] else -1
  }

  lemma PageBase(va: nat)
    requires va < PHYS_BASE
    ensures var p := va - va % PGSIZE; p % PGSIZE == 0 && p < PHYS_BASE && va / PGSIZE == p / PGSIZE
  {
  }

  lemma FrameOfEntry(e: nat, o: nat)
    requires o < PGSIZE && e < B32
    ensures var a := PteGetPage(e) + o; a > 0 && a % PGSIZE == o && a - a % PGSIZE == PteGetPage(e)
  {
    AddrBits(e);
    WholeFrame(e - e % PGSIZE, o);
  }

  lemma WholeFrame(a: nat, o: nat)
    requires o < PGSIZE && a % PGSIZE == 0
    ensures (a + PHYS_BASE + o) % PGSIZE == o
  {
  }

  /** The pages are what the process reads through its tables. */
  lemma ThroughTables(m: Mem, pd: nat, f: Frames, va: nat)
    requires va < PHYS_BASE && EntryOf(m, pd, va) < B32
    ensures ByteAt(PagesOf(m, pd, f), va) == UserByte(m, pd, f, va)
  {
    var s, p, e := PagesOf(m, pd, f), va - va % PGSIZE, EntryOf(m, pd, va);
    SameEntry(m, pd, va);
    assert p in s <==> Present(e) by { PageBase(va); }
    if Present(e) {
      assert s[p] == PageAt(m, pd, f, p);
      FrameOfEntry(e, va % PGSIZE);
    }
    SameByte(s, p, f, e, va);
  }

  lemma SameByte(s: Space, p: nat, f: Frames, e: nat, va: nat)
    requires p == va - va % PGSIZE && (p in s <==> Present(e)) && PteGetPage(e) + va % PGSIZE > 0
    requires Present(e) ==> s[p].bytes == if PteGetPage(e) in f then f[PteGetPage(e)] else []
    requires Present(e) ==> var a := PteGetPage(e) + va % PGSIZE; a % PGSIZE == va % PGSIZE && a - a % PGSIZE == PteGetPage(e)
    ensures ByteAt(s, va) == ReadFrame(f, if Present(e) then PteGetPage(e) + va % PGSIZE else 0)
  {
  }

  lemma SameEntry(m: Mem, pd: nat, va: nat)
    requires va < PHYS_BASE
    ensures var p := va - va % PGSIZE; p >= 0 && EntryOf(m, pd, p) == EntryOf(m, pd, va) && p % PGSIZE == 0
    ensures PgOfs(va) == va % PGSIZE
  {
    PageBase(va);
    PagesHaveEntries(va, va - va % PGSIZE);
    AddressFields(va);
  }

  class AddressSpace {
    const tables: PageMemory
    const pd: nat
    var frames: Frames

    ghost predicate Valid()
      reads this, tables
    {
      tables.Valid() && pd in tables.dirs && FramesOk(tables.m, pd, frames)
    }

    ghost function Pages(): Space
      reads this, tables
    {
      PagesOf(tables.m, pd, frames)
    }

    /** The address space of a directory that maps no user page, such as a new one. */
    constructor (tables: PageMemory, pd: nat)
      requires tables.Valid() && pd in tables.dirs
      requires forall k: nat, l: nat {:trigger EntryAt(tables.m, pd, k, l)} :: k < KERNEL ==> EntryAt(tables.m, pd, k, l) == 0
      ensures this.tables == tables && this.pd == pd && frames == map[]
      ensures Valid() && Pages() == map[]
    {
      this.tables, this.pd, frames := tables, pd, map[];
      new;
      forall p: nat | p < PHYS_BASE ensures !Mapped(tables.m, pd, p) {
        SlotNumbers(p);
        NotThere(0);
      }
    }

    /** install_page: adds the page kpage at upage, unless something is mapped there or a
        page table is wanting and none can be had. */
    method InstallPage(upage: nat, kpage: nat, writable: bool, table: nat) returns (ok: bool)
      requires Valid() && upage % PGSIZE == 0 && upage < PHYS_BASE && KernelPage(kpage) && kpage in frames
      requires Unused(tables.m, frames, table)
      modifies tables
      ensures Valid() && tables.dirs == old(tables.dirs)
      ensures IsTable(old(tables.m), pd) && PdNo(upage) < ENTRIES
      ensures ok <==> upage !in old(Pages()) && !(Empty(old(tables.m), pd, PdNo(upage)) && table == 0)
      ensures Pages() == if ok then old(Pages())[upage := Page(frames[kpage], writable)] else old(Pages())
      ensures !ok ==> tables.m == old(tables.m)
      ensures OnlySlot(old(tables.m), tables.m, pd, PdNo(upage), table) && (ok ==> !Empty(tables.m, pd, PdNo(upage)))
    {
      ghost var m := tables.m;
      SlotNumbers(upage);
      assert DirOk(m, tables.root, tables.dirs, pd);
      var there := tables.PagedirGetPage(pd, upage);
      if there != 0 { return false; }
      ok := tables.PagedirSetPage(pd, upage, kpage, writable, table);
      if ok {
        PageAdded(m, tables.m, tables.dirs, pd, frames, upage, kpage, writable);
        PageAddedOk(m, tables.m, tables.dirs, pd, frames, upage, kpage, writable, table);
      }
    }

    /** Fills the frame kpage and installs it, or gives it back. */
    method AddPage(upage: nat, kpage: nat, bytes: Bytes, writable: bool, table: nat) returns (ok: bool)
      requires Valid() && upage % PGSIZE == 0 && upage < PHYS_BASE
      requires kpage != 0 && Unused(tables.m, frames, kpage) && Unused(tables.m, frames, table) && table != kpage
      modifies this, tables
      ensures Valid() && IsTable(old(tables.m), pd) && PdNo(upage) < ENTRIES
      ensures ok <==> upage !in old(Pages()) && !(Empty(old(tables.m), pd, PdNo(upage)) && table == 0)
      ensures Pages() == if ok then old(Pages())[upage := Page(bytes, writable)] else old(Pages())
      ensures ok ==> frames == old(frames)[kpage := bytes]
      ensures OnlySlot(old(tables.m), tables.m, pd, PdNo(upage), table) && (ok ==> !Empty(tables.m, pd, PdNo(upage)))
    {
      FrameUnseen(tables.m, pd, frames, kpage, bytes);
      frames := frames[kpage := bytes];
      ok := InstallPage(upage, kpage, writable, table);
      if !ok {
        frames := frames - {kpage};
        assert frames == old(frames);
      }
    }
  }
}
