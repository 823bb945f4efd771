/**
 Page directories: `userprog/pagedir.c`.  Memory is a map from the kernel address of a
 page to the 1024 entries in it; a directory and its tables are such pages.
 */
module Pagedir {
  import opened Address
  import opened Sequences
  import opened Words
  import opened PageEntry

  const ENTRIES: nat := 1024

  /** pd_no (PHYS_BASE): the first slot of the kernel's half. */
  const KERNEL: nat := 768

  type Mem = map<nat, seq<nat>>

  ghost predicate IsTable(m: Mem, a: nat) {
    KernelPage(a) && a in m && |m[a]| == ENTRIES && forall j :: 0 <= j < ENTRIES ==> m[a][j] < B32
  }

  /** The table that slot i of a directory points to. */
  function Table(m: Mem, pd: nat, i: nat): nat
    requires pd in m && i < |m[pd]|
  {
    PdeGetPt(m[pd][i])
  }

  predicate Empty(m: Mem, pd: nat, i: nat)
    requires pd in m && i < |m[pd]|
  {
    m[pd][i] == 0
  }

  /** A slot is empty, or present and pointing to a table; root is init_page_dir. */
  ghost predicate SlotOk(m: Mem, root: nat, pd: nat, i: nat)
    requires pd in m && i < |m[pd]|
  {
    Empty(m, pd, i) || (Present(m[pd][i]) && IsTable(m, Table(m, pd, i)) && Table(m, pd, i) != pd && Table(m, pd, i) != root)
  }

  ghost predicate Apart(m: Mem, pd: nat, i: nat, qd: nat, j: nat)
    requires pd in m && i < |m[pd]| && qd in m && j < |m[qd]|
  {
    Empty(m, pd, i) || Empty(m, qd, j) || Table(m, pd, i) != Table(m, qd, j)
  }

  /** A directory: every slot is in order and no table is used twice. */
  ghost predicate PdOk(m: Mem, root: nat, pd: nat) {
    && IsTable(m, pd) && IsTable(m, root)
    && (forall i: nat {:trigger SlotOk(m, root, pd, i)} :: i < ENTRIES ==> SlotOk(m, root, pd, i))
    && (forall i: nat, j: nat {:trigger Apart(m, pd, i, pd, j)} :: i < j < ENTRIES ==> Apart(m, pd, i, pd, j))
  }

  /** The entry for page j of slot i; zero where there is no table. */
  function EntryAt(m: Mem, pd: nat, i: nat, j: nat): nat {
    if pd in m && i < |m[pd]| && !Empty(m, pd, i) && Table(m, pd, i) in m && j < |m[Table(m, pd, i)]|
    then m[Table(m, pd, i)][j] else 0
  }

  // ---------------------------------------------------------------------
  // The two kinds of write
  // ---------------------------------------------------------------------

  function EmptyTable(): (t: seq<nat>)
    ensures |t| == ENTRIES && forall j :: 0 <= j < ENTRIES ==> t[j] == 0
  {
    seq(ENTRIES, j => 0)
  }

  /** A new, empty table goes into slot i. */
  function WithTable(m: Mem, pd: nat, i: nat, page: nat): Mem
    requires pd in m && i < |m[pd]| && PHYS_BASE <= page
  {
    var dir: seq<nat> := m[pd][i := PdeCreate(page)];
    m[page := EmptyTable()][pd := dir]
  }

  /** Entry j of table pt becomes e. */
  function WithEntry(m: Mem, pt: nat, j: nat, e: nat): Mem
    requires pt in m && j < |m[pt]|
  {
    var table: seq<nat> := m[pt][j := e];
    m[pt := table]
  }

  /** A new table changes no entry. */
  lemma TableAdded(m: Mem, root: nat, pd: nat, i: nat, page: nat)
    requires PdOk(m, root, pd) && i < ENTRIES && Empty(m, pd, i) && KernelPage(page) && page !in m && pd != root
    ensures var m' := WithTable(m, pd, i, page);
      && PdOk(m', root, pd) && Table(m', pd, i) == page && !Empty(m', pd, i)
  {
    var m' := WithTable(m, pd, i, page);
    PdeRoundTrip(page);
    AddedSlots(m, root, pd, i, page);
    forall k: nat, l: nat | k < l < ENTRIES ensures Apart(m', pd, k, pd, l) {
      assert Apart(m, pd, k, pd, l) && SlotOk(m, root, pd, k) && SlotOk(m, root, pd, l);
    }
  }

  lemma AddedSlots(m: Mem, root: nat, pd: nat, i: nat, page: nat)
    requires PdOk(m, root, pd) && i < ENTRIES && Empty(m, pd, i) && KernelPage(page) && page !in m && pd != root
    requires PdeCreate(page) < B32 && PdeGetPt(PdeCreate(page)) == page && Present(PdeCreate(page))
    ensures var m' := WithTable(m, pd, i, page);
      IsTable(m', pd) && IsTable(m', root) && forall k: nat :: k < ENTRIES ==> SlotOk(m', root, pd, k)
  {
    var m' := WithTable(m, pd, i, page);
    forall k: nat | k < ENTRIES ensures SlotOk(m', root, pd, k) {
      assert SlotOk(m, root, pd, k);
    }
  }

  lemma TableAddedEntries(m: Mem, root: nat, pd: nat, i: nat, page: nat, k: nat, j: nat)
    requires PdOk(m, root, pd) && i < ENTRIES && Empty(m, pd, i) && KernelPage(page) && page !in m && pd != root
    requires k < ENTRIES && j < ENTRIES
    ensures var m' := WithTable(m, pd, i, page);
      && SlotOk(m, root, pd, k) && PdOk(m', root, pd) && SlotOk(m', root, pd, k)
      && EntryAt(m', pd, k, j) == EntryAt(m, pd, k, j)
  {
    TableAdded(m, root, pd, i, page);
    assert SlotOk(m, root, pd, k) && SlotOk(WithTable(m, pd, i, page), root, pd, k);
  }

  /** Writing an entry changes that entry of that slot and no other. */
  lemma EntryWritten(m: Mem, root: nat, pd: nat, i: nat, j: nat, e: nat)
    requires PdOk(m, root, pd) && i < ENTRIES && j < ENTRIES && !Empty(m, pd, i) && e < B32
    ensures SlotOk(m, root, pd, i)
    ensures PdOk(WithEntry(m, Table(m, pd, i), j, e), root, pd)
    ensures WithEntry(m, Table(m, pd, i), j, e)[pd] == m[pd]
  {
    assert SlotOk(m, root, pd, i);
    var m' := WithEntry(m, Table(m, pd, i), j, e);
    assert IsTable(m', Table(m, pd, i));
    forall k: nat | k < ENTRIES ensures SlotOk(m', root, pd, k) { assert SlotOk(m, root, pd, k); }
    forall k: nat, l: nat | k < l < ENTRIES ensures Apart(m', pd, k, pd, l) { assert Apart(m, pd, k, pd, l); }
  }

  lemma EntryWrittenAt(m: Mem, root: nat, pd: nat, i: nat, j: nat, e: nat, k: nat, l: nat)
    requires PdOk(m, root, pd) && i < ENTRIES && j < ENTRIES && !Empty(m, pd, i) && e < B32
    requires k < ENTRIES && l < ENTRIES
    ensures SlotOk(m, root, pd, i) && SlotOk(m, root, pd, k)
    ensures var m' := WithEntry(m, Table(m, pd, i), j, e);
      && PdOk(m', root, pd) && SlotOk(m', root, pd, k)
      && EntryAt(m', pd, k, l) == if k == i && l == j then e else EntryAt(m, pd, k, l)
  {
    EntryWritten(m, root, pd, i, j, e);
    assert SlotOk(m, root, pd, k) && SlotOk(WithEntry(m, Table(m, pd, i), j, e), root, pd, k);
    if k < i { assert Apart(m, pd, k, pd, i); } else if i < k { assert Apart(m, pd, i, pd, k); }
  }

  // ---------------------------------------------------------------------
  // Many directories
  // ---------------------------------------------------------------------

  ghost predicate NoDir(m: Mem, dirs: set<nat>, pd: nat, i: nat)
    requires pd in m && i < |m[pd]|
  {
    Empty(m, pd, i) || Table(m, pd, i) !in dirs
  }

  /** The kernel's half is that of init_page_dir, and no table is a directory. */
  ghost predicate DirOk(m: Mem, root: nat, dirs: set<nat>, pd: nat) {
    && PdOk(m, root, pd) && pd != root
    && (forall i: nat {:trigger m[pd][i]} :: KERNEL <= i < ENTRIES ==> m[pd][i] == m[root][i])
    && (forall i: nat {:trigger NoDir(m, dirs, pd, i)} :: i < ENTRIES ==> NoDir(m, dirs, pd, i))
  }

  /** Different directories have different user tables. */
  ghost predicate Isolated(m: Mem, pd: nat, qd: nat)
    requires IsTable(m, pd) && IsTable(m, qd)
  {
    forall i: nat, j: nat {:trigger Apart(m, pd, i, qd, j)} :: i < KERNEL && j < KERNEL ==> Apart(m, pd, i, qd, j)
  }

  ghost predicate Inv(m: Mem, root: nat, dirs: set<nat>) {
    && PdOk(m, root, root) && (forall i: nat {:trigger Empty(m, root, i)} :: i < KERNEL ==> Empty(m, root, i))
    && (forall i: nat {:trigger NoDir(m, dirs, root, i)} :: i < ENTRIES ==> NoDir(m, dirs, root, i))
    && (forall pd {:trigger DirOk(m, root, dirs, pd)} :: pd in dirs ==> DirOk(m, root, dirs, pd))
    && (forall pd, qd {:trigger Isolated(m, pd, qd)} :: pd in dirs && qd in dirs && pd != qd ==>
          IsTable(m, pd) && IsTable(m, qd) && Isolated(m, pd, qd))
  }

  /** A table of one directory is no user table of another. */
  lemma NotShared(m: Mem, root: nat, dirs: set<nat>, pd: nat, i: nat, qd: nat, k: nat)
    requires Inv(m, root, dirs) && pd in dirs && qd in dirs && pd != qd && i < ENTRIES && k < KERNEL
    requires IsTable(m, pd) && IsTable(m, qd)
    ensures Apart(m, pd, i, qd, k)
  {
    assert DirOk(m, root, dirs, pd) && DirOk(m, root, dirs, qd);
    if i < KERNEL {
      assert Isolated(m, pd, qd);
    } else {
      assert m[pd][i] == m[root][i] == m[qd][i];
      assert Apart(m, qd, k, qd, i);
    }
  }

  /** Writing an entry keeps all directories in order. */
  lemma EntryKeeps(m: Mem, root: nat, dirs: set<nat>, pd: nat, i: nat, j: nat, e: nat)
    requires Inv(m, root, dirs) && pd in dirs && IsTable(m, pd) && i < ENTRIES && j < ENTRIES && !Empty(m, pd, i) && e < B32
    ensures SlotOk(m, root, pd, i) && Inv(WithEntry(m, Table(m, pd, i), j, e), root, dirs)
  {
    assert DirOk(m, root, dirs, pd) && SlotOk(m, root, pd, i);
    var pt := Table(m, pd, i);
    var m' := WithEntry(m, pt, j, e);
    assert IsTable(m', pt) && NoDir(m, dirs, pd, i);
    EntryElsewhere(m, root, root, pt, j, e);
    forall qd | qd in dirs ensures DirOk(m', root, dirs, qd) {
      assert DirOk(m, root, dirs, qd);
      EntryElsewhere(m, root, qd, pt, j, e);
      forall k: nat | k < ENTRIES ensures NoDir(m', dirs, qd, k) { assert NoDir(m, dirs, qd, k); }
    }
    forall k: nat | k < KERNEL ensures Empty(m', root, k) { assert Empty(m, root, k); }
    forall k: nat | k < ENTRIES ensures NoDir(m', dirs, root, k) { assert NoDir(m, dirs, root, k); }
    forall pd, qd | pd in dirs && qd in dirs && pd != qd ensures IsTable(m', pd) && IsTable(m', qd) && Isolated(m', pd, qd) {
      assert DirOk(m', root, dirs, pd) && DirOk(m', root, dirs, qd) && Isolated(m, pd, qd);
      forall k: nat, l: nat | k < KERNEL && l < KERNEL ensures Apart(m', pd, k, qd, l) { assert Apart(m, pd, k, qd, l); }
    }
  }

  /** Writing to a page that is not the directory leaves the directory in order. */
  lemma EntryElsewhere(m: Mem, root: nat, qd: nat, pt: nat, j: nat, e: nat)
    requires PdOk(m, root, qd) && IsTable(m, pt) && pt != qd && pt != root && j < ENTRIES && e < B32
    ensures PdOk(WithEntry(m, pt, j, e), root, qd) && WithEntry(m, pt, j, e)[qd] == m[qd] && WithEntry(m, pt, j, e)[root] == m[root]
  {
    var m' := WithEntry(m, pt, j, e);
    assert IsTable(m', pt);
    forall k: nat | k < ENTRIES ensures SlotOk(m', root, qd, k) { assert SlotOk(m, root, qd, k); }
    forall k: nat, l: nat | k < l < ENTRIES ensures Apart(m', qd, k, qd, l) { assert Apart(m, qd, k, qd, l); }
  }

  /** Other directories keep their user entries. */
  lemma EntryOther(m: Mem, root: nat, dirs: set<nat>, pd: nat, i: nat, j: nat, e: nat, qd: nat, k: nat, l: nat)
    requires Inv(m, root, dirs) && pd in dirs && qd in dirs && pd != qd && IsTable(m, pd)
    requires i < ENTRIES && j < ENTRIES && !Empty(m, pd, i) && e < B32 && k < KERNEL && l < ENTRIES
    ensures SlotOk(m, root, pd, i) && IsTable(m, qd) && SlotOk(m, root, qd, k)
    ensures var m' := WithEntry(m, Table(m, pd, i), j, e);
      IsTable(m', qd) && SlotOk(m', root, qd, k) && EntryAt(m', qd, k, l) == EntryAt(m, qd, k, l)
  {
    EntryKeeps(m, root, dirs, pd, i, j, e);
    var m' := WithEntry(m, Table(m, pd, i), j, e);
    assert DirOk(m, root, dirs, qd) && DirOk(m', root, dirs, qd) && DirOk(m, root, dirs, pd);
    assert SlotOk(m, root, qd, k) && SlotOk(m', root, qd, k);
    NotShared(m, root, dirs, pd, i, qd, k);
    assert NoDir(m, dirs, pd, i);
  }

  /** A new user table keeps all directories in order, and their entries as they were. */
  lemma TableKeeps(m: Mem, root: nat, dirs: set<nat>, pd: nat, i: nat, page: nat)
    requires Inv(m, root, dirs) && pd in dirs && IsTable(m, pd) && i < KERNEL && Empty(m, pd, i) && KernelPage(page) && page !in m
    ensures Inv(WithTable(m, pd, i, page), root, dirs)
  {
    assert DirOk(m, root, dirs, pd);
    var m' := WithTable(m, pd, i, page);
    PdeRoundTrip(page);
    TableAdded(m, root, pd, i, page);
    OtherDir(m, dirs, root, pd);
    TableElsewhere(m, root, root, pd, i, page);
    forall qd | qd in dirs ensures DirOk(m', root, dirs, qd) {
      assert DirOk(m, root, dirs, qd);
      if qd != pd {
        OtherDir(m, dirs, qd, pd);
        TableElsewhere(m, root, qd, pd, i, page);
      }
      forall k: nat | k < ENTRIES ensures NoDir(m', dirs, qd, k) {
        assert NoDir(m, dirs, qd, k);
        assert page in dirs ==> DirOk(m, root, dirs, page);
      }
    }
    forall k: nat | k < KERNEL ensures Empty(m', root, k) { assert Empty(m, root, k); }
    forall k: nat | k < ENTRIES ensures NoDir(m', dirs, root, k) { assert NoDir(m, dirs, root, k); }
    TableIsolated(m, root, dirs, pd, i, page);
  }

  lemma OtherDir(m: Mem, dirs: set<nat>, qd: nat, pd: nat)
    requires IsTable(m, qd) && pd in dirs
    requires forall k: nat {:trigger NoDir(m, dirs, qd, k)} :: k < ENTRIES ==> NoDir(m, dirs, qd, k)
    ensures forall k: nat {:trigger NoDir(m, {pd}, qd, k)} :: k < ENTRIES ==> NoDir(m, {pd}, qd, k)
  {
    forall k: nat | k < ENTRIES ensures NoDir(m, {pd}, qd, k) { assert NoDir(m, dirs, qd, k); }
  }

  lemma TableElsewhere(m: Mem, root: nat, qd: nat, pd: nat, i: nat, page: nat)
    requires PdOk(m, root, qd) && IsTable(m, pd) && pd != qd && pd != root && i < ENTRIES && KernelPage(page) && page !in m
    requires PdeCreate(page) < B32 && forall k: nat {:trigger NoDir(m, {pd}, qd, k)} :: k < ENTRIES ==> NoDir(m, {pd}, qd, k)
    ensures PdOk(WithTable(m, pd, i, page), root, qd)
    ensures WithTable(m, pd, i, page)[qd] == m[qd] && WithTable(m, pd, i, page)[root] == m[root]
  {
    var m' := WithTable(m, pd, i, page);
    forall k: nat | k < ENTRIES ensures SlotOk(m', root, qd, k) { assert SlotOk(m, root, qd, k) && NoDir(m, {pd}, qd, k); }
    forall k: nat, l: nat | k < l < ENTRIES ensures Apart(m', qd, k, qd, l) { assert Apart(m, qd, k, qd, l); }
  }

  lemma TableIsolated(m: Mem, root: nat, dirs: set<nat>, pd: nat, i: nat, page: nat)
    requires Inv(m, root, dirs) && pd in dirs && IsTable(m, pd) && i < KERNEL && Empty(m, pd, i) && KernelPage(page) && page !in m
    requires PdeGetPt(PdeCreate(page)) == page
    requires forall qd :: qd in dirs ==> DirOk(WithTable(m, pd, i, page), root, dirs, qd)
    ensures var m' := WithTable(m, pd, i, page);
      forall p, q :: p in dirs && q in dirs && p != q ==> IsTable(m', p) && IsTable(m', q) && Isolated(m', p, q)
  {
    var m' := WithTable(m, pd, i, page);
    forall p, q | p in dirs && q in dirs && p != q ensures IsTable(m', p) && IsTable(m', q) && Isolated(m', p, q) {
      assert DirOk(m', root, dirs, p) && DirOk(m', root, dirs, q) && DirOk(m, root, dirs, p) && DirOk(m, root, dirs, q);
      assert Isolated(m, p, q);
      forall k: nat, l: nat | k < KERNEL && l < KERNEL ensures Apart(m', p, k, q, l) {
        assert Apart(m, p, k, q, l) && SlotOk(m, root, p, k) && SlotOk(m, root, q, l);
      }
    }
  }

  lemma TableOther(m: Mem, root: nat, dirs: set<nat>, pd: nat, i: nat, page: nat, qd: nat, k: nat, l: nat)
    requires Inv(m, root, dirs) && pd in dirs && qd in dirs && IsTable(m, pd)
    requires i < KERNEL && Empty(m, pd, i) && KernelPage(page) && page !in m && k < ENTRIES && l < ENTRIES
    ensures IsTable(m, qd) && SlotOk(m, root, qd, k)
    ensures var m' := WithTable(m, pd, i, page);
      IsTable(m', qd) && SlotOk(m', root, qd, k) && EntryAt(m', qd, k, l) == EntryAt(m, qd, k, l)
  {
    assert DirOk(m, root, dirs, pd) && DirOk(m, root, dirs, qd);
    TableKeeps(m, root, dirs, pd, i, page);
    var m' := WithTable(m, pd, i, page);
    assert DirOk(m', root, dirs, qd) && SlotOk(m, root, qd, k) && SlotOk(m', root, qd, k);
    if qd == pd {
      TableAddedEntries(m, root, pd, i, page, k, l);
    } else {
      assert NoDir(m, dirs, qd, k);
    }
  }

  /** A new directory: the kernel's half of init_page_dir and no user entries. */
  lemma CreateKeeps(m: Mem, root: nat, dirs: set<nat>, page: nat)
    requires Inv(m, root, dirs) && KernelPage(page) && page !in m
    ensures var m' := m[page := m[root]];
      && Inv(m', root, dirs + {page}) && page !in dirs
      && (forall i: nat :: i < KERNEL ==> Empty(m', page, i))
  {
    var m', dirs' := m[page := m[root]], dirs + {page};
    assert page in dirs ==> DirOk(m, root, dirs, page);
    CopyElsewhere(m, root, root, page);
    forall k: nat | k < ENTRIES ensures SlotOk(m', root, page, k) && NoDir(m', dirs', page, k) && NoDir(m', dirs', root, k) {
      assert SlotOk(m, root, root, k) && NoDir(m, dirs, root, k);
    }
    forall k: nat, l: nat | k < l < ENTRIES ensures Apart(m', page, k, page, l) { assert Apart(m, root, k, root, l); }
    forall k: nat | k < KERNEL ensures Empty(m', root, k) && Empty(m', page, k) && m[root][k] == 0 { assert Empty(m, root, k); }
    forall qd | qd in dirs' ensures DirOk(m', root, dirs', qd) {
      if qd != page {
        assert DirOk(m, root, dirs, qd);
        CopyElsewhere(m, root, qd, page);
        forall k: nat | k < ENTRIES ensures NoDir(m', dirs', qd, k) { assert NoDir(m, dirs, qd, k) && SlotOk(m, root, qd, k); }
      }
    }
    CreateIsolated(m, root, dirs, page);
  }

  lemma CopyElsewhere(m: Mem, root: nat, qd: nat, page: nat)
    requires PdOk(m, root, qd) && page !in m
    ensures PdOk(m[page := m[root]], root, qd)
  {
    var m' := m[page := m[root]];
    forall k: nat | k < ENTRIES ensures SlotOk(m', root, qd, k) { assert SlotOk(m, root, qd, k); }
    forall k: nat, l: nat | k < l < ENTRIES ensures Apart(m', qd, k, qd, l) { assert Apart(m, qd, k, qd, l); }
  }

  lemma CreateIsolated(m: Mem, root: nat, dirs: set<nat>, page: nat)
    requires Inv(m, root, dirs) && page !in m && page !in dirs
    requires forall i: nat :: i < KERNEL ==> m[root][i] == 0
    requires forall qd :: qd in dirs + {page} ==> DirOk(m[page := m[root]], root, dirs + {page}, qd)
    ensures var m' := m[page := m[root]];
      forall p, q :: p in dirs + {page} && q in dirs + {page} && p != q ==> IsTable(m', p) && IsTable(m', q) && Isolated(m', p, q)
  {
    var m' := m[page := m[root]];
    forall p, q | p in dirs + {page} && q in dirs + {page} && p != q ensures IsTable(m', p) && IsTable(m', q) && Isolated(m', p, q) {
      assert DirOk(m', root, dirs + {page}, p) && DirOk(m', root, dirs + {page}, q);
      if p != page && q != page {
        assert Isolated(m, p, q) && DirOk(m, root, dirs, p) && DirOk(m, root, dirs, q);
        forall k: nat, l: nat | k < KERNEL && l < KERNEL ensures Apart(m', p, k, q, l) { assert Apart(m, p, k, q, l); }
      }
    }
  }

  // ---------------------------------------------------------------------
  // The operations
  // ---------------------------------------------------------------------

  /** What the page allocator may hand out: null, or a page not in use. */
  predicate Grant(m: Mem, page: nat) {
    page == 0 || (KernelPage(page) && page !in m)
  }

  /** All user entries of all directories are the same, except page j of slot i of pd. */
  ghost predicate SameBut(m: Mem, m': Mem, dirs: set<nat>, pd: nat, i: nat, j: nat) {
    forall qd, k: nat, l: nat {:trigger EntryAt(m', qd, k, l)} ::
      qd in dirs && k < KERNEL && l < ENTRIES && !(qd == pd && k == i && l == j) ==> EntryAt(m', qd, k, l) == EntryAt(m, qd, k, l)
  }

  ghost predicate SameEntries(m: Mem, m': Mem, dirs: set<nat>) {
    forall qd, k: nat, l: nat {:trigger EntryAt(m', qd, k, l)} ::
      qd in dirs && k < KERNEL && l < ENTRIES ==> EntryAt(m', qd, k, l) == EntryAt(m, qd, k, l)
  }

  /** No page but `page` has become a table, and no slot of pd but i has been filled. */
  ghost predicate OnlySlot(m: Mem, m': Mem, pd: nat, i: nat, page: nat) {
    && (forall x {:trigger x in m'} :: x in m' ==> x in m || x == page)
    && IsTable(m, pd) && IsTable(m', pd)
    && forall k: nat {:trigger Empty(m', pd, k)} :: k < ENTRIES && k != i ==> Empty(m', pd, k) == Empty(m, pd, k)
  }

  lemma SameSlots(m: Mem, m1: Mem, m2: Mem, pd: nat, i: nat, page: nat)
    requires OnlySlot(m, m1, pd, i, page) && m2.Keys == m1.Keys && IsTable(m2, pd) && m2[pd] == m1[pd]
    ensures OnlySlot(m, m2, pd, i, page)
  {
    forall x | x in m2 ensures x in m || x == page { assert x in m1.Keys; }
    forall k: nat | k < ENTRIES && k != i ensures Empty(m2, pd, k) == Empty(m, pd, k) { assert Empty(m1, pd, k) == Empty(m, pd, k); }
  }

  /** Bit b of the entry has the value given and the others are as they were. */
  ghost predicate OnlyBit(e: nat, e': nat, b: nat, value: bool) {
    forall k: nat {:trigger Bit(e', k)} :: k < 32 ==> Bit(e', k) == if k == b then value else Bit(e, k)
  }

  lemma SlotNumbers(va: nat)
    requires va < B32
    ensures PdNo(va) < ENTRIES && PtNo(va) < ENTRIES && (va < PHYS_BASE <==> PdNo(va) < KERNEL)
  {
    AddressFields(va);
  }

  class PageMemory {
    var m: Mem
    const root: nat
    ghost var dirs: set<nat>

    ghost predicate Valid()
      reads this
    {
      Inv(m, root, dirs)
    }

    /** A new directory maps no user page; the others do not notice. */
    method PagedirCreate(page: nat) returns (pd: nat)
      requires Valid() && Grant(m, page)
      modifies this
      ensures Valid() && pd == page && SameEntries(old(m), m, old(dirs))
      ensures pd == 0 ==> m == old(m) && dirs == old(dirs)
      ensures pd != 0 ==> pd !in old(dirs) && dirs == old(dirs) + {pd} && forall k: nat, l: nat :: k < KERNEL ==> EntryAt(m, pd, k, l) == 0
    {
      pd := page;
      if pd != 0 {
        CreateKeeps(m, root, dirs, page);
        CreateOthers(m, root, dirs, page);
        m := m[pd := m[root]];
        dirs := dirs + {pd};
        forall k: nat, l: nat | k < KERNEL ensures EntryAt(m, pd, k, l) == 0 { assert Empty(m, pd, k); }
      }
    }

    /** The table that holds the entry for va; null if there is none and none can be
        had.  No entry changes. */
    method LookupPage(pd: nat, va: nat, create: bool, page: nat) returns (pt: nat)
      requires Valid() && pd in dirs && va < B32 && (create ==> va < PHYS_BASE && Grant(m, page))
      modifies this
      ensures Valid() && dirs == old(dirs) && SameEntries(old(m), m, dirs)
      ensures IsTable(old(m), pd) && PdNo(va) < ENTRIES
      ensures pt == 0 <==> Empty(old(m), pd, PdNo(va)) && (!create || page == 0)
      ensures pt == 0 || !create ==> m == old(m)
      ensures IsTable(m, pd)
      ensures pt != 0 ==> !Empty(m, pd, PdNo(va)) && pt == Table(m, pd, PdNo(va)) && IsTable(m, pt)
      ensures OnlySlot(old(m), m, pd, PdNo(va), page)
    {
      SlotNumbers(va);
      assert DirOk(m, root, dirs, pd);
      var i := PdNo(va);
      assert SlotOk(m, root, pd, i);
      if m[pd][i] == 0 {
        if !create || page == 0 { return 0; }
        TableKeeps(m, root, dirs, pd, i, page);
        TableOthers(m, root, dirs, pd, i, page);
        PdeRoundTrip(page);
        m := WithTable(m, pd, i, page);
        assert DirOk(m, root, dirs, pd) && SlotOk(m, root, pd, i);
      }
      pt := PdeGetPt(m[pd][i]);
    }

    /** Overwrites the entry for va. */
    method WriteEntry(pd: nat, pt: nat, va: nat, e: nat)
      requires Valid() && pd in dirs && va < B32 && e < B32 && IsTable(m, pd) && PdNo(va) < ENTRIES
      requires !Empty(m, pd, PdNo(va)) && pt == Table(m, pd, PdNo(va)) && IsTable(m, pt)
      modifies this
      ensures Valid() && dirs == old(dirs) && SameBut(old(m), m, dirs, pd, PdNo(va), PtNo(va))
      ensures EntryAt(m, pd, PdNo(va), PtNo(va)) == e
      ensures m.Keys == old(m).Keys && IsTable(m, pd) && m[pd] == old(m)[pd]
    {
      SlotNumbers(va);
      assert DirOk(m, root, dirs, pd);
      EntryKeeps(m, root, dirs, pd, PdNo(va), PtNo(va), e);
      EntryOthers(m, root, dirs, pd, PdNo(va), PtNo(va), e);
      m := WithEntry(m, pt, PtNo(va), e);
    }

    /** Maps a page that was not mapped, or fails for want of memory and changes nothing. */
    method PagedirSetPage(pd: nat, upage: nat, kpage: nat, writable: bool, page: nat) returns (ok: bool)
      requires Valid() && pd in dirs && Grant(m, page)
      requires upage % PGSIZE == 0 && upage < PHYS_BASE && KernelPage(kpage)
      requires !Present(EntryAt(m, pd, PdNo(upage), PtNo(upage)))
      modifies this
      ensures Valid() && dirs == old(dirs)
      ensures IsTable(old(m), pd) && PdNo(upage) < ENTRIES
      ensures ok <==> !(Empty(old(m), pd, PdNo(upage)) && page == 0)
      ensures !ok ==> m == old(m)
      ensures ok ==> EntryAt(m, pd, PdNo(upage), PtNo(upage)) == PteCreateUser(kpage, writable)
      ensures SameBut(old(m), m, dirs, pd, PdNo(upage), PtNo(upage))
      ensures OnlySlot(old(m), m, pd, PdNo(upage), page) && (ok ==> !Empty(m, pd, PdNo(upage)))
    {
      var pt := LookupPage(pd, upage, true, page);
      if pt == 0 { return false; }
      PteRoundTrip(kpage, writable);
      ghost var m1 := m;
      WriteEntry(pd, pt, upage, PteCreateUser(kpage, writable));
      SameSlots(old(m), m1, m, pd, PdNo(upage), page);
      return true;
    }

    /** The kernel address that va is mapped to, or null. */
    method PagedirGetPage(pd: nat, va: nat) returns (kaddr: nat)
      requires Valid() && pd in dirs && va < PHYS_BASE
      modifies this
      ensures m == old(m) && dirs == old(dirs) && kaddr == Translate(m, pd, va)
    {
      SlotNumbers(va);
      var pt := LookupPage(pd, va, false, 0);
      NotThere(0);
      if pt != 0 && And(m[pt][PtNo(va)], PTE_P) != 0 {
        return PteGetPage(m[pt][PtNo(va)]) + PgOfs(va);
      }
      return 0;
    }

    /** The page is no longer present; the other bits of its entry stay. */
    method PagedirClearPage(pd: nat, upage: nat)
      requires Valid() && pd in dirs && upage % PGSIZE == 0 && upage < PHYS_BASE
      modifies this
      ensures Valid() && dirs == old(dirs) && SameBut(old(m), m, dirs, pd, PdNo(upage), PtNo(upage))
      ensures OnlyBit(old(EntryAt(m, pd, PdNo(upage), PtNo(upage))), EntryAt(m, pd, PdNo(upage), PtNo(upage)), 0, false)
    {
      SlotNumbers(upage);
      var pt := LookupPage(pd, upage, false, 0);
      NotThere(0);
      ghost var e := EntryAt(m, pd, PdNo(upage), PtNo(upage));
      PresentBit(e);
      if pt != 0 && And(m[pt][PtNo(upage)], PTE_P) != 0 {
        ClearedBit(e, 0);
        WriteEntry(pd, pt, upage, And(m[pt][PtNo(upage)], Not(PTE_P)));
      }
    }

    method PagedirIsDirty(pd: nat, vpage: nat) returns (dirty: bool)
      requires Valid() && pd in dirs && vpage < B32
      modifies this
      ensures m == old(m) && dirs == old(dirs)
      ensures dirty <==> Bit(EntryAt(m, pd, PdNo(vpage), PtNo(vpage)), 6)
    {
      SlotNumbers(vpage);
      var pt := LookupPage(pd, vpage, false, 0);
      NotThere(6);
      Flags();
      if pt == 0 { return false; }
      TestIs(m[pt][PtNo(vpage)], 6);
      return And(m[pt][PtNo(vpage)], PTE_D) != 0;
    }

    /** Sets or clears the dirty bit of an entry that exists. */
    method PagedirSetDirty(pd: nat, vpage: nat, dirty: bool)
      requires Valid() && pd in dirs && vpage < B32
      modifies this
      ensures Valid() && dirs == old(dirs) && SameBut(old(m), m, dirs, pd, PdNo(vpage), PtNo(vpage))
      ensures IsTable(old(m), pd) && PdNo(vpage) < ENTRIES
      ensures if Empty(old(m), pd, PdNo(vpage)) then m == old(m)
              else OnlyBit(old(EntryAt(m, pd, PdNo(vpage), PtNo(vpage))), EntryAt(m, pd, PdNo(vpage), PtNo(vpage)), 6, dirty)
    {
      SetFlag(pd, vpage, 6, dirty);
    }

    method PagedirIsAccessed(pd: nat, vpage: nat) returns (accessed: bool)
      requires Valid() && pd in dirs && vpage < B32
      modifies this
      ensures m == old(m) && dirs == old(dirs)
      ensures accessed <==> Bit(EntryAt(m, pd, PdNo(vpage), PtNo(vpage)), 5)
    {
      SlotNumbers(vpage);
      var pt := LookupPage(pd, vpage, false, 0);
      NotThere(5);
      Flags();
      if pt == 0 { return false; }
      TestIs(m[pt][PtNo(vpage)], 5);
      return And(m[pt][PtNo(vpage)], PTE_A) != 0;
    }

    /** Sets or clears the accessed bit of an entry that exists. */
    method PagedirSetAccessed(pd: nat, vpage: nat, accessed: bool)
      requires Valid() && pd in dirs && vpage < B32
      modifies this
      ensures Valid() && dirs == old(dirs) && SameBut(old(m), m, dirs, pd, PdNo(vpage), PtNo(vpage))
      ensures IsTable(old(m), pd) && PdNo(vpage) < ENTRIES
      ensures if Empty(old(m), pd, PdNo(vpage)) then m == old(m)
              else OnlyBit(old(EntryAt(m, pd, PdNo(vpage), PtNo(vpage))), EntryAt(m, pd, PdNo(vpage), PtNo(vpage)), 5, accessed)
    {
      SetFlag(pd, vpage, 5, accessed);
    }

    /** What the two have in common. */
    method SetFlag(pd: nat, vpage: nat, b: nat, value: bool)
      requires Valid() && pd in dirs && vpage < B32 && b < 12
      modifies this
      ensures Valid() && dirs == old(dirs) && SameBut(old(m), m, dirs, pd, PdNo(vpage), PtNo(vpage))
      ensures IsTable(old(m), pd) && PdNo(vpage) < ENTRIES
      ensures if Empty(old(m), pd, PdNo(vpage)) then m == old(m)
              else OnlyBit(old(EntryAt(m, pd, PdNo(vpage), PtNo(vpage))), EntryAt(m, pd, PdNo(vpage), PtNo(vpage)), b, value)
    {
      SlotNumbers(vpage);
      var pt := LookupPage(pd, vpage, false, 0);
      if pt != 0 {
        var e := m[pt][PtNo(vpage)];
        WordPower(b);
        ClearedBit(e, b);
        WriteEntry(pd, pt, vpage, if value then Or(e, Pow2(b)) else And(e, Not(Pow2(b))));
      }
    }

    /** Frees a directory, its user tables and the frames mapped there, page by page. */
    method PagedirDestroy(pd: nat) returns (freed: seq<nat>)
      requires Valid() && (pd == 0 || (pd in dirs && MappedOnce(m, pd)))
      modifies this
      ensures Valid() && dirs == old(dirs) - {pd}
      ensures pd == 0 ==> freed == [] && m == old(m)
      ensures pd != 0 ==> IsTable(old(m), pd) && NoDup(freed)
      ensures pd != 0 ==> forall x :: x in freed <==> x == pd || IsFrame(old(m), pd, KERNEL, x) || IsUserTable(old(m), pd, KERNEL, x)
      ensures forall x :: x in m <==> x in old(m) && x !in freed
      ensures SameEntries(old(m), m, dirs)
    {
      freed := [];
      if pd == 0 {
        ZeroNotDir(m, root, dirs);
        return;
      }
      assert DirOk(m, root, dirs, pd);
      PresentSlots(m, root, pd);
      DestroyFreesOnce(m, root, pd);
      DestroyKeeps(m, root, dirs, pd);
      for i := 0 to KERNEL
        invariant m == old(m) && dirs == old(dirs) && freed == Freed(m, pd, i)
      {
        if And(m[pd][i], PTE_P) != 0 {
          var pt := PdeGetPt(m[pd][i]);
          assert pt == Table(m, pd, i);
          ghost var q := freed;
          for j := 0 to ENTRIES
            invariant m == old(m) && dirs == old(dirs) && freed == q + Frames(m[pt], j)
          {
            if And(m[pt][j], PTE_P) != 0 { freed := freed + [PteGetPage(m[pt][j])]; }
          }
          freed := freed + [pt];
        }
      }
      freed := freed + [pd];
      m := m - (set x | x in freed);
      dirs := dirs - {pd};
    }
  }

  lemma ZeroNotDir(m: Mem, root: nat, dirs: set<nat>)
    requires Inv(m, root, dirs)
    ensures 0 !in dirs && dirs - {0} == dirs
  {
    assert 0 in dirs ==> DirOk(m, root, dirs, 0);
  }

  /** The pages that one directory frees are none that another needs. */
  lemma StillThere(m: Mem, root: nat, dirs: set<nat>, pd: nat, qd: nat, k: nat)
    requires Inv(m, root, dirs) && pd in dirs && (qd in dirs || qd == root) && qd != pd && MappedOnce(m, pd) && k < ENTRIES
    ensures IsTable(m, qd) && IsTable(m, pd) && qd !in Gone(m, pd)
    ensures !Empty(m, qd, k) ==> Table(m, qd, k) !in Gone(m, pd)
  {
    assert DirOk(m, root, dirs, pd) && (qd in dirs ==> DirOk(m, root, dirs, qd));
    NotGone(m, root, dirs, pd, qd);
    if !Empty(m, qd, k) {
      assert SlotOk(m, root, qd, k) && NoDir(m, dirs, qd, k);
      forall i: nat | i < KERNEL ensures Empty(m, pd, i) || Table(m, pd, i) != Table(m, qd, k) {
        if k < KERNEL {
          assert qd != root by { assert k < KERNEL ==> Empty(m, root, k); }
          NotShared(m, root, dirs, pd, i, qd, k);
        } else {
          assert m[qd][k] == m[root][k] == m[pd][k];
          assert Apart(m, pd, i, pd, k);
        }
      }
    }
  }

  /** The pages that go: as a set, frames included. */
  ghost function Gone(m: Mem, pd: nat): iset<nat>
    requires IsTable(m, pd)
  {
    iset x: nat | x == pd || IsFrame(m, pd, KERNEL, x) || IsUserTable(m, pd, KERNEL, x)
  }

  lemma NotGone(m: Mem, root: nat, dirs: set<nat>, pd: nat, qd: nat)
    requires Inv(m, root, dirs) && pd in dirs && (qd in dirs || qd == root) && qd != pd && MappedOnce(m, pd)
    requires PdOk(m, root, pd) && IsTable(m, qd)
    ensures qd !in Gone(m, pd)
  {
    assert DirOk(m, root, dirs, pd);
    forall i: nat | i < KERNEL ensures Empty(m, pd, i) || Table(m, pd, i) != qd {
      assert SlotOk(m, root, pd, i) && NoDir(m, dirs, pd, i);
    }
  }

  ghost predicate Left(m: Mem, m': Mem, pd: nat)
    requires IsTable(m, pd)
  {
    (forall x :: x in m' <==> x in m && x !in Gone(m, pd)) && (forall x :: x in m' ==> m'[x] == m[x])
  }

  lemma LeftOk(m: Mem, m': Mem, root: nat, dirs: set<nat>, pd: nat, qd: nat)
    requires Inv(m, root, dirs) && pd in dirs && (qd in dirs || qd == root) && qd != pd && MappedOnce(m, pd)
    requires IsTable(m, pd) && Left(m, m', pd)
    ensures PdOk(m', root, qd) && m'[qd] == m[qd]
  {
    assert DirOk(m, root, dirs, pd) && (qd in dirs ==> DirOk(m, root, dirs, qd));
    StillThere(m, root, dirs, pd, qd, 0);
    StillThere(m, root, dirs, pd, root, 0);
    forall k: nat | k < ENTRIES ensures SlotOk(m', root, qd, k) {
      StillThere(m, root, dirs, pd, qd, k);
      assert SlotOk(m, root, qd, k);
    }
    forall k: nat, l: nat | k < l < ENTRIES ensures Apart(m', qd, k, qd, l) { assert Apart(m, qd, k, qd, l); }
  }

  lemma DestroyKeeps(m: Mem, root: nat, dirs: set<nat>, pd: nat)
    requires Inv(m, root, dirs) && pd in dirs && MappedOnce(m, pd)
    ensures IsTable(m, pd)
    ensures forall m' :: Left(m, m', pd) ==> Inv(m', root, dirs - {pd}) && SameEntries(m, m', dirs - {pd})
  {
    assert DirOk(m, root, dirs, pd);
    forall m' | Left(m, m', pd) ensures Inv(m', root, dirs - {pd}) && SameEntries(m, m', dirs - {pd}) {
      LeftKeeps(m, m', root, dirs, pd);
    }
  }

  lemma LeftKeeps(m: Mem, m': Mem, root: nat, dirs: set<nat>, pd: nat)
    requires Inv(m, root, dirs) && pd in dirs && MappedOnce(m, pd) && IsTable(m, pd) && Left(m, m', pd)
    ensures Inv(m', root, dirs - {pd}) && SameEntries(m, m', dirs - {pd})
  {
    var rest := dirs - {pd};
    assert DirOk(m, root, dirs, pd);
    LeftOk(m, m', root, dirs, pd, root);
    forall k: nat | k < KERNEL ensures Empty(m', root, k) { assert Empty(m, root, k); }
    forall k: nat | k < ENTRIES ensures NoDir(m', rest, root, k) { assert NoDir(m, dirs, root, k); }
    forall qd | qd in rest ensures DirOk(m', root, rest, qd) {
      assert DirOk(m, root, dirs, qd);
      LeftOk(m, m', root, dirs, pd, qd);
      forall k: nat | k < ENTRIES ensures NoDir(m', rest, qd, k) { assert NoDir(m, dirs, qd, k); }
    }
    forall p, q | p in rest && q in rest && p != q ensures IsTable(m', p) && IsTable(m', q) && Isolated(m', p, q) {
      assert DirOk(m', root, rest, p) && DirOk(m', root, rest, q) && Isolated(m, p, q);
      LeftOk(m, m', root, dirs, pd, p);
      LeftOk(m, m', root, dirs, pd, q);
      forall k: nat, l: nat | k < KERNEL && l < KERNEL ensures Apart(m', p, k, q, l) { assert Apart(m, p, k, q, l); }
    }
    forall qd, k: nat, l: nat | qd in rest && k < KERNEL && l < ENTRIES ensures EntryAt(m', qd, k, l) == EntryAt(m, qd, k, l) {
      LeftOk(m, m', root, dirs, pd, qd);
      StillThere(m, root, dirs, pd, qd, k);
      assert SlotOk(m', root, qd, k);
    }
  }

  lemma {:induction false} Flags()
    ensures Pow2(6) == PTE_D && Pow2(5) == PTE_A && Pow2(0) == PTE_P
  {
    Powers();
  }

  lemma {:induction false} NotThere(k: nat)
    ensures !Present(0) && !Bit(0, k)
  {
    ZeroBit(k);
  }

  /** Setting or clearing one bit of an entry. */
  lemma {:induction false} ClearedBit(e: nat, b: nat)
    requires b < 32 && e < B32
    ensures Pow2(b) < B32 && OnlyBit(e, And(e, Not(Pow2(b))), b, false) && OnlyBit(e, Or(e, Pow2(b)), b, true)
    ensures And(e, Not(Pow2(b))) < B32 && Or(e, Pow2(b)) < B32
  {
    WordPower(b);
    Pow2Values();
    WordBounds(e, Not(Pow2(b)), 32);
    WordBounds(e, Pow2(b), 32);
    forall k: nat | k < 32
      ensures Bit(And(e, Not(Pow2(b))), k) == (if k == b then false else Bit(e, k)) && Bit(Or(e, Pow2(b)), k) == (if k == b then true else Bit(e, k))
    {
      MaskedBit(e, b, k);
    }
  }

  function Translate(m: Mem, pd: nat, va: nat): nat {
    var e := EntryAt(m, pd, PdNo(va), PtNo(va));
    if Present(e) then PteGetPage(e) + PgOfs(va) else 0
  }

  lemma CreateOthers(m: Mem, root: nat, dirs: set<nat>, page: nat)
    requires Inv(m, root, dirs) && page !in m
    ensures SameEntries(m, m[page := m[root]], dirs)
  {
    forall qd, k: nat, l: nat | qd in dirs && k < KERNEL && l < ENTRIES ensures EntryAt(m[page := m[root]], qd, k, l) == EntryAt(m, qd, k, l) {
      assert DirOk(m, root, dirs, qd) && SlotOk(m, root, qd, k);
    }
  }

  lemma TableOthers(m: Mem, root: nat, dirs: set<nat>, pd: nat, i: nat, page: nat)
    requires Inv(m, root, dirs) && pd in dirs && IsTable(m, pd) && i < KERNEL && Empty(m, pd, i) && KernelPage(page) && page !in m
    ensures SameEntries(m, WithTable(m, pd, i, page), dirs)
  {
    forall qd, k: nat, l: nat | qd in dirs && k < KERNEL && l < ENTRIES
      ensures EntryAt(WithTable(m, pd, i, page), qd, k, l) == EntryAt(m, qd, k, l)
    {
      TableOther(m, root, dirs, pd, i, page, qd, k, l);
    }
  }

  lemma EntryOthers(m: Mem, root: nat, dirs: set<nat>, pd: nat, i: nat, j: nat, e: nat)
    requires Inv(m, root, dirs) && pd in dirs && IsTable(m, pd) && i < ENTRIES && j < ENTRIES && !Empty(m, pd, i) && e < B32
    ensures SlotOk(m, root, pd, i)
    ensures var m' := WithEntry(m, Table(m, pd, i), j, e);
      SameBut(m, m', dirs, pd, i, j) && EntryAt(m', pd, i, j) == e
  {
    assert DirOk(m, root, dirs, pd) && SlotOk(m, root, pd, i);
    var m' := WithEntry(m, Table(m, pd, i), j, e);
    EntryWrittenAt(m, root, pd, i, j, e, i, j);
    forall qd, k: nat, l: nat | qd in dirs && k < KERNEL && l < ENTRIES && !(qd == pd && k == i && l == j)
      ensures EntryAt(m', qd, k, l) == EntryAt(m, qd, k, l)
    {
      if qd == pd { EntryWrittenAt(m, root, pd, i, j, e, k, l); } else { EntryOther(m, root, dirs, pd, i, j, e, qd, k, l); }
    }
  }

  // ---------------------------------------------------------------------
  // The map that a directory stands for
  // ---------------------------------------------------------------------

  /** After a page has been set, every address in it translates to the frame. */
  lemma SetThenTranslate(m: Mem, pd: nat, upage: nat, kpage: nat, writable: bool, va: nat)
    requires upage % PGSIZE == 0 && upage < B32 && upage <= va < upage + PGSIZE && va < B32 && KernelPage(kpage)
    requires EntryAt(m, pd, PdNo(upage), PtNo(upage)) == PteCreateUser(kpage, writable)
    ensures Translate(m, pd, va) == kpage + (va - upage)
  {
    AddressFields(upage);
    AddressFields(va);
    SamePage(upage, va);
    PteRoundTrip(kpage, writable);
  }

  lemma SamePage(upage: nat, va: nat)
    requires upage % PGSIZE == 0 && upage <= va < upage + PGSIZE
    ensures va / PGSIZE == upage / PGSIZE && va % PGSIZE == va - upage && va / 0x40_0000 == upage / 0x40_0000
  {
  }

  /** Different pages have different entries, so that an operation on one page says
      nothing about another. */
  lemma PagesHaveEntries(va: nat, vb: nat)
    requires va < B32 && vb < B32
    ensures PdNo(va) == PdNo(vb) && PtNo(va) == PtNo(vb) <==> va / PGSIZE == vb / PGSIZE
  {
    AddressFields(va);
    AddressFields(vb);
    PageDigits(va);
    PageDigits(vb);
  }

  lemma PageDigits(va: nat)
    ensures va / PGSIZE == (va / 0x40_0000) * 1024 + (va / PGSIZE) % 1024
  {
  }

  // ---------------------------------------------------------------------
  // Destroying a directory
  // ---------------------------------------------------------------------

  /** The frames of the first n entries of a table that are present. */
  function Frames(t: seq<nat>, n: nat): seq<nat>
    requires n <= |t|
  {
    if n == 0 then [] else Frames(t, n - 1) + if Present(t[n - 1]) then [PteGetPage(t[n - 1])] else []
  }

  /** What pagedir_destroy frees for the first n slots: each table after its frames. */
  function Freed(m: Mem, pd: nat, n: nat): seq<nat>
    requires pd in m && n <= |m[pd]|
    requires forall i: nat {:trigger Table(m, pd, i)} :: i < n && Present(m[pd][i]) ==> Table(m, pd, i) in m
  {
    if n == 0 then [] else
    var q := Freed(m, pd, n - 1);
    var pt := Table(m, pd, n - 1);
    if Present(m[pd][n - 1]) then q + (Frames(m[pt], |m[pt]|) + [pt]) else q
  }

  /** x is the frame of a present page of one of the first n slots. */
  ghost predicate IsFrame(m: Mem, pd: nat, n: nat, x: nat) {
    exists i: nat, j: nat :: i < n && j < ENTRIES && Present(EntryAt(m, pd, i, j)) && x == PteGetPage(EntryAt(m, pd, i, j))
  }

  /** x is the table of one of the first n slots. */
  ghost predicate IsUserTable(m: Mem, pd: nat, n: nat, x: nat)
    requires pd in m && n <= |m[pd]|
  {
    exists i: nat :: i < n && !Empty(m, pd, i) && x == Table(m, pd, i)
  }

  /** No frame is mapped at two places, and none is a page of entries. */
  ghost predicate MappedOnce(m: Mem, pd: nat) {
    && (forall i: nat, j: nat, k: nat, l: nat {:trigger EntryAt(m, pd, i, j), EntryAt(m, pd, k, l)} ::
          i < KERNEL && k < KERNEL && j < ENTRIES && l < ENTRIES && (i != k || j != l)
          && Present(EntryAt(m, pd, i, j)) && Present(EntryAt(m, pd, k, l))
          ==> PteGetPage(EntryAt(m, pd, i, j)) != PteGetPage(EntryAt(m, pd, k, l)))
    && (forall i: nat, j: nat {:trigger EntryAt(m, pd, i, j)} ::
          i < KERNEL && j < ENTRIES && Present(EntryAt(m, pd, i, j)) ==> PteGetPage(EntryAt(m, pd, i, j)) !in m)
  }

  lemma PresentSlot(m: Mem, root: nat, pd: nat, i: nat)
    requires PdOk(m, root, pd) && i < ENTRIES
    ensures Present(m[pd][i]) <==> !Empty(m, pd, i)
    ensures Present(m[pd][i]) ==> IsTable(m, Table(m, pd, i))
  {
    assert SlotOk(m, root, pd, i);
    NotThere(0);
  }

  lemma PresentSlots(m: Mem, root: nat, pd: nat)
    requires PdOk(m, root, pd)
    ensures forall i: nat {:trigger Table(m, pd, i)} :: i < ENTRIES ==> Present(m[pd][i]) ==> IsTable(m, Table(m, pd, i))
    ensures forall i: nat {:trigger Empty(m, pd, i)} :: i < ENTRIES ==> Present(m[pd][i]) == !Empty(m, pd, i)
  {
    forall i: nat | i < ENTRIES
      ensures (Present(m[pd][i]) ==> IsTable(m, Table(m, pd, i))) && Present(m[pd][i]) == !Empty(m, pd, i)
    {
      PresentSlot(m, root, pd, i);
    }
  }

  /** x is the frame of one of the first n pages of slot i. */
  ghost predicate HasFrame(m: Mem, pd: nat, i: nat, n: nat, x: nat) {
    exists j: nat :: j < n && Present(EntryAt(m, pd, i, j)) && x == PteGetPage(EntryAt(m, pd, i, j))
  }

  lemma {:induction false} FramesAre(m: Mem, pd: nat, i: nat, n: nat)
    requires pd in m && i < |m[pd]| && !Empty(m, pd, i) && IsTable(m, Table(m, pd, i)) && n <= ENTRIES
    ensures forall x :: x in Frames(m[Table(m, pd, i)], n) <==> HasFrame(m, pd, i, n, x)
  {
    if n > 0 {
      FramesAre(m, pd, i, n - 1);
      assert EntryAt(m, pd, i, n - 1) == m[Table(m, pd, i)][n - 1];
    }
  }

  lemma {:induction false} FramesOnce(m: Mem, pd: nat, i: nat, n: nat)
    requires pd in m && i < |m[pd]| && i < KERNEL && !Empty(m, pd, i) && IsTable(m, Table(m, pd, i)) && n <= ENTRIES && MappedOnce(m, pd)
    ensures NoDup(Frames(m[Table(m, pd, i)], n))
  {
    if n > 0 {
      FramesOnce(m, pd, i, n - 1);
      FramesAre(m, pd, i, n - 1);
      var t, e := m[Table(m, pd, i)], EntryAt(m, pd, i, n - 1);
      if Present(e) { NoDupConcat(Frames(t, n - 1), [PteGetPage(e)]); }
    }
  }

  /** What is freed for the first n slots: their frames and tables and nothing else. */
  lemma {:induction false} FreedAre(m: Mem, root: nat, pd: nat, n: nat)
    requires PdOk(m, root, pd) && n <= KERNEL
    ensures forall i: nat {:trigger Table(m, pd, i)} :: i < n && Present(m[pd][i]) ==> Table(m, pd, i) in m
    ensures forall x :: x in Freed(m, pd, n) <==> IsFrame(m, pd, n, x) || IsUserTable(m, pd, n, x)
  {
    PresentSlots(m, root, pd);
    if n > 0 {
      FreedAre(m, root, pd, n - 1);
      PresentSlot(m, root, pd, n - 1);
      forall x ensures x in Freed(m, pd, n) <==> IsFrame(m, pd, n, x) || IsUserTable(m, pd, n, x) {
        if !Empty(m, pd, n - 1) {
          FramesAre(m, pd, n - 1, ENTRIES);
          FreedStep(m, pd, n - 1, x);
        } else {
          EmptyStep(m, pd, n - 1, x);
        }
      }
    }
  }

  lemma EmptyStep(m: Mem, pd: nat, k: nat, x: nat)
    requires pd in m && k < |m[pd]| && Empty(m, pd, k)
    ensures IsFrame(m, pd, k + 1, x) <==> IsFrame(m, pd, k, x)
    ensures IsUserTable(m, pd, k + 1, x) <==> IsUserTable(m, pd, k, x)
  {
    NotThere(0);
    forall j: nat ensures !Present(EntryAt(m, pd, k, j)) {}
  }

  lemma FreedStep(m: Mem, pd: nat, k: nat, x: nat)
    requires pd in m && k < |m[pd]| && !Empty(m, pd, k)
    ensures IsUserTable(m, pd, k + 1, x) <==> (IsUserTable(m, pd, k, x) || x == Table(m, pd, k))
    ensures IsFrame(m, pd, k + 1, x) <==> (IsFrame(m, pd, k, x) || HasFrame(m, pd, k, ENTRIES, x))
  {
  }

  /** Nothing is freed twice. */
  lemma {:induction false} FreedOnce(m: Mem, root: nat, pd: nat, n: nat)
    requires PdOk(m, root, pd) && n <= KERNEL && MappedOnce(m, pd)
    ensures forall i: nat {:trigger Table(m, pd, i)} :: i < n && Present(m[pd][i]) ==> Table(m, pd, i) in m
    ensures NoDup(Freed(m, pd, n)) && pd !in Freed(m, pd, n)
  {
    PresentSlots(m, root, pd);
    FreedAre(m, root, pd, n);
    DirNotFreed(m, root, pd, n);
    if n > 0 {
      FreedOnce(m, root, pd, n - 1);
      if !Empty(m, pd, n - 1) {
        var pt := Table(m, pd, n - 1);
        var f := Frames(m[pt], ENTRIES);
        FramesOnce(m, pd, n - 1, ENTRIES);
        SlotApart(m, root, pd, n - 1);
        NoDupConcat(f, [pt]);
        NoDupConcat(Freed(m, pd, n - 1), f + [pt]);
      }
    }
  }

  lemma DirNotFreed(m: Mem, root: nat, pd: nat, n: nat)
    requires PdOk(m, root, pd) && n <= KERNEL && MappedOnce(m, pd)
    ensures !IsFrame(m, pd, n, pd) && !IsUserTable(m, pd, n, pd)
  {
    forall i: nat | i < n ensures Empty(m, pd, i) || Table(m, pd, i) != pd { assert SlotOk(m, root, pd, i); }
  }

  /** The pages freed for slot k are new. */
  lemma {:induction false} SlotApart(m: Mem, root: nat, pd: nat, k: nat)
    requires PdOk(m, root, pd) && k < KERNEL && MappedOnce(m, pd) && !Empty(m, pd, k)
    requires IsTable(m, Table(m, pd, k))
    requires forall i: nat {:trigger Table(m, pd, i)} :: i < k && Present(m[pd][i]) ==> Table(m, pd, i) in m
    ensures Table(m, pd, k) !in Frames(m[Table(m, pd, k)], ENTRIES)
    ensures forall x :: x in Freed(m, pd, k) ==> x != Table(m, pd, k) && x !in Frames(m[Table(m, pd, k)], ENTRIES)
  {
    var pt := Table(m, pd, k);
    FramesAre(m, pd, k, ENTRIES);
    FreedAre(m, root, pd, k);
    forall x | IsUserTable(m, pd, k, x) ensures x != pt && x in m {
      var i: nat :| i < k && !Empty(m, pd, i) && x == Table(m, pd, i);
      assert Apart(m, pd, i, pd, k) && SlotOk(m, root, pd, i);
    }
    forall x | IsFrame(m, pd, k, x) ensures x !in m && x !in Frames(m[pt], ENTRIES) {}
  }

  /** pagedir_destroy frees the directory, each of its user tables and each present
      frame, and each of them once. */
  lemma {:induction false} DestroyFreesOnce(m: Mem, root: nat, pd: nat)
    requires PdOk(m, root, pd) && MappedOnce(m, pd)
    ensures forall i: nat {:trigger Table(m, pd, i)} :: i < KERNEL && Present(m[pd][i]) ==> Table(m, pd, i) in m
    ensures NoDup(Freed(m, pd, KERNEL) + [pd])
    ensures forall x :: x in Freed(m, pd, KERNEL) + [pd] <==> x == pd || IsFrame(m, pd, KERNEL, x) || IsUserTable(m, pd, KERNEL, x)
  {
    FreedOnce(m, root, pd, KERNEL);
    FreedAre(m, root, pd, KERNEL);
    NoDupConcat(Freed(m, pd, KERNEL), [pd]);
  }
}
