/** Addresses and page table entries: `threads/vaddr.h` and `threads/pte.h`. */
module PageEntry {
  import opened Address
  import opened Words

  const PTMASK: nat := 0x003F_F000
  const PTE_ADDR: nat := 0xFFFF_F000
  const PTE_P: nat := 0x1
  const PTE_W: nat := 0x2
  const PTE_U: nat := 0x4
  const PTE_A: nat := 0x20
  const PTE_D: nat := 0x40

  function PgOfs(va: nat): nat { And(va, PGMASK) }
  function PtNo(va: nat): nat { And(va, PTMASK) / PGSIZE }
  function PdNo(va: nat): nat { va / 0x40_0000 }

  function Ptov(paddr: nat): nat { paddr + PHYS_BASE }

  function Vtop(vaddr: nat): nat
    requires PHYS_BASE <= vaddr
  {
    vaddr - PHYS_BASE
  }

  function PdeCreate(pt: nat): nat
    requires PHYS_BASE <= pt
  {
    Or(Or(Or(Vtop(pt), PTE_U), PTE_P), PTE_W)
  }

  function PdeGetPt(pde: nat): nat { Ptov(And(pde, PTE_ADDR)) }

  function PteCreateKernel(page: nat, writable: bool): nat
    requires PHYS_BASE <= page
  {
    Or(Or(Vtop(page), PTE_P), if writable then PTE_W else 0)
  }

  function PteCreateUser(page: nat, writable: bool): nat
    requires PHYS_BASE <= page
  {
    Or(PteCreateKernel(page, writable), PTE_U)
  }

  function PteGetPage(pte: nat): nat { Ptov(And(pte, PTE_ADDR)) }

  predicate Present(e: nat) { And(e, PTE_P) != 0 }

  /** A page of kernel memory. */
  predicate KernelPage(a: nat) { PHYS_BASE <= a < B32 && a % PGSIZE == 0 }

  lemma {:induction false} Powers()
    ensures Pow2(0) == 1 && Pow2(1) == 2 && Pow2(2) == 4 && Pow2(5) == 0x20 && Pow2(6) == 0x40
    ensures Pow2(12) == PGSIZE && Pow2(22) == 0x40_0000 && Pow2(32) == B32
  {
    Pow2Values();
    Pow2Sum(4, 8);
    Pow2Sum(4, 2);
    Pow2Sum(4, 1);
    Pow2Sum(2, 4);
    Pow2Sum(16, 6);
  }

  /** The three fields of an address are its digits, and give it back. */
  lemma AddressFields(va: nat)
    requires va < B32
    ensures PgOfs(va) == va % PGSIZE && PtNo(va) == (va / PGSIZE) % 1024 && PdNo(va) < 1024
    ensures va == PdNo(va) * 0x40_0000 + PtNo(va) * PGSIZE + PgOfs(va)
  {
    Powers();
    BitField(va, 0, 12);
    BitField(va, 12, 22);
    LowPartIs(va, 12);
    LowPartIs(va, 22);
    Digits(va);
  }

  lemma {:induction false} Digits(va: nat)
    ensures (va % 0x40_0000 - va % PGSIZE) / PGSIZE == (va / PGSIZE) % 1024
    ensures va == (va / 0x40_0000) * 0x40_0000 + ((va / PGSIZE) % 1024) * PGSIZE + va % PGSIZE
  {
    var d, t, o := va / 0x40_0000, (va / PGSIZE) % 1024, va % PGSIZE;
    var p := va / PGSIZE;
    assert va == p * PGSIZE + o && p == (p / 1024) * 1024 + t;
    assert va == (p / 1024) * 0x40_0000 + t * PGSIZE + o;
  }

  lemma {:induction false} AddrBits(e: nat)
    requires e < B32
    ensures And(e, PTE_ADDR) == e - e % PGSIZE
  {
    Powers();
    BitField(e, 12, 32);
    LowPartAll(e, 32);
    LowPartIs(e, 12);
  }

  /** Flags are added below the address. */
  lemma {:induction false} Flag(a: nat, g: nat, f: nat)
    requires a < B32 && a % PGSIZE == 0 && g < 8 && f < 8
    ensures Or(a + g, f) == a + SmallOr(g, f)
  {
    Powers();
    LowPartIs(a, 12);
    OrBelow(a, g, f, 12);
    OrSmall(g, f);
  }

  /** Flags leave the address readable. */
  lemma {:induction false} AddrOf(a: nat, g: nat)
    requires a + PGSIZE <= B32 && a % PGSIZE == 0 && g < PGSIZE
    ensures And(a + g, PTE_ADDR) == a && a + g < B32
  {
    AddrBits(a + g);
    assert (a + g) % PGSIZE == g;
  }

  lemma PdeIs(pt: nat)
    requires KernelPage(pt)
    ensures PdeCreate(pt) == Vtop(pt) + 7
  {
    var a := Vtop(pt);
    Flag(a, 0, PTE_U);
    Flag(a, 4, PTE_P);
    Flag(a, 5, PTE_W);
  }

  /** An entry for a page table leads back to it. */
  lemma PdeRoundTrip(pt: nat)
    requires KernelPage(pt)
    ensures PdeCreate(pt) < B32 && PdeGetPt(PdeCreate(pt)) == pt && Present(PdeCreate(pt))
  {
    PdeIs(pt);
    PdeSum(pt, Vtop(pt) + 7);
  }

  lemma PdeSum(pt: nat, e: nat)
    requires KernelPage(pt) && e == Vtop(pt) + 7
    ensures e < B32 && PdeGetPt(e) == pt && Present(e)
  {
    AddrOf(Vtop(pt), 7);
    PresentBit(e);
    LowFlag(Vtop(pt), 7, 0);
    SmallBits(7);
  }

  lemma {:induction false} PresentBit(e: nat)
    ensures Present(e) <==> Bit(e, 0)
  {
    Powers();
    TestIs(e, 0);
  }

  lemma {:induction false} LowFlag(a: nat, g: nat, j: nat)
    requires a % PGSIZE == 0 && j < 12
    ensures Bit(a + g, j) == Bit(g, j)
  {
    Powers();
    LowPartIs(a, 12);
    LowBit(a, g, j, 12);
  }

  /** An entry for a user page holds the page, the permission asked for, and clear dirty
      and accessed bits. */
  lemma {:induction false} PteRoundTrip(page: nat, writable: bool)
    requires KernelPage(page)
    ensures var e := PteCreateUser(page, writable);
      && e < B32 && PteGetPage(e) == page && Present(e)
      && Bit(e, 0) && Bit(e, 1) == writable && Bit(e, 2) && !Bit(e, 5) && !Bit(e, 6)
  {
    PteIs(page, writable);
    PteSum(page, Vtop(page) + if writable then 7 else 5, writable);
  }

  lemma {:induction false} PteSum(page: nat, e: nat, writable: bool)
    requires KernelPage(page) && e == Vtop(page) + if writable then 7 else 5
    ensures e < B32 && PteGetPage(e) == page && Present(e)
    ensures Bit(e, 0) && Bit(e, 1) == writable && Bit(e, 2) && !Bit(e, 5) && !Bit(e, 6)
  {
    PteFlags(Vtop(page), if writable then 7 else 5, writable);
    AddrOf(Vtop(page), if writable then 7 else 5);
    PresentBit(e);
  }

  lemma {:induction false} PteFlags(a: nat, g: nat, writable: bool)
    requires a % PGSIZE == 0 && g == if writable then 7 else 5
    ensures var e := a + g; Bit(e, 0) && Bit(e, 1) == writable && Bit(e, 2) && !Bit(e, 5) && !Bit(e, 6)
  {
    LowFlag(a, g, 0);
    LowFlag(a, g, 1);
    LowFlag(a, g, 2);
    LowFlag(a, g, 5);
    LowFlag(a, g, 6);
    SmallBits(g);
    assert Bit(g, 2) == Bit(g / 2, 1) == Bit(g / 2 / 2, 0);
    NoSmallBit(g, 5);
    NoSmallBit(g, 6);
  }

  lemma PteIs(page: nat, writable: bool)
    requires KernelPage(page)
    ensures PteCreateUser(page, writable) == Vtop(page) + if writable then 7 else 5
  {
    var a := Vtop(page);
    Flag(a, 0, PTE_P);
    Flag(a, 1, if writable then PTE_W else 0);
    Flag(a, if writable then 3 else 1, PTE_U);
  }
}
