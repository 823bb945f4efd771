/**
 Machine words as natural numbers: their bits, the bitwise operations defined bit by
 bit, and masks.
 */
module Words {

  const B32: int := 0x1_0000_0000

  /** Conversion to an unsigned type of 32 bits. */
  function U32(x: int): nat { x % B32 }

  /** 1 << n, where it fits. */
  function Pow2(n: nat): (r: nat)
    ensures r >= 1
  {
    if n == 0 then 1 else 2 * Pow2(n - 1)
  }

  predicate Bit(w: nat, k: nat) {
    if k == 0 then w % 2 == 1 else Bit(w / 2, k - 1)
  }

  function Digit(b: bool): nat { if b then 1 else 0 }

  function Or(a: nat, b: nat): nat
    decreases a + b
  {
    if a == 0 then b else if b == 0 then a
    else Digit(a % 2 == 1 || b % 2 == 1) + 2 * Or(a / 2, b / 2)
  }

  function And(a: nat, b: nat): nat {
    if a == 0 || b == 0 then 0
    else Digit(a % 2 == 1 && b % 2 == 1) + 2 * And(a / 2, b / 2)
  }

  function Xor(a: nat, b: nat): nat
    decreases a + b
  {
    if a == 0 then b else if b == 0 then a
    else Digit((a % 2 == 1) != (b % 2 == 1)) + 2 * Xor(a / 2, b / 2)
  }

  function Not(a: nat): nat
    requires a < B32
  {
    0xFFFF_FFFF - a
  }

  // ---------------------------------------------------------------------
  // Bits of results
  // ---------------------------------------------------------------------

  lemma {:induction false} ZeroBit(k: nat)
    ensures !Bit(0, k)
  {
    if k > 0 { ZeroBit(k - 1); }
  }

  lemma {:induction false} OrBit(a: nat, b: nat, k: nat)
    ensures Bit(Or(a, b), k) == (Bit(a, k) || Bit(b, k))
  {
    ZeroBit(k);
    if a > 0 && b > 0 && k > 0 { OrBit(a / 2, b / 2, k - 1); }
  }

  lemma {:induction false} AndBit(a: nat, b: nat, k: nat)
    ensures Bit(And(a, b), k) == (Bit(a, k) && Bit(b, k))
  {
    ZeroBit(k);
    if a > 0 && b > 0 && k > 0 { AndBit(a / 2, b / 2, k - 1); }
  }

  lemma {:induction false} XorBit(a: nat, b: nat, k: nat)
    ensures Bit(Xor(a, b), k) == (Bit(a, k) != Bit(b, k))
  {
    ZeroBit(k);
    if a > 0 && b > 0 && k > 0 { XorBit(a / 2, b / 2, k - 1); }
  }

  lemma {:induction false} ComplementBit(a: nat, n: nat, k: nat)
    requires a < Pow2(n) && k < n
    ensures Bit(Pow2(n) - 1 - a, k) == !Bit(a, k)
  {
    var h := Pow2(n - 1);
    assert (2 * h - 1 - a) / 2 == h - 1 - a / 2;
    if k > 0 { ComplementBit(a / 2, n - 1, k - 1); }
  }

  lemma {:induction false} NotBit(a: nat, k: nat)
    requires a < B32 && k < 32
    ensures Bit(Not(a), k) == !Bit(a, k)
  {
    Pow2Values();
    ComplementBit(a, 32, k);
  }

  lemma {:induction false} Pow2Bit(n: nat, k: nat)
    ensures Bit(Pow2(n), k) <==> n == k
  {
    if n > 0 && k > 0 {
      Pow2Bit(n - 1, k - 1);
    } else if k > 0 {
      ZeroBit(k - 1);
    }
  }

  /** Setting, clearing and flipping bit a leaves every other bit alone. */
  lemma {:induction false} MaskedBit(w: nat, a: nat, b: nat)
    requires a < 32 && b < 32
    ensures Pow2(a) < B32
    ensures Bit(Or(w, Pow2(a)), b) == (a == b || Bit(w, b))
    ensures Bit(And(w, Not(Pow2(a))), b) == (a != b && Bit(w, b))
    ensures Bit(Xor(w, Pow2(a)), b) == ((a == b) != Bit(w, b))
  {
    WordPower(a);
    OrBit(w, Pow2(a), b);
    XorBit(w, Pow2(a), b);
    AndBit(w, Not(Pow2(a)), b);
    NotBit(Pow2(a), b);
    Pow2Bit(a, b);
  }

  lemma {:induction false} WordPower(a: nat)
    requires a < 32
    ensures Pow2(a) < B32
  {
    Pow2Values();
    Pow2Mono(a, 31);
  }

  lemma {:induction false} WordBounds(a: nat, b: nat, n: nat)
    requires a < Pow2(n) && b < Pow2(n)
    ensures And(a, b) < Pow2(n) && Or(a, b) < Pow2(n)
  {
    if n > 0 {
      AndStep(a, b);
      OrStep(a, b);
      WordBounds(a / 2, b / 2, n - 1);
    }
  }

  /** Testing bit k. */
  lemma {:induction false} TestIs(w: nat, k: nat)
    ensures And(w, Pow2(k)) == if Bit(w, k) then Pow2(k) else 0
  {
    if w == 0 {
      ZeroBit(k);
    } else if k > 0 {
      TestIs(w / 2, k - 1);
    } else {
      assert And(w / 2, 0) == 0;
    }
  }

  // ---------------------------------------------------------------------
  // Powers of two
  // ---------------------------------------------------------------------

  lemma {:induction false} Pow2Sum(m: nat, n: nat)
    ensures Pow2(m) * Pow2(n) == Pow2(m + n)
  {
    if m > 0 { Pow2Sum(m - 1, n); }
  }

  lemma {:induction false} Pow2Mono(m: nat, n: nat)
    requires m <= n
    ensures Pow2(m) <= Pow2(n)
  {
    if m < n { Pow2Mono(m, n - 1); }
  }

  lemma {:induction false} Pow2Values()
    ensures Pow2(1) == 2 && Pow2(2) == 4 && Pow2(4) == 16 && Pow2(8) == 256 && Pow2(16) == 0x1_0000
    ensures Pow2(31) == 0x8000_0000 && Pow2(32) == B32
  {
    Pow2Sum(1, 1);
    Pow2Sum(2, 2);
    Pow2Sum(4, 4);
    Pow2Sum(8, 8);
    Pow2Sum(16, 16);
  }

  // ---------------------------------------------------------------------
  // Masks
  // ---------------------------------------------------------------------

  /** The number that the lowest k bits make. */
  function LowPart(x: nat, k: nat): (r: nat)
    ensures r < Pow2(k) && r <= x
  {
    if k == 0 then 0 else x % 2 + 2 * LowPart(x / 2, k - 1)
  }

  lemma {:induction false} LowPartIs(x: nat, k: nat)
    ensures LowPart(x, k) == x % Pow2(k)
  {
    if k == 0 {
      ModOne(x);
    } else {
      LowPartIs(x / 2, k - 1);
      ModHalf(x, Pow2(k - 1));
    }
  }

  lemma ModOne(x: nat)
    ensures x % 1 == 0
  {
  }

  /** Halving both sides of a remainder. */
  lemma ModHalf(x: nat, m: nat)
    requires m > 0
    ensures x % (2 * m) == x % 2 + 2 * ((x / 2) % m)
  {
    var h := x / 2;
    var q, r := h / m, h % m;
    assert h == m * q + r;
    assert x == (2 * m) * q + (x % 2 + 2 * r) by { assert 2 * (m * q) == (2 * m) * q; }
    RemainderIs(x, 2 * m, q, x % 2 + 2 * r);
  }

  lemma RemainderIs(x: int, k: int, q: int, r: int)
    requires k > 0 && x == k * q + r && 0 <= r < k
    ensures x % k == r
  {
    var d := x / k - q;
    assert x == k * (x / k) + x % k;
    assert k * d == r - x % k by { assert k * (x / k) - k * q == k * d; }
    assert d >= 1 ==> k * d >= k;
    assert d <= -1 ==> k * d <= -k;
  }

  lemma {:induction false} LowPartAll(x: nat, k: nat)
    requires x < Pow2(k)
    ensures LowPart(x, k) == x
  {
    if k > 0 { LowPartAll(x / 2, k - 1); }
  }

  lemma {:induction false} LowPartZero(k: nat)
    ensures LowPart(0, k) == 0
  {
    if k > 0 { LowPartZero(k - 1); }
  }

  lemma {:induction false} AndStep(x: nat, y: nat)
    ensures And(x, y) == Digit(x % 2 == 1 && y % 2 == 1) + 2 * And(x / 2, y / 2)
  {
  }

  lemma {:induction false} OrStep(x: nat, y: nat)
    ensures Or(x, y) == Digit(x % 2 == 1 || y % 2 == 1) + 2 * Or(x / 2, y / 2)
  {
  }

  /** Masking with a power of two less one keeps the bits below it. */
  lemma {:induction false} MaskIsLow(x: nat, k: nat)
    ensures And(x, Pow2(k) - 1) == LowPart(x, k)
  {
    if k > 0 {
      var m := Pow2(k - 1);
      MaskIsLow(x / 2, k - 1);
      AndStep(x, 2 * m - 1);
      assert (2 * m - 1) / 2 == m - 1;
    }
  }

  /** Masking with 2^b - 2^a keeps bits a to b - 1. */
  lemma {:induction false} BitField(x: nat, a: nat, b: nat)
    requires a <= b
    ensures Pow2(a) <= Pow2(b) && And(x, Pow2(b) - Pow2(a)) == LowPart(x, b) - LowPart(x, a)
  {
    if a == 0 {
      MaskIsLow(x, b);
    } else {
      BitField(x / 2, a - 1, b - 1);
      FieldStep(x, a, b, Pow2(a - 1), Pow2(b - 1));
    }
  }

  lemma {:induction false} FieldStep(x: nat, a: nat, b: nat, p: nat, q: nat)
    requires 0 < a <= b && p == Pow2(a - 1) && q == Pow2(b - 1) && p <= q
    requires And(x / 2, q - p) == LowPart(x / 2, b - 1) - LowPart(x / 2, a - 1)
    ensures Pow2(a) <= Pow2(b) && And(x, Pow2(b) - Pow2(a)) == LowPart(x, b) - LowPart(x, a)
  {
    EvenMask(x, q - p);
    LowStep(x, a);
    LowStep(x, b);
    DoubleMask(x, Pow2(a), Pow2(b), p, q);
  }

  lemma DoubleMask(x: nat, a: nat, b: nat, p: nat, q: nat)
    requires a == 2 * p && b == 2 * q && p <= q
    ensures a <= b && And(x, b - a) == And(x, 2 * (q - p))
  {
    assert b - a == 2 * (q - p);
  }

  lemma {:induction false} LowStep(x: nat, k: nat)
    requires k > 0
    ensures LowPart(x, k) == x % 2 + 2 * LowPart(x / 2, k - 1) && Pow2(k) == 2 * Pow2(k - 1)
  {
  }

  lemma {:induction false} EvenMask(x: nat, m: nat)
    ensures And(x, 2 * m) == 2 * And(x / 2, m)
  {
    AndStep(x, 2 * m);
    assert 2 * m / 2 == m && 2 * m % 2 == 0;
  }

  /** Or below bit k does not touch the bits from k on. */
  lemma {:induction false} OrBelow(a: nat, g: nat, f: nat, k: nat)
    requires g < Pow2(k) && f < Pow2(k) && LowPart(a, k) == 0
    ensures Or(a + g, f) == a + Or(g, f)
  {
    if k > 0 {
      OrBelow(a / 2, g / 2, f / 2, k - 1);
      OrStep(a + g, f);
      OrStep(g, f);
      assert a % 2 == 0 && (a + g) / 2 == a / 2 + g / 2;
    }
  }

  /** The bits below k are those of the part below 2^k. */
  lemma {:induction false} LowBit(a: nat, g: nat, j: nat, k: nat)
    requires j < k && LowPart(a, k) == 0
    ensures Bit(a + g, j) == Bit(g, j)
  {
    if j > 0 {
      assert (a + g) / 2 == a / 2 + g / 2;
      LowBit(a / 2, g / 2, j - 1, k - 1);
    }
  }

  /** Or of numbers below eight. */
  function SmallOr(x: nat, y: nat): nat
    requires x < 8 && y < 8
  {
    Digit(x % 2 == 1 || y % 2 == 1) + 2 * Digit((x / 2) % 2 == 1 || (y / 2) % 2 == 1) + 4 * Digit(x / 4 == 1 || y / 4 == 1)
  }

  lemma {:induction false} OrSmall(x: nat, y: nat)
    requires x < 8 && y < 8
    ensures Or(x, y) == SmallOr(x, y)
  {
    var x1, y1 := x / 2, y / 2;
    OrStep(x, y);
    OrStep(x1, y1);
    OrStep(x1 / 2, y1 / 2);
  }

  lemma {:induction false} NoBit(x: nat, k: nat)
    requires x < Pow2(k)
    ensures !Bit(x, k)
  {
    if k > 0 { NoBit(x / 2, k - 1); }
  }

  lemma {:induction false} SmallBits(x: nat)
    requires x < 8
    ensures Bit(x, 0) == (x % 2 == 1) && Bit(x, 1) == ((x / 2) % 2 == 1)
  {
  }

  lemma {:induction false} NoSmallBit(x: nat, k: nat)
    requires x < 8 && k >= 3
    ensures !Bit(x, k)
  {
    Pow2Values();
    Pow2Mono(3, k);
    NoBit(x, k);
  }
}
