/**
 The 64-bit division routines of `lib/arithmetic.c`, built on an instruction that
 divides 64 bits by 32.  Numbers are integers; every place where the original could
 wrap or truncate says so with `U32`, `U64`, `I32` or `I64`.
 */
module Arithmetic {
  import opened Numbers
  import opened Words

  const B64: int := 0x1_0000_0000_0000_0000
  const B31: int := 0x8000_0000
  const B63: int := 0x8000_0000_0000_0000

  function U64(x: int): int { x % B64 }

  /** Conversion to a signed type of 32 or 64 bits. */
  function I32(x: int): int { if U32(x) < B31 then U32(x) else U32(x) - B32 }
  function I64(x: int): int { if U64(x) < B63 then U64(x) else U64(x) - B64 }

  /** C's signed division, which truncates toward zero. */
  function Quotient(n: int, d: int): int
    requires d != 0
  {
    if (n < 0) == (d < 0) then Abs(n) / Abs(d) else -(Abs(n) / Abs(d))
  }

  // ---------------------------------------------------------------------
  // The instruction and the normalisation
  // ---------------------------------------------------------------------

  /** The DIVL instruction, which traps unless the quotient fits in 32 bits. */
  method Divl(n: int, d: int) returns (q: int)
    requires 0 <= n < B64 && 0 < d < B32
    requires n / d < B32
    ensures q == n / d && 0 <= q < B32
  {
    QuotientOf(n, d);
    q := n / d;
    assert q >= 0 by { if q < 0 { MulLe(q + 1, 0, d); } }
  }

  /** How often a word must be doubled until its top bit is set. */
  function LeadingZeros(x: int): nat
    requires 0 < x
    decreases B31 - x
  {
    if x >= B31 then 0 else 1 + LeadingZeros(2 * x)
  }

  /** The number of leading zero bits of a nonzero word. */
  method Nlz(word: int) returns (n: nat)
    requires 0 < word < B32
    ensures n == LeadingZeros(word)
  {
    var x := word;
    n := 0;
    if x <= 0x0000_FFFF { Shift16(x); n := n + 16; x := U32(x * 0x1_0000); }
    assert 0x1_0000 <= x < B32 && n + LeadingZeros(x) == LeadingZeros(word);
    if x <= 0x00FF_FFFF { Shift8(x); n := n + 8; x := U32(x * 0x100); }
    assert 0x100_0000 <= x < B32 && n + LeadingZeros(x) == LeadingZeros(word);
    if x <= 0x0FFF_FFFF { Shift4(x); n := n + 4; x := U32(x * 0x10); }
    assert 0x1000_0000 <= x < B32 && n + LeadingZeros(x) == LeadingZeros(word);
    if x <= 0x3FFF_FFFF { Shift2(x); n := n + 2; x := U32(x * 4); }
    if x <= 0x7FFF_FFFF { n := n + 1; }
  }

  lemma {:induction false} Shift2(x: int)
    requires 0 < x <= 0x3FFF_FFFF
    ensures U32(x * 4) == x * 4 && LeadingZeros(x) == 2 + LeadingZeros(x * 4)
  {
  }

  lemma {:induction false} Shift4(x: int)
    requires 0 < x <= 0x0FFF_FFFF
    ensures U32(x * 0x10) == x * 0x10 && LeadingZeros(x) == 4 + LeadingZeros(x * 0x10)
  {
    Shift2(x);
    Shift2(x * 4);
  }

  lemma {:induction false} Shift8(x: int)
    requires 0 < x <= 0x00FF_FFFF
    ensures U32(x * 0x100) == x * 0x100 && LeadingZeros(x) == 8 + LeadingZeros(x * 0x100)
  {
    Shift4(x);
    Shift4(x * 0x10);
  }

  lemma {:induction false} Shift16(x: int)
    requires 0 < x <= 0x0000_FFFF
    ensures U32(x * 0x1_0000) == x * 0x1_0000 && LeadingZeros(x) == 16 + LeadingZeros(x * 0x1_0000)
  {
    Shift8(x);
    Shift8(x * 0x100);
  }

  /** A word with n leading zeros lies between two powers of two. */
  lemma {:induction false} LeadingZerosIs(x: int)
    requires 0 < x < B32
    ensures var n := LeadingZeros(x); n <= 31 && Pow2(31 - n) <= x < Pow2(32 - n)
    decreases B31 - x
  {
    if x >= B31 { Pow2Values(); } else { LeadingZerosIs(2 * x); }
  }

  // ---------------------------------------------------------------------
  // Unsigned division
  // ---------------------------------------------------------------------

  /** A divisor of 32 bits: two divisions, neither of which traps. */
  lemma SmallDivisor(n: int, d: int)
    requires 0 <= n < B64 && 0 < d < B32
    ensures var n1, n0 := n / B32, n % B32;
      && 0 <= B32 * (n1 % d) + n0 < B64
      && (B32 * (n1 % d) + n0) / d < B32
      && n / d == (B32 * (n1 % d) + n0) / d + B32 * (n1 / d)
      && 0 <= n / d < B64
  {
    var n1, n0 := n / B32, n % B32;
    var m := B32 * (n1 % d) + n0;
    var q := m / d;
    QuotientOf(m, d);
    assert m < B32 * d;
    MulLt(q, B32, d);
    var t := n1 / d;
    assert n1 == t * d + n1 % d;
    assert n == m + (B32 * t) * d by { assert B32 * (t * d) == (B32 * t) * d; }
    assert (q + B32 * t) * d == q * d + (B32 * t) * d;
    IsQuotient(n, d, q + B32 * t);
    QuotientMono(0, n, d);
    QuotientOf(n, d);
    if n / d >= B64 { MulLe(B64, n / d, d); MulLe(1, d, B64); }
  }

  /** The shifted divisor's high word is the divisor without its low bits. */
  lemma {:induction false} HighWord(d: int, s: nat)
    requires 0 < d < B64 && s <= 31 && Pow2(31 - s) <= d / B32 < Pow2(32 - s)
    ensures 0 <= d * Pow2(s) < B64
    ensures d * Pow2(s) / B32 == d / Pow2(32 - s)
    ensures B31 <= d / Pow2(32 - s) < B32
  {
    Pow2Values();
    Pow2Sum(s, 32 - s);
    Pow2Sum(s, 31 - s);
    NoOverflow(d, Pow2(s), Pow2(32 - s));
    Normalised(d, Pow2(s), Pow2(31 - s), Pow2(32 - s));
  }

  lemma NoOverflow(d: int, p: int, k: int)
    requires 0 < d && p * k == B32 && p > 0 && k > 0 && d / B32 < k
    ensures 0 <= d * p < B64
    ensures d * p / B32 == d / k
    ensures d < k * B32
  {
    QuotientOf(d, B32);
    MulLe(d / B32 + 1, k, B32);
    assert (k * B32) * p == (p * k) * B32;
    MulBelow(d, k * B32, p);
    DivDiv(d * p, p, k);
    IsQuotient(d * p, p, d);
  }

  lemma Normalised(d: int, p: int, h: int, k: int)
    requires 0 < d && p * h == B31 && p * k == B32 && k > 0 && d < k * B32 && h <= d / B32
    ensures B31 <= d / k < B32
  {
    QuotientOf(d, B32);
    MulLe(h, d / B32, B32);
    var e := d / k;
    QuotientOf(d, k);
    MulLt(e, B32, k);
    assert h * B32 == h * (p * k) == (p * h) * k;
    MulLt(B31, e + 1, k);
  }

  lemma MulBelow(a: int, b: int, c: int)
    requires 0 <= a < b && c > 0
    ensures 0 <= a * c < b * c
  {
  }

  /** A quotient by a smaller divisor is no smaller. */
  lemma QuotientUp(n: int, d: int, c: int, q: int, t: int)
    requires 0 < c <= d && 0 <= q && q * d <= n && n < (t + 1) * c
    ensures q <= t
  {
    if t < q { MulLe(t + 1, q, c); MulProducts(q, c, d); }
  }

  /** And larger by one at most, if the divisors differ little enough. */
  lemma QuotientNear(n: int, d: int, c: int, q: int, t: int)
    requires 0 < c && n < (q + 1) * d && (q + 1) * (d - c) <= c && t * c <= n
    ensures t <= q + 1
  {
    assert (q + 2) * c == (q + 1) * d - (q + 1) * (d - c) + c;
    if t > q + 1 { MulLe(q + 2, t, c); }
  }

  /** The quotient by a divisor c somewhat below d. */
  lemma EstimateBelow(n: int, d: int, k: int, c: int)
    requires 0 <= n < B64 && 2 <= k && 0 < c <= d < c + k && c >= B31 * k
    ensures n / d <= n / c <= n / d + 1
  {
    var q, t := n / d, n / c;
    QuotientOf(n, d);
    QuotientOf(n, c);
    QuotientMono(0, n, d);
    Excess(n, d, k, q, c);
    QuotientUp(n, d, c, q, t);
    QuotientNear(n, d, c, q, t);
  }

  /** Clearing the low bits of the divisor raises the quotient by one at most. */
  lemma Estimate(n: int, d: int, k: int)
    requires 0 <= n < B64 && 2 <= k <= B32 && d / k >= B31 && d > 0
    ensures (d / k) * k > 0
    ensures n / d <= n / ((d / k) * k) <= n / d + 1
  {
    QuotientOf(d, k);
    MulLe(B31, d / k, k);
    EstimateBelow(n, d, k, (d / k) * k);
  }

  lemma MulProducts(q: int, c: int, d: int)
    requires q >= 0 && c <= d
    ensures q * c <= q * d
  {
    MulLe(c, d, q);
  }

  /** What the cleared bits take away from the multiples of d up to n is at most one c. */
  lemma Excess(n: int, d: int, k: int, q: int, c: int)
    requires 0 <= n < B64 && 2 <= k && d > 0 && q * d <= n && q >= 0
    requires c <= d < c + k && c >= B31 * k
    ensures (q + 1) * (d - c) <= c
  {
    MulProducts(q, c, d);
    MulProducts(q, B31 * k, c);
    assert q * (B31 * k) < B64;
    assert q * (B31 * k) == (q * k) * B31;
    MulLt(q * k, 2 * B32, B31);
    MulProducts(q + 1, d - c, k - 1);
    if k == 2 {
      assert (q + 1) * (d - c) <= q + 1;
    } else {
      assert (q + 1) * (k - 1) == q * k + k - 1 - q;
      assert k >= 3;
    }
  }

  method Udiv64(n: int, d: int) returns (r: int)
    requires 0 <= n < B64 && 0 < d < B64
    ensures r == n / d && 0 <= r < B64
  {
    QuotientFits64(n, d);
    if d / B32 == 0 {
      r := DivideSmall(n, d);
    } else if n < d {
      IsQuotient(n, d, 0);
      r := 0;
    } else {
      r := DivideLarge(n, d);
    }
  }

  lemma QuotientFits64(n: int, d: int)
    requires 0 <= n < B64 && 0 < d < B64
    ensures 0 <= n / d < B64
  {
    QuotientMono(0, n, d);
    QuotientOf(n, d);
    MulLe(1, d, n / d);
  }

  method DivideSmall(n: int, d: int) returns (r: int)
    requires 0 <= n < B64 && 0 < d < B32
    ensures r == n / d
  {
    var n1, n0 := U32(n / B32), U32(n);
    assert n1 == n / B32;
    SmallDivisor(n, d);
    var m := B32 * (n1 % d) + n0;
    assert U64(m) == m;
    var q := Divl(U64(m), d);
    var t := n1 / d;
    QuotientMono(0, n1, d);
    assert U64(B32 * t) == B32 * t;
    r := U64(q + U64(B32 * t));
  }

  /** A divisor over 32 bits: its high word estimates the quotient, and one comparison
      corrects the estimate. */
  method DivideLarge(n: int, d: int) returns (r: int)
    requires B32 <= d <= n < B64
    ensures r == n / d
  {
    var d1 := d / B32;
    var s := Nlz(d1);
    Candidates(n, d, s);
    var e := U64(d * Pow2(s)) / B32;
    var t := Divl(n / 2, e);
    var q := t / Pow2(31 - s);
    Correct(n, d, q);
    r := if U64(n - U64((q - 1) * d)) < d then q - 1 else q;
  }

  /** The divide does not trap, and the estimate is the quotient or one more. */
  lemma {:induction false} Candidates(n: int, d: int, s: nat)
    requires B32 <= d <= n < B64 && s == LeadingZeros(d / B32)
    ensures s <= 31
    ensures var e := U64(d * Pow2(s)) / B32;
      0 < e < B32 && n / 2 / e < B32 && n / d <= n / 2 / e / Pow2(31 - s) <= n / d + 1
  {
    LeadingZerosIs(d / B32);
    HighWord(d, s);
    var e := d * Pow2(s) / B32;
    Fits(d * Pow2(s));
    Halved(n, e, s);
    KRange(s);
    Estimate(n, d, Pow2(32 - s));
  }

  lemma {:induction false} Fits(x: int)
    requires 0 <= x < B64
    ensures U64(x) == x
  {
  }

  lemma {:induction false} KRange(s: nat)
    requires s <= 31
    ensures 2 <= Pow2(32 - s) <= B32
  {
    Pow2Values();
    Pow2Mono(1, 32 - s);
    Pow2Mono(32 - s, 32);
  }

  /** The divide instruction does not trap. */
  lemma HalfFits(n: int, e: int)
    requires 0 <= n < B64 && B31 <= e
    ensures n / 2 / e < B32
  {
    QuotientOf(n / 2, e);
    MulLe(B31, e, B32);
    if n / 2 / e >= B32 { MulLe(B32, n / 2 / e, e); }
  }

  lemma ThreeDivisions(n: int, e: int, h: int)
    requires 0 <= n && 0 < e && 0 < h
    ensures e * (2 * h) > 0 && n / 2 / e / h == n / (e * (2 * h))
  {
    DivDiv(n, 2, e);
    DivDiv(n, 2 * e, h);
    assert (2 * e) * h == e * (2 * h);
  }

  /** Halving first, dividing by the high word and shifting is one division, and the
      instruction does not trap. */
  lemma {:induction false} Halved(n: int, e: int, s: nat)
    requires 0 <= n < B64 && B31 <= e < B32 && s <= 31
    ensures n / 2 / e < B32
    ensures e * Pow2(32 - s) > 0 && n / 2 / e / Pow2(31 - s) == n / (e * Pow2(32 - s))
  {
    HalfFits(n, e);
    ThreeDivisions(n, e, Pow2(31 - s));
  }

  /** The comparison tells which of the two candidates is the quotient; nothing in it wraps. */
  lemma {:induction false} Correct(n: int, d: int, q: int)
    requires 0 < d <= n < B64 && n / d <= q <= n / d + 1
    ensures 0 <= (q - 1) * d <= n
    ensures (if U64(n - U64((q - 1) * d)) < d then q - 1 else q) == n / d
  {
    Compare(n, d, q);
    Fits((q - 1) * d);
    Fits(n - (q - 1) * d);
  }

  lemma Compare(n: int, d: int, q: int)
    requires 0 < d <= n < B64 && n / d <= q <= n / d + 1
    ensures 0 <= (q - 1) * d <= n
    ensures (if n - (q - 1) * d < d then q - 1 else q) == n / d
  {
    var t := n / d;
    QuotientOf(n, d);
    assert t >= 1 by { if t < 1 { MulLe(t, 0, d); } }
    MulLe(0, q - 1, d);
    MulLe(q - 1, t, d);
    assert q == t ==> (q - 1) * d == t * d - d;
  }

  /** The remainder, as much of it as the return type holds. */
  function LowRemainder(n: int, d: int): int
    requires d > 0
  {
    U32(n % d)
  }

  /** The remainder, cut to the 32 bits of the return type; divisors up to 2^32 are safe. */
  method Umod64(n: int, d: int) returns (r: int)
    requires 0 <= n < B64 && 0 < d < B64
    ensures r == LowRemainder(n, d)
    ensures r == n % d <==> n % d < B32
    ensures d <= B32 ==> r == n % d
  {
    var q := Udiv64(n, d);
    RemainderOf(n, d, q);
    Cut(n % d);
    r := U32(U64(n - U64(d * q)));
  }

  lemma {:induction false} RemainderOf(n: int, d: int, q: int)
    requires 0 <= n < B64 && 0 < d < B64 && q == n / d
    ensures U64(n - U64(d * q)) == n % d
  {
    QuotientMono(0, n, d);
    MulLe(0, q, d);
    assert n == q * d + n % d && d * q == q * d;
    Fits(d * q);
    Fits(n % d);
  }

  lemma Cut(x: int)
    requires 0 <= x
    ensures x % B32 == x <==> x < B32
  {
  }

  // ---------------------------------------------------------------------
  // Signed division
  // ---------------------------------------------------------------------

  /** The quotient truncated toward zero, except for the one quotient that does not fit. */
  method Sdiv64(n: int, d: int) returns (r: int)
    requires -B63 <= n < B63 && -B63 <= d < B63 && d != 0
    ensures r == Quotient(n, d) <==> !(n == -B63 && d == -1)
    ensures n == -B63 && d == -1 ==> r == -B63
    ensures r == I64(Quotient(n, d))
  {
    var nAbs := if n >= 0 then n else U64(-U64(n));
    var dAbs := if d >= 0 then d else U64(-U64(d));
    MagnitudeIs(n);
    MagnitudeIs(d);
    var qAbs := Udiv64(nAbs, dAbs);
    QuotientFits(n, d);
    SignOf(qAbs);
    r := if (n < 0) == (d < 0) then I64(qAbs) else I64(-I64(qAbs));
  }

  lemma {:induction false} MagnitudeIs(n: int)
    requires -B63 <= n < B63
    ensures (if n >= 0 then n else U64(-U64(n))) == Abs(n)
  {
    assert n < 0 ==> U64(n) == n + B64;
  }

  lemma SignOf(q: int)
    requires 0 <= q <= B63
    ensures I64(-I64(q)) == -q == I64(-q)
    ensures I64(q) == if q < B63 then q else -B63
  {
    Signed(q);
    Signed(-q);
    Signed(B63);
  }

  lemma {:induction false} Signed(x: int)
    requires -B63 <= x <= B63
    ensures I64(x) == if x < B63 then x else -B63
  {
    if x < 0 { Unwrapped(x + B64); assert U64(x) == U64(x + B64); } else { Unwrapped(x); }
  }

  lemma {:induction false} Unwrapped(x: int)
    requires 0 <= x < B64
    ensures U64(x) == x
  {
  }

  lemma QuotientFits(n: int, d: int)
    requires -B63 <= n < B63 && -B63 <= d < B63 && d != 0
    ensures 0 <= Abs(n) / Abs(d) <= B63
    ensures Abs(n) / Abs(d) == B63 <==> n == -B63 && Abs(d) == 1
  {
    var a: int, b: int := Abs(n), Abs(d);
    var q := a / b;
    QuotientOf(a, b);
    QuotientMono(0, a, b);
    MulLe(1, b, q);
    if b >= 2 { MulLe(2, b, q); }
  }

  /** C's remainder, which has the sign of the dividend. */
  function Remainder(n: int, d: int): int
    requires d != 0
  {
    n - d * Quotient(n, d)
  }

  /** The remainder has the sign of n and is cut to 32 bits; divisors up to 2^31 in
      magnitude are safe.  The quotient that does not fit does no harm here. */
  method Smod64(n: int, d: int) returns (r: int)
    requires -B63 <= n < B63 && -B63 <= d < B63 && d != 0
    ensures var rem := Remainder(n, d);
      && Abs(rem) < Abs(d) && (rem != 0 ==> (rem < 0) == (n < 0))
      && r == I32(rem)
      && (r == rem <==> -B31 <= rem < B31)
    ensures Abs(d) <= B31 ==> r == Remainder(n, d)
  {
    var q := Sdiv64(n, d);
    SignedRemainder(n, d);
    SameLow(n, d, q, Quotient(n, d));
    Cut32(Remainder(n, d));
    r := I32(I64(n - I64(d * q)));
  }

  lemma Cut32(x: int)
    ensures I32(x) == x <==> -B31 <= x < B31
  {
  }

  lemma SignedRemainder(n: int, d: int)
    requires d != 0
    ensures var rem := Remainder(n, d); Abs(rem) < Abs(d) && (rem != 0 ==> (rem < 0) == (n < 0))
  {
    var a: int, b: int := Abs(n), Abs(d);
    var q := a / b;
    QuotientOf(a, b);
    assert d * Quotient(n, d) == if n < 0 then -(q * b) else q * b by {
      assert d == b || d == -b;
      assert b * q == q * b && (-b) * q == -(b * q) && b * (-q) == -(b * q) && (-b) * (-q) == b * q;
    }
  }

  /** Wrapping intermediate results does not change the low 32 bits. */
  lemma SameLow(n: int, d: int, q: int, t: int)
    requires q == I64(t) && d != 0
    ensures I32(I64(n - I64(d * q))) == I32(n - d * t)
  {
    var j := (q - t) / B64;
    assert t == q - B64 * j by { WrapIs(t); }
    assert d * t == d * q - B64 * (d * j) by {
      assert d * (q - B64 * j) == d * q - d * (B64 * j);
      assert d * (B64 * j) == B64 * (d * j);
    }
    var x := n - d * t;
    WrapIs(d * q);
    var u := n - I64(d * q);
    WrapIs(u);
    var v := (I64(d * q) - d * q) / B64;
    var w := (I64(u) - u) / B64;
    assert I64(u) == x + B64 * (w - v - d * j);
    LowWord(x, w - v - d * j);
  }

  lemma WrapIs(x: int)
    ensures I64(x) - x == B64 * ((I64(x) - x) / B64)
  {
  }

  lemma LowWord(x: int, k: int)
    ensures I32(x + B64 * k) == I32(x)
  {
    assert B64 * k == B32 * (B32 * k);
    ModShift(x, B32 * k);
  }

  lemma ModShift(x: int, j: int)
    ensures (x + B32 * j) % B32 == x % B32
  {
  }

  // ---------------------------------------------------------------------
  // Where the 32-bit return type shows
  // ---------------------------------------------------------------------

  /** For these operands the unsigned remainder does not fit in 32 bits. */
  lemma LongRemainder()
    ensures var n, d := B32, B32 + 1; 0 <= n < B64 && 0 < d < B64 && LowRemainder(n, d) != n % d
  {
    IsQuotient(B32, B32 + 1, 0);
  }

  /** And for these the signed one does not. */
  lemma LongSignedRemainder()
    ensures var n, d := B31, B31 + 1; -B63 <= n < B63 && -B63 <= d < B63 && I32(Remainder(n, d)) != Remainder(n, d)
  {
    SmallDividend(B31, B31 + 1);
  }

  lemma SmallDividend(n: int, d: int)
    requires 0 <= n < Abs(d)
    ensures Remainder(n, d) == n
  {
    IsQuotient(n, Abs(d), 0);
  }

  /** A divisor is safe, in that umod64 returns the remainder for every dividend, exactly
      up to 2^32. */
  lemma SafeDivisor(d: int)
    requires 0 < d < B64
    ensures (forall n :: 0 <= n < B64 ==> LowRemainder(n, d) == n % d) <==> d <= B32
  {
    if d <= B32 {
      forall n | 0 <= n < B64 ensures LowRemainder(n, d) == n % d { Cut(n % d); }
    } else {
      IsQuotient(B32, d, 0);
      assert LowRemainder(B32, d) != B32 % d;
    }
  }

  /** The same for smod64, up to 2^31 in magnitude. */
  lemma SafeSignedDivisor(d: int)
    requires -B63 <= d < B63 && d != 0
    ensures (forall n :: -B63 <= n < B63 ==> I32(Remainder(n, d)) == Remainder(n, d)) <==> Abs(d) <= B31
  {
    if Abs(d) <= B31 {
      forall n | -B63 <= n < B63 ensures I32(Remainder(n, d)) == Remainder(n, d) {
        SignedRemainder(n, d);
        Cut32(Remainder(n, d));
      }
    } else {
      SmallDividend(B31, d);
      assert I32(Remainder(B31, d)) != Remainder(B31, d);
    }
  }
}
