/** Magnitudes, and facts about products, quotients and remainders. */
module Numbers {

  function Abs(x: int): nat { if x < 0 then -x else x }

  lemma MulLe(a: int, b: int, c: int)
    requires a <= b && c >= 0
    ensures a * c <= b * c
  {
  }

  lemma MulLt(a: int, b: int, c: int)
    requires a * c < b * c && c > 0
    ensures a < b
  {
    if a >= b { MulLe(b, a, c); }
  }

  /** q is the quotient of n by d. */
  lemma IsQuotient(n: int, d: int, q: int)
    requires d > 0 && q * d <= n < q * d + d
    ensures n / d == q
  {
    var t := n / d;
    assert n == t * d + n % d;
    if t < q { MulLe(t + 1, q, d); } else if t > q { MulLe(q + 1, t, d); }
  }

  lemma QuotientOf(n: int, d: int)
    requires d > 0
    ensures (n / d) * d <= n < (n / d) * d + d
  {
    assert n == (n / d) * d + n % d;
  }

  /** Dividing twice is dividing by the product. */
  lemma DivDiv(n: int, a: int, b: int)
    requires n >= 0 && a > 0 && b > 0
    ensures a * b > 0 && (n / a) / b == n / (a * b)
  {
    var x := n / a;
    var y := x / b;
    QuotientOf(n, a);
    QuotientOf(x, b);
    MulLe(1, b, a);
    MulLe(y * b, x, a);
    MulLe(x + 1, y * b + b, a);
    assert (y * b) * a == y * (a * b) && (y * b + b) * a == y * (a * b) + a * b;
    IsQuotient(n, a * b, y);
  }

  lemma QuotientMono(n: int, m: int, d: int)
    requires d > 0 && n <= m
    ensures n / d <= m / d
  {
    QuotientOf(n, d);
    QuotientOf(m, d);
    if n / d > m / d { MulLe(m / d + 1, n / d, d); }
  }

  /** r is the remainder of n by d, and q the quotient. */
  lemma IsRemainder(n: int, d: int, q: int, r: int)
    requires 0 <= r < d && n == q * d + r
    ensures n / d == q && n % d == r
  {
    IsQuotient(n, d, q);
  }

  lemma NextRemainder(n: nat, d: nat)
    requires d > 0
    ensures (n + 1) % d == if n % d + 1 == d then 0 else n % d + 1
  {
    var q, r := n / d, n % d;
    assert n == q * d + r;
    if r + 1 == d {
      assert (q + 1) * d == q * d + d;
      IsRemainder(n + 1, d, q + 1, 0);
    } else {
      IsRemainder(n + 1, d, q, r + 1);
    }
  }
}
