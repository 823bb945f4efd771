/** Formatting integers, from `lib/stdio.c`, and reading them back, from `lib/stdlib.c`. */
module Printf {
  import opened Numbers

  /** struct printf_conversion; precision -1 means none was given. */
  datatype Conversion = Conversion(minus: bool, plus: bool, space: bool, pound: bool, zero: bool, group: bool,
                                   width: nat, precision: int)

  /** struct integer_base; x is 0 except for base 16. */
  datatype Base = Base(base: nat, digits: string, x: char, group: nat)

  const BASE_D: Base := Base(10, "0123456789", '\0', 3)
  const BASE_O: Base := Base(8, "01234567", '\0', 3)
  const BASE_X: Base := Base(16, "0123456789abcdef", 'x', 4)
  const BASE_UPPER_X: Base := Base(16, "0123456789ABCDEF", 'X', 4)

  predicate IsBase(b: Base) {
    b in {BASE_D, BASE_O, BASE_X, BASE_UPPER_X}
  }

  /** What matters about a base for the digits. */
  predicate GoodBase(b: Base) {
    b.base >= 8 && |b.digits| == b.base && b.group > 0
  }

  lemma BasesAreGood(b: Base)
    requires IsBase(b)
    ensures GoodBase(b)
  {
  }

  /** What parse_conversion makes sure of. */
  predicate Normal(c: Conversion) {
    (c.plus ==> !c.space) && c.precision >= -1 && (c.precision >= 0 ==> !c.zero)
  }

  const BUF_SIZE: nat := 64

  // ---------------------------------------------------------------------
  // What format_integer prints
  // ---------------------------------------------------------------------

  function Dup(ch: char, n: nat): (s: string)
    ensures |s| == n && forall i :: 0 <= i < n ==> s[i] == ch
  {
    seq(n, i => ch)
  }

  /** The comma due before digit number cnt, counted from the right. */
  function Comma(b: Base, grouped: bool, cnt: nat): string
    requires b.group > 0
  {
    if grouped && cnt > 0 && cnt % b.group == 0 then "," else ""
  }

  lemma Smaller(value: nat, base: nat)
    requires base >= 2 && value > 0
    ensures value / base < value
  {
    var q := value / base;
    assert value == base * q + value % base;
    assert q >= value ==> base * q >= 2 * q;
  }

  /** The digits of a number, most significant first; cnt digits are to their right. */
  function Digits(value: nat, b: Base, grouped: bool, cnt: nat): string
    requires GoodBase(b)
    decreases value
  {
    if value == 0 then ""
    else
      Smaller(value, b.base);
      Digits(value / b.base, b, grouped, cnt + 1) + [b.digits[value % b.base]] + Comma(b, grouped, cnt)
  }

  function Sign(isSigned: bool, negative: bool, c: Conversion): string {
    if !isSigned then ""
    else if c.plus then (if negative then "-" else "+")
    else if c.space then (if negative then "-" else " ")
    else if negative then "-" else ""
  }

  function Prefix(value: nat, b: Base, c: Conversion): string {
    if c.pound && value != 0 && b.x != '\0' then ['0', b.x] else ""
  }

  /** How many zeros go in front of n digits to make up the precision, as far as the
      buffer goes. */
  function ZeroCount(n: nat, c: Conversion): nat {
    var want := if c.precision < 0 then 1 else if c.precision < BUF_SIZE - 1 then c.precision else BUF_SIZE - 1;
    if n < want then want - n else 0
  }

  /** The digits with those zeros, and with the zero that octal numbers may ask for. */
  function Padded(value: nat, b: Base, c: Conversion): string
    requires GoodBase(b)
  {
    var d := Digits(value, b, c.group, 0);
    var p := Dup('0', ZeroCount(|d|, c)) + d;
    if c.pound && b.base == 8 && (p == "" || p[0] != '0') then "0" + p else p
  }

  function PadCount(sign: string, x: string, p: string, c: Conversion): nat {
    if c.width > |p| + |x| + |sign| then c.width - |p| - |x| - |sign| else 0
  }

  /** Sign, prefix and digits, filled up to the width. */
  function Assemble(sign: string, x: string, p: string, c: Conversion): string {
    var pad := PadCount(sign, x, p, c);
    var left := if !c.minus && !c.zero then Dup(' ', pad) else "";
    var zeros := if c.zero then Dup('0', pad) else "";
    var right := if c.minus then Dup(' ', pad) else "";
    left + sign + x + zeros + p + right
  }

  /** The whole field. */
  function Field(value: nat, isSigned: bool, negative: bool, b: Base, c: Conversion): string
    requires GoodBase(b)
  {
    Assemble(Sign(isSigned, negative, c), Prefix(value, b, c), Padded(value, b, c), c)
  }

  // ---------------------------------------------------------------------
  // The digit buffer
  // ---------------------------------------------------------------------

  function Pow8(n: nat): nat { if n == 0 then 1 else 8 * Pow8(n - 1) }

  /** Each digit takes at most two places, its own and that of a comma. */
  lemma {:induction false} DigitsLength(value: nat, b: Base, grouped: bool, cnt: nat, k: nat)
    requires GoodBase(b) && value < Pow8(k)
    ensures |Digits(value, b, grouped, cnt)| <= 2 * k
    decreases k
  {
    if value > 0 {
      Eighth(value, b.base, Pow8(k - 1));
      DigitsLength(value / b.base, b, grouped, cnt + 1, k - 1);
    }
  }

  lemma Eighth(value: nat, base: nat, p: nat)
    requires base >= 8 && value < 8 * p
    ensures value / base < p
  {
    var q := value / base;
    assert value == base * q + value % base;
    if q >= p {
      assert base * q >= 8 * q by { MulLe(8, base, q); }
    }
  }

  lemma {:induction false} Pow8Values()
    ensures Pow8(22) >= 0x1_0000_0000_0000_0000
  {
    assert Pow8(2) == 64;
    assert Pow8(4) == 64 * Pow8(2);
    assert Pow8(6) == 64 * Pow8(4);
    assert Pow8(8) == 64 * Pow8(6);
    assert Pow8(10) == 64 * Pow8(8);
    assert Pow8(12) == 64 * Pow8(10);
    assert Pow8(14) == 64 * Pow8(12);
    assert Pow8(16) == 64 * Pow8(14);
    assert Pow8(18) == 64 * Pow8(16);
    assert Pow8(20) == 64 * Pow8(18);
    assert Pow8(22) == 64 * Pow8(20);
  }

  /** The first |r| places of the buffer hold r, last character first. */
  ghost predicate Stored(buf: array<char>, r: string)
    reads buf
  {
    |r| <= buf.Length && forall i :: 0 <= i < |r| ==> buf[i] == r[|r| - 1 - i]
  }

  /** *cp++ = ch */
  method Put(buf: array<char>, cp: nat, ch: char, ghost r: string) returns (next: nat)
    requires cp == |r| < buf.Length && Stored(buf, r)
    modifies buf
    ensures next == cp + 1 && Stored(buf, [ch] + r)
  {
    buf[cp] := ch;
    next := cp + 1;
    ghost var q := [ch] + r;
    forall i | 0 <= i < |q| ensures buf[i] == q[|q| - 1 - i] {
      if i < |r| { assert q[|q| - 1 - i] == r[|r| - 1 - i]; }
    }
  }

  /** The digits, last one first. */
  method PutDigits(buf: array<char>, value: nat, b: Base, grouped: bool) returns (cp: nat)
    requires buf.Length == BUF_SIZE && GoodBase(b) && |Digits(value, b, grouped, 0)| <= 44
    modifies buf
    ensures cp == |Digits(value, b, grouped, 0)| && Stored(buf, Digits(value, b, grouped, 0))
  {
    ghost var all := Digits(value, b, grouped, 0);
    var v: nat, cnt: nat := value, 0;
    cp := 0;
    ghost var r := "";
    assert all + r == all;
    while v > 0
      invariant cp == |r| && Stored(buf, r) && all == Digits(v, b, grouped, cnt) + r
      decreases v
    {
      cp, v, r := PutDigit(buf, cp, v, b, grouped, cnt, r);
      cnt := cnt + 1;
    }
    assert "" + r == r;
  }

  /** One digit, behind the comma that is due; returns what is left of the number. */
  method PutDigit(buf: array<char>, cp: nat, v: nat, b: Base, grouped: bool, cnt: nat, ghost r: string)
    returns (next: nat, left: nat, ghost r': string)
    requires buf.Length == BUF_SIZE && GoodBase(b) && v > 0 && cp == |r| && Stored(buf, r)
    requires |Digits(v, b, grouped, cnt) + r| <= 44
    modifies buf
    ensures left < v && next == |r'| && Stored(buf, r')
    ensures Digits(v, b, grouped, cnt) + r == Digits(left, b, grouped, cnt + 1) + r'
  {
    Smaller(v, b.base);
    left := v / b.base;
    ghost var rest := Digits(left, b, grouped, cnt + 1);
    ghost var d, comma := b.digits[v % b.base], Comma(b, grouped, cnt);
    r' := [d] + (comma + r);
    assert rest + [d] + comma + r == rest + r';
    next := cp;
    if grouped && cnt > 0 && cnt % b.group == 0 {
      next := Put(buf, next, ',', r);
    }
    assert "" + r == r;
    next := Put(buf, next, b.digits[v % b.base], comma + r);
  }

  /** Zeros for the precision. */
  method PutZeros(buf: array<char>, start: nat, c: Conversion, ghost d: string) returns (cp: nat)
    requires buf.Length == BUF_SIZE && start == |d| <= 44 && Stored(buf, d)
    modifies buf
    ensures cp == |d| + ZeroCount(|d|, c) < BUF_SIZE && Stored(buf, Dup('0', ZeroCount(|d|, c)) + d)
  {
    var precision := if c.precision < 0 then 1 else c.precision;
    cp := start;
    assert Dup('0', 0) + d == d;
    while cp < precision && cp < BUF_SIZE - 1
      invariant start <= cp < BUF_SIZE && (cp <= precision || cp == start) && Stored(buf, Dup('0', cp - start) + d)
    {
      OneZero(cp - start, d);
      cp := Put(buf, cp, '0', Dup('0', cp - start) + d);
    }
  }

  lemma OneZero(n: nat, d: string)
    ensures ['0'] + (Dup('0', n) + d) == Dup('0', n + 1) + d
  {
  }

  /** The number in the buffer, with the leading zero that octal numbers may ask for. */
  method PutNumber(buf: array<char>, value: nat, b: Base, c: Conversion) returns (cp: nat)
    requires buf.Length == BUF_SIZE && GoodBase(b) && |Digits(value, b, c.group, 0)| <= 44
    modifies buf
    ensures cp == |Padded(value, b, c)| <= BUF_SIZE && Stored(buf, Padded(value, b, c))
  {
    ghost var d := Digits(value, b, c.group, 0);
    cp := PutDigits(buf, value, b, c.group);
    cp := PutZeros(buf, cp, c, d);
    if c.pound && b.base == 8 && (cp == 0 || buf[cp - 1] != '0') {
      cp := Put(buf, cp, '0', Dup('0', ZeroCount(|d|, c)) + d);
    }
  }

  /** output_dup, appending to what has been written. */
  method OutputDup(ch: char, cnt: nat, out: string) returns (r: string)
    ensures r == out + Dup(ch, cnt)
  {
    r := out;
    var n: nat := cnt;
    assert out + Dup(ch, 0) == out;
    while n > 0
      invariant n <= cnt && r == out + Dup(ch, cnt - n)
    {
      assert Dup(ch, cnt - n) + [ch] == Dup(ch, cnt - n + 1);
      n := n - 1;
      r := r + [ch];
    }
  }

  /** The buffer, last character first. */
  method OutputBuffer(buf: array<char>, cp: nat, out: string, ghost p: string) returns (r: string)
    requires cp == |p| && Stored(buf, p)
    ensures r == out + p
  {
    r := out;
    var n: nat := cp;
    while n > 0
      invariant n <= cp && r == out + p[..cp - n]
    {
      n := n - 1;
      r := r + [buf[n]];
      assert p[..cp - n] == p[..cp - n - 1] + [p[cp - n - 1]];
    }
    assert p[..cp] == p;
  }

  /** The output part of format_integer. */
  method Output(buf: array<char>, cp: nat, sign: string, x: string, c: Conversion, ghost p: string) returns (out: string)
    requires cp == |p| && Stored(buf, p)
    ensures out == Assemble(sign, x, p, c)
  {
    var padCnt := c.width - cp - |x| - |sign|;
    if padCnt < 0 { padCnt := 0; }
    out := "";
    if !c.minus && !c.zero { out := OutputDup(' ', padCnt, out); }
    out := out + sign;
    out := out + x;
    if c.zero { out := OutputDup('0', padCnt, out); }
    out := OutputBuffer(buf, cp, out, p);
    if c.minus { out := OutputDup(' ', padCnt, out); }
  }

  /** For every 64-bit value the digits fit the buffer, and the output is the field. */
  method FormatInteger(value: nat, isSigned: bool, negative: bool, b: Base, c: Conversion) returns (out: string)
    requires value < 0x1_0000_0000_0000_0000 && IsBase(b)
    ensures GoodBase(b) && out == Field(value, isSigned, negative, b, c)
  {
    BasesAreGood(b);
    FewDigits(value, b, c.group);
    var sign := Sign(isSigned, negative, c);
    var x := Prefix(value, b, c);
    var buf := new char[BUF_SIZE];
    var cp := PutNumber(buf, value, b, c);
    out := Output(buf, cp, sign, x, c, Padded(value, b, c));
  }

  lemma {:induction false} FewDigits(value: nat, b: Base, grouped: bool)
    requires value < 0x1_0000_0000_0000_0000 && GoodBase(b)
    ensures |Digits(value, b, grouped, 0)| <= 44
  {
    Pow8Values();
    DigitsLength(value, b, grouped, 0, 22);
  }

  // ---------------------------------------------------------------------
  // Into a buffer of limited size
  // ---------------------------------------------------------------------

  /** vsnprintf: text is what __vprintf writes, one character at a time.  As much of it
      as fits is stored, with a null behind it, and its full length is returned. */
  method Vsnprintf(buffer: array<char>, bufSize: nat, text: string) returns (length: nat)
    requires bufSize <= buffer.Length
    modifies buffer
    ensures length == |text|
    ensures bufSize > 0 ==>
      var n := if |text| < bufSize then |text| else bufSize - 1;
      buffer[..n] == text[..n] && buffer[n] == '\0'
    ensures forall i :: 0 <= i < buffer.Length && (i >= bufSize || i > |text|) ==> buffer[i] == old(buffer[i])
  {
    var p := 0;
    var maxLength := if bufSize > 0 then bufSize - 1 else 0;
    length := 0;
    while length < |text|
      invariant length <= |text| && p == (if length < maxLength then length else maxLength)
      invariant buffer[..p] == text[..p]
      invariant forall i :: p <= i < buffer.Length ==> buffer[i] == old(buffer[i])
    {
      if length < maxLength {
        buffer[p] := text[length];
        p := p + 1;
      }
      length := length + 1;
    }
    if bufSize > 0 { buffer[p] := '\0'; }
  }
}
