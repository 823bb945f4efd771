/** `atoi` of `lib/stdlib.c`, and how it undoes `%d`. */
module Atoi {
  import opened Numbers
  import opened Printf

  predicate IsSpace(ch: char) {
    ch in {' ', '\U{c}', '\n', '\r', '\t', '\U{b}'}
  }

  predicate IsDigit(ch: char) { '0' <= ch <= '9' }

  function DigitOf(ch: char): nat
    requires IsDigit(ch)
  {
    ch as int - '0' as int
  }

  function SkipSpace(s: string): string {
    if s != "" && IsSpace(s[0]) then SkipSpace(s[1..]) else s
  }

  /** The number that the digits at the front continue. */
  function Number(s: string, n: nat): nat
    decreases |s|
  {
    if s != "" && IsDigit(s[0]) then Number(s[1..], 10 * n + DigitOf(s[0])) else n
  }

  predicate Signed(s: string) { s != "" && (s[0] == '+' || s[0] == '-') }

  function Atoi(s: string): int {
    var t := SkipSpace(s);
    var n: int := Number(if Signed(t) then t[1..] else t, 0);
    if t != "" && t[0] == '-' then -n else n
  }

  const INT_MIN: int := -0x8000_0000
  const INT_MAX: int := 0x7FFF_FFFF

  lemma {:induction false} NumberGrows(s: string, n: nat)
    ensures n <= Number(s, n)
    decreases |s|
  {
    if s != "" && IsDigit(s[0]) { NumberGrows(s[1..], 10 * n + DigitOf(s[0])); }
  }

  /** The code.  The value is kept negative while it grows; it stays in the range of an
      int if the number read does. */
  method ReadInt(s: string) returns (value: int)
    requires INT_MIN <= Atoi(s) <= INT_MAX
    ensures value == Atoi(s)
  {
    var i := SkipSpaces(s);
    ghost var t := s[i..];
    var negative := false;
    if i < |s| && s[i] == '+' {
      i := i + 1;
    } else if i < |s| && s[i] == '-' {
      negative := true;
      i := i + 1;
    }
    assert s[i..] == if Signed(t) then t[1..] else t;
    value := ReadDigits(s, i);
    if !negative { value := -value; }
  }

  method SkipSpaces(s: string) returns (i: nat)
    ensures i <= |s| && s[i..] == SkipSpace(s)
  {
    i := 0;
    while i < |s| && IsSpace(s[i])
      invariant i <= |s| && SkipSpace(s[i..]) == SkipSpace(s)
    {
      assert s[i..][1..] == s[i + 1..];
      i := i + 1;
    }
  }

  /** The number at i, negated; no value on the way leaves the range of an int. */
  method ReadDigits(s: string, start: nat) returns (value: int)
    requires start <= |s| && INT_MIN <= -(Number(s[start..], 0) as int)
    ensures value == -(Number(s[start..], 0) as int)
  {
    value := 0;
    var i := start;
    while i < |s| && IsDigit(s[i])
      invariant start <= i <= |s| && INT_MIN <= value <= 0 && Number(s[i..], -value) == Number(s[start..], 0)
    {
      assert s[i..][1..] == s[i + 1..];
      ghost var n: nat := 10 * -value + DigitOf(s[i]);
      NumberGrows(s[i + 1..], n);
      value := value * 10 - DigitOf(s[i]);
      assert value + n == 0;
      i := i + 1;
    }
  }

  // ---------------------------------------------------------------------
  // Reading digits back
  // ---------------------------------------------------------------------

  lemma {:induction false} DigitChar(d: nat)
    requires d < 10
    ensures GoodBase(BASE_D) && IsDigit(BASE_D.digits[d]) && DigitOf(BASE_D.digits[d]) == d
  {
  }

  lemma {:induction false} DigitsStep(v: nat, grouped: bool, cnt: nat, t: string)
    requires v > 0
    ensures Digits(v, BASE_D, grouped, cnt) + t
         == Digits(v / 10, BASE_D, grouped, cnt + 1) + ([BASE_D.digits[v % 10]] + (Comma(BASE_D, grouped, cnt) + t))
    ensures v / 10 < v
  {
    Smaller(v, 10);
    var left, d, comma := Digits(v / 10, BASE_D, grouped, cnt + 1), [BASE_D.digits[v % 10]], Comma(BASE_D, grouped, cnt);
    assert left + d + comma + t == left + (d + (comma + t));
  }

  lemma {:induction false} DigitRead(v: nat, t: string)
    ensures Number([BASE_D.digits[v % 10]] + t, v / 10) == Number(t, v)
  {
    DigitChar(v % 10);
    var s := [BASE_D.digits[v % 10]] + t;
    assert s[1..] == t && 10 * (v / 10) + v % 10 == v;
  }

  /** The digits of a number, read back, make the number. */
  lemma {:induction false} DigitsRead(v: nat, cnt: nat, t: string)
    ensures Number(Digits(v, BASE_D, false, cnt) + t, 0) == Number(t, v)
  {
    assert "" + t == t;
    if v > 0 {
      DigitsStep(v, false, cnt, t);
      DigitsRead(v / 10, cnt + 1, [BASE_D.digits[v % 10]] + t);
      DigitRead(v, t);
    }
  }

  lemma {:induction false} ZerosRead(k: nat, t: string)
    ensures Number(Dup('0', k) + t, 0) == Number(t, 0)
  {
    if k == 0 {
      assert Dup('0', 0) + t == t;
    } else {
      assert (Dup('0', k) + t)[1..] == Dup('0', k - 1) + t;
      ZerosRead(k - 1, t);
    }
  }

  /** With commas reading stops at the first one, and what has been read by then is no
      more than the number. */
  lemma {:induction false} GroupedRead(v: nat, cnt: nat, t: string)
    ensures var s := Digits(v, BASE_D, true, cnt) + t;
      Number(s, 0) == Number(t, v) || Number(s, 0) <= v
  {
    assert "" + t == t;
    if v > 0 {
      var u := Comma(BASE_D, true, cnt) + t;
      DigitsStep(v, true, cnt, t);
      GroupedRead(v / 10, cnt + 1, [BASE_D.digits[v % 10]] + u);
      DigitRead(v, u);
    }
  }

  lemma {:induction false} CommaEnds(v: nat, t: string)
    requires v > 0
    ensures Number(Digits(v, BASE_D, true, 3) + t, 0) <= v
  {
    var u := Comma(BASE_D, true, 3) + t;
    DigitsStep(v, true, 3, t);
    GroupedRead(v / 10, 4, [BASE_D.digits[v % 10]] + u);
    DigitRead(v, u);
    assert u[0] == ',';
  }

  /** From 1000 on there is a comma, and the number read is too small. */
  lemma {:induction false} ThousandsLost(v: nat, t: string)
    requires v >= 1000
    ensures Number(Digits(v, BASE_D, true, 0) + t, 0) < v
  {
    var a := v / 10;
    var b := a / 10;
    var c := b / 10;
    var t0 := [BASE_D.digits[v % 10]] + ("" + t);
    var t1 := [BASE_D.digits[a % 10]] + ("" + t0);
    var t2 := [BASE_D.digits[b % 10]] + ("" + t1);
    DigitsStep(v, true, 0, t);
    DigitsStep(a, true, 1, t0);
    DigitsStep(b, true, 2, t1);
    CommaEnds(c, t2);
  }

  /** Below 1000 there is none. */
  lemma {:induction false} NoComma(v: nat)
    requires v < 1000
    ensures Digits(v, BASE_D, true, 0) == Digits(v, BASE_D, false, 0)
  {
    assert Digits(v / 1000, BASE_D, true, 3) == "" == Digits(v / 1000, BASE_D, false, 3);
    assert v / 100 / 10 == v / 1000 && v / 10 / 10 == v / 100;
    assert Digits(v / 100, BASE_D, true, 2) == Digits(v / 100, BASE_D, false, 2);
    assert Digits(v / 10, BASE_D, true, 1) == Digits(v / 10, BASE_D, false, 1);
  }

  // ---------------------------------------------------------------------
  // atoi undoes %d
  // ---------------------------------------------------------------------

  /** What %d prints for v. */
  function Shown(v: int, c: Conversion): string {
    Field(Abs(v), true, v < 0, BASE_D, c)
  }

  /** Reading goes no further than t: it is empty or starts with a space. */
  predicate Blank(t: string) {
    forall i :: 0 <= i < |t| ==> t[i] == ' '
  }

  lemma {:induction false} SkipBlank(k: nat, t: string)
    ensures SkipSpace(Dup(' ', k) + t) == SkipSpace(t)
  {
    if k == 0 {
      assert Dup(' ', 0) + t == t;
    } else {
      assert (Dup(' ', k) + t)[1..] == Dup(' ', k - 1) + t;
      SkipBlank(k - 1, t);
    }
  }

  lemma {:induction false} SkipAll(t: string)
    requires Blank(t)
    ensures SkipSpace(t) == "" && Number(t, 0) == 0
  {
    if t != "" { SkipAll(t[1..]); }
  }

  /** Spaces, a sign, the digits and more spaces: atoi reads the digits. */
  lemma {:induction false} ReadField(left: nat, sign: string, body: string)
    requires sign in {"", "+", "-", " "} && (body == "" || IsDigit(body[0]) || Blank(body))
    ensures Atoi(Dup(' ', left) + (sign + body)) == if sign == "-" then -(Number(body, 0) as int) else Number(body, 0)
  {
    SkipBlank(left, sign + body);
    if sign == "+" || sign == "-" {
      assert (sign + body)[1..] == body;
    } else {
      assert sign == " " ==> (sign + body)[1..] == body;
      assert sign == "" ==> sign + body == body;
      if Blank(body) { SkipAll(body); }
    }
  }

  /** The digits part of a field. */
  function Body(n: nat, c: Conversion, zeros: nat, right: string): string {
    Dup('0', zeros) + (Padded(n, BASE_D, c) + right)
  }

  lemma {:induction false} FirstDigit(n: nat, grouped: bool, cnt: nat)
    ensures n > 0 ==> Digits(n, BASE_D, grouped, cnt) != "" && IsDigit(Digits(n, BASE_D, grouped, cnt)[0])
  {
    if n > 0 {
      DigitsStep(n, grouped, cnt, "");
      var s, rest := Digits(n, BASE_D, grouped, cnt), Digits(n / 10, BASE_D, grouped, cnt + 1);
      assert s + "" == s;
      DigitChar(n % 10);
      FirstDigit(n / 10, grouped, cnt + 1);
    }
  }

  /** What atoi reads from the digits part: the number itself, unless commas cut it off. */
  lemma {:induction false} BodyRead(n: nat, c: Conversion, zeros: nat, right: string)
    requires Blank(right)
    ensures var body := Body(n, c, zeros, right); body == "" || IsDigit(body[0]) || Blank(body)
    ensures var r := Number(Body(n, c, zeros, right), 0);
      r <= n && (r == n <==> !(c.group && n >= 1000))
  {
    var d := Digits(n, BASE_D, c.group, 0);
    var k := ZeroCount(|d|, c);
    FirstDigit(n, c.group, 0);
    ZerosRead(zeros, Padded(n, BASE_D, c) + right);
    assert Padded(n, BASE_D, c) + right == Dup('0', k) + (d + right);
    ZerosRead(k, d + right);
    if c.group && n >= 1000 {
      ThousandsLost(n, right);
    } else {
      if c.group { NoComma(n); }
      DigitsRead(n, 0, right);
      assert Number(right, n) == n;
    }
    BodyStarts(n, c, zeros, right, k);
  }

  lemma {:induction false} BodyStarts(n: nat, c: Conversion, zeros: nat, right: string, k: nat)
    requires Blank(right) && Padded(n, BASE_D, c) == Dup('0', k) + Digits(n, BASE_D, c.group, 0)
    requires n > 0 ==> Digits(n, BASE_D, c.group, 0) != "" && IsDigit(Digits(n, BASE_D, c.group, 0)[0])
    ensures var body := Body(n, c, zeros, right); body == "" || IsDigit(body[0]) || Blank(body)
  {
    var body, d := Body(n, c, zeros, right), Digits(n, BASE_D, c.group, 0);
    if zeros > 0 || k > 0 {
      assert body[0] == '0';
    } else {
      assert body == d + right;
    }
  }

  lemma ShownIs(v: int, c: Conversion) returns (left: nat, sign: string, zeros: nat, right: string)
    ensures Blank(right) && sign in {"", "+", "-", " "} && (sign == "-" <==> v < 0)
    ensures Shown(v, c) == Dup(' ', left) + (sign + Body(Abs(v), c, zeros, right))
  {
    sign := Sign(true, v < 0, c);
    assert Prefix(Abs(v), BASE_D, c) == "";
    left, zeros, right := AssembleIs(sign, Padded(Abs(v), BASE_D, c), c);
  }

  lemma AssembleIs(sign: string, p: string, c: Conversion) returns (left: nat, zeros: nat, right: string)
    ensures Blank(right)
    ensures Assemble(sign, "", p, c) == Dup(' ', left) + (sign + (Dup('0', zeros) + (p + right)))
  {
    var pad := PadCount(sign, "", p, c);
    left := if !c.minus && !c.zero then pad else 0;
    zeros := if c.zero then pad else 0;
    right := if c.minus then Dup(' ', pad) else "";
    var a := if !c.minus && !c.zero then Dup(' ', pad) else "";
    var z := if c.zero then Dup('0', pad) else "";
    assert a == Dup(' ', left) && z == Dup('0', zeros);
    Regroup(a, sign, z, p, right);
  }

  lemma Regroup(a: string, sign: string, z: string, p: string, right: string)
    ensures a + sign + "" + z + p + right == a + (sign + (z + (p + right)))
  {
  }

  /** For every int and every %d conversion, atoi gives the int back, unless grouping was
      asked for and put in a comma; and reading never overflows. */
  lemma AtoiUndoesD(v: int, c: Conversion)
    requires INT_MIN <= v <= INT_MAX
    ensures Atoi(Shown(v, c)) == v <==> !(c.group && Abs(v) >= 1000)
    ensures INT_MIN <= Atoi(Shown(v, c)) <= INT_MAX
  {
    var left, sign, zeros, right := ShownIs(v, c);
    BodyRead(Abs(v), c, zeros, right);
    ReadField(left, sign, Body(Abs(v), c, zeros, right));
  }

  /** The comma does show: 1000 does not come back. */
  lemma GroupedThousand()
    ensures var c := Conversion(false, false, false, false, false, true, 0, -1);
      Atoi(Shown(1000, c)) != 1000
  {
    AtoiUndoesD(1000, Conversion(false, false, false, false, false, true, 0, -1));
  }
}
