/**
 What a formatted integer looks like, said of its characters by position and without the
 functions that assemble it.
 */
module PrintfField {
  import opened Printf

  // ---------------------------------------------------------------------
  // Numbers written in a base
  // ---------------------------------------------------------------------

  /** The usual value of a digit character. */
  function DigitValue(ch: char): int {
    if '0' <= ch <= '9' then ch as int - '0' as int
    else if 'a' <= ch <= 'f' then 10 + ch as int - 'a' as int
    else if 'A' <= ch <= 'F' then 10 + ch as int - 'A' as int
    else -1
  }

  /** The number that s writes in a base, commas not counted. */
  function ReadIn(s: string, base: nat): int {
    if s == "" then 0
    else
      var ch, rest := s[|s| - 1], s[..|s| - 1];
      if ch == ',' then ReadIn(rest, base) else base * ReadIn(rest, base) + DigitValue(ch)
  }

  /** A digit of the base; letters are capital exactly for the X conversion. */
  predicate IsDigit(b: Base, ch: char) {
    0 <= DigitValue(ch) < b.base && ('A' <= ch <= 'F' ==> b == BASE_UPPER_X) && ('a' <= ch <= 'f' ==> b == BASE_X)
  }

  /** r places from the right of a grouped number there is a comma. */
  predicate CommaAt(b: Base, r: int) {
    r % (b.group + 1) == b.group
  }

  /** s writes value without leading zeros, with commas between groups if asked for. */
  ghost predicate Writes(s: string, value: nat, b: Base, grouped: bool) {
    && ReadIn(s, b.base) == value
    && (forall i :: 0 <= i < |s| ==> (s[i] == ',' <==> grouped && CommaAt(b, |s| - 1 - i)))
    && (forall i :: 0 <= i < |s| ==> s[i] == ',' || IsDigit(b, s[i]))
    && (s != "" ==> s[0] != '0' && s[0] != ',')
  }

  lemma DigitOf(b: Base, d: nat)
    requires IsBase(b) && d < b.base
    ensures |b.digits| == b.base && IsDigit(b, b.digits[d]) && DigitValue(b.digits[d]) == d
  {
    assert |b.digits| == b.base;
    match d
    case 0 => case 1 => case 2 => case 3 => case 4 => case 5 => case 6 => case 7 =>
    case 8 => case 9 => case 10 => case 11 => case 12 => case 13 => case 14 => case _ =>
  }

  /** What matters about a base here. */
  ghost predicate Proper(b: Base) {
    && GoodBase(b) && (b.group == 3 || b.group == 4)
    && forall d :: 0 <= d < b.base ==> IsDigit(b, b.digits[d]) && DigitValue(b.digits[d]) == d
  }

  lemma BasesAreProper(b: Base)
    requires IsBase(b)
    ensures Proper(b)
  {
    BasesAreGood(b);
    forall d | 0 <= d < b.base ensures IsDigit(b, b.digits[d]) && DigitValue(b.digits[d]) == d { DigitOf(b, d); }
  }

  lemma LastDigit(value: nat, b: Base)
    requires Proper(b)
    ensures var d := b.digits[value % b.base]; IsDigit(b, d) && DigitValue(d) == value % b.base && d != ','
  {
  }

  /** s writes value, except that nothing is said of where the commas are. */
  ghost predicate Reads(s: string, value: nat, b: Base) {
    && ReadIn(s, b.base) == value
    && (forall i :: 0 <= i < |s| ==> s[i] == ',' || IsDigit(b, s[i]))
    && (s != "" ==> s[0] != '0' && s[0] != ',') && (s == "" <==> value == 0)
  }

  /** One more digit and perhaps a comma. */
  lemma {:induction false} ReadsOn(s: string, q: nat, b: Base, d: char, comma: string)
    requires Reads(s, q, b) && IsDigit(b, d) && (s == "" ==> DigitValue(d) != 0) && (comma == "" || comma == ",")
    requires b.base * q + DigitValue(d) > 0
    ensures Reads(s + [d] + comma, b.base * q + DigitValue(d), b)
  {
    OneDigit(s, d, b.base);
    var t := s + [d];
    if comma == "," { OneComma(t, b.base); } else { assert t + comma == t; }
  }

  lemma Division(value: nat, base: nat)
    requires base > 1
    ensures value == base * (value / base) + value % base && (value / base == 0 ==> value % base == value)
  {
  }

  lemma {:induction false} DigitsRead(value: nat, b: Base, grouped: bool, cnt: nat)
    requires Proper(b)
    ensures Reads(Digits(value, b, grouped, cnt), value, b)
    decreases value
  {
    if value > 0 {
      Smaller(value, b.base);
      Division(value, b.base);
      var q, d := value / b.base, value % b.base;
      DigitsRead(q, b, grouped, cnt + 1);
      LastDigit(value, b);
      ReadsOn(Digits(q, b, grouped, cnt + 1), q, b, b.digits[d], Comma(b, grouped, cnt));
    }
  }

  lemma {:induction false} OneDigit(s: string, d: char, base: nat)
    requires d != ','
    ensures ReadIn(s + [d], base) == base * ReadIn(s, base) + DigitValue(d)
  {
    assert (s + [d])[..|s|] == s;
  }

  lemma {:induction false} OneComma(s: string, base: nat)
    ensures ReadIn(s + ",", base) == ReadIn(s, base)
  {
    assert (s + ",")[..|s|] == s;
  }

  /** How many places the cnt digits on the right take with their commas. */
  function Taken(b: Base, cnt: nat): nat
    requires b.group > 0
  {
    if cnt == 0 then 0 else cnt + (cnt - 1) / b.group
  }

  lemma TakenThree(cnt: nat)
    ensures var t, comma := if cnt == 0 then 0 else cnt + (cnt - 1) / 3, if cnt > 0 && cnt % 3 == 0 then 1 else 0;
      (comma == 1 ==> t % 4 == 3) && (t + comma) % 4 != 3 && cnt + 1 + cnt / 3 == t + comma + 1
  {
  }

  lemma TakenFour(cnt: nat)
    ensures var t, comma := if cnt == 0 then 0 else cnt + (cnt - 1) / 4, if cnt > 0 && cnt % 4 == 0 then 1 else 0;
      (comma == 1 ==> t % 5 == 4) && (t + comma) % 5 != 4 && cnt + 1 + cnt / 4 == t + comma + 1
  {
  }

  lemma TakenNext(b: Base, cnt: nat)
    requires b.group == 3 || b.group == 4
    ensures |Comma(b, true, cnt)| == 1 ==> CommaAt(b, Taken(b, cnt))
    ensures !CommaAt(b, Taken(b, cnt) + |Comma(b, true, cnt)|)
    ensures Taken(b, cnt + 1) == Taken(b, cnt) + |Comma(b, true, cnt)| + 1
  {
    TakenThree(cnt);
    TakenFour(cnt);
  }

  /** Commas are where they should be in s, which has n places to its right. */
  ghost predicate CommasIn(s: string, b: Base, n: nat) {
    forall i :: 0 <= i < |s| ==> (s[i] == ',' <==> CommaAt(b, n + |s| - 1 - i))
  }

  lemma CommasOn(s: string, b: Base, n: nat, d: char, comma: string)
    requires CommasIn(s, b, n + |comma| + 1) && d != ',' && (comma == "" || comma == ",")
    requires (comma == "," ==> CommaAt(b, n)) && !CommaAt(b, n + |comma|)
    ensures CommasIn(s + [d] + comma, b, n)
  {
  }

  lemma {:induction false} CommasAt(value: nat, b: Base, cnt: nat)
    requires Proper(b)
    ensures CommasIn(Digits(value, b, true, cnt), b, Taken(b, cnt))
    decreases value
  {
    if value > 0 {
      Smaller(value, b.base);
      CommasAt(value / b.base, b, cnt + 1);
      TakenNext(b, cnt);
      LastDigit(value, b);
      CommasOn(Digits(value / b.base, b, true, cnt + 1), b, Taken(b, cnt), b.digits[value % b.base], Comma(b, true, cnt));
    }
  }

  lemma {:induction false} NoCommas(value: nat, b: Base, cnt: nat)
    requires Proper(b)
    ensures ',' !in Digits(value, b, false, cnt)
    decreases value
  {
    if value > 0 {
      Smaller(value, b.base);
      NoCommas(value / b.base, b, cnt + 1);
      LastDigit(value, b);
    }
  }

  lemma {:induction false} DigitsWrite(value: nat, b: Base, grouped: bool)
    requires Proper(b)
    ensures Writes(Digits(value, b, grouped, 0), value, b, grouped)
  {
    DigitsRead(value, b, grouped, 0);
    var s := Digits(value, b, grouped, 0);
    forall i | 0 <= i < |s| ensures s[i] == ',' <==> grouped && CommaAt(b, |s| - 1 - i) {
      if grouped { CommasAt(value, b, 0); } else { NoCommas(value, b, 0); }
    }
  }

  // ---------------------------------------------------------------------
  // Fields
  // ---------------------------------------------------------------------

  /** How many of the characters of s, from place i on, are what. */
  predicate Are(s: string, i: nat, n: nat, what: char) {
    i + n <= |s| && forall k :: i <= k < i + n ==> s[k] == what
  }

  /** The parts of a field, by their lengths: spaces, sign, 0x, zeros that fill the width,
      zeros that fill the precision, number, spaces. */
  datatype Parts = Parts(lead: nat, sign: nat, x: nat, fill: nat, zeros: nat, number: nat, trail: nat)

  function Core(p: Parts): nat { p.sign + p.x + p.zeros + p.number }

  /** The lengths that the flags ask for. */
  predicate Asked(p: Parts, value: nat, isSigned: bool, negative: bool, b: Base, c: Conversion) {
    var pad := if c.width > Core(p) then c.width - Core(p) else 0;
    var digits := if c.precision < 0 then 1 else if c.precision < 63 then c.precision else 63;
    && p.lead == (if c.minus || c.zero then 0 else pad)
    && p.fill == (if c.zero then pad else 0)
    && p.trail == (if c.minus then pad else 0)
    && p.sign == (if isSigned && (negative || c.plus || c.space) then 1 else 0)
    && p.x == (if c.pound && value != 0 && b.base == 16 then 2 else 0)
    && p.zeros == (if p.number < digits then digits - p.number else if c.pound && b.base == 8 then 1 else 0)
  }

  /** out consists of these parts, and of nothing else. */
  ghost predicate Consists(out: string, p: Parts, value: nat, negative: bool, b: Base, c: Conversion) {
    var sign := p.lead;
    var x := sign + p.sign;
    var zeros := x + p.x;
    var number := zeros + p.fill + p.zeros;
    && |out| == number + p.number + p.trail
    && Are(out, 0, p.lead, ' ')
    && (p.sign > 0 ==> out[sign] == if negative then '-' else if c.plus then '+' else ' ')
    && (p.x > 1 ==> out[x] == '0' && out[x + 1] == if b == BASE_X then 'x' else 'X')
    && Are(out, zeros, p.fill + p.zeros, '0')
    && Writes(out[number..number + p.number], value, b, c.group)
    && Are(out, number + p.number, p.trail, ' ')
  }

  lemma {:induction false} PaddedParts(value: nat, b: Base, c: Conversion) returns (zeros: nat)
    requires Proper(b)
    ensures Padded(value, b, c) == Dup('0', zeros) + Digits(value, b, c.group, 0)
    ensures var n := |Digits(value, b, c.group, 0)|;
      var digits := if c.precision < 0 then 1 else if c.precision < 63 then c.precision else 63;
      zeros == (if n < digits then digits - n else if c.pound && b.base == 8 then 1 else 0)
  {
    DigitsRead(value, b, c.group, 0);
    var d := Digits(value, b, c.group, 0);
    zeros := ZeroCount(|d|, c);
    var p := Dup('0', zeros) + d;
    if zeros > 0 { assert p[0] == '0'; } else { assert p == d; }
    if c.pound && b.base == 8 && zeros == 0 {
      zeros := 1;
      assert Dup('0', 1) == "0";
    }
  }

  /** The parts of what is assembled from a sign, a prefix, zeros and a number. */
  function PartsOf(sign: string, x: string, zeros: nat, d: string, c: Conversion): Parts {
    var core := |sign| + |x| + zeros + |d|;
    var pad := if c.width > core then c.width - core else 0;
    Parts(if c.minus || c.zero then 0 else pad, |sign|, |x|, if c.zero then pad else 0, zeros, |d|, if c.minus then pad else 0)
  }

  /** out consists of parts p, whose texts are these. */
  ghost predicate MadeOf(out: string, p: Parts, sign: string, x: string, d: string) {
    var number := p.lead + p.sign + p.x + p.fill + p.zeros;
    && |out| == number + p.number + p.trail && Are(out, 0, p.lead, ' ')
    && out[p.lead..p.lead + p.sign] == sign && out[p.lead + p.sign..p.lead + p.sign + p.x] == x
    && Are(out, p.lead + p.sign + p.x, p.fill + p.zeros, '0')
    && out[number..number + p.number] == d && Are(out, number + p.number, p.trail, ' ')
  }

  lemma JoinedParts(p: Parts, sign: string, x: string, d: string)
    requires |sign| == p.sign && |x| == p.x && |d| == p.number
    ensures MadeOf(Dup(' ', p.lead) + sign + x + Dup('0', p.fill + p.zeros) + d + Dup(' ', p.trail), p, sign, x, d)
  {
    var out := Dup(' ', p.lead) + sign + x + Dup('0', p.fill + p.zeros) + d + Dup(' ', p.trail);
    assert out[p.lead..p.lead + p.sign] == sign;
  }

  lemma AssembleIs(sign: string, x: string, zeros: nat, d: string, c: Conversion)
    ensures var p := PartsOf(sign, x, zeros, d, c);
      Assemble(sign, x, Dup('0', zeros) + d, c) == Dup(' ', p.lead) + sign + x + Dup('0', p.fill) + (Dup('0', p.zeros) + d) + Dup(' ', p.trail)
  {
  }

  lemma Rejoined(front: string, n: nat, m: nat, d: string)
    ensures front + Dup('0', n) + (Dup('0', m) + d) == front + Dup('0', n + m) + d
  {
  }

  lemma AssembleParts(sign: string, x: string, zeros: nat, d: string, c: Conversion)
    ensures MadeOf(Assemble(sign, x, Dup('0', zeros) + d, c), PartsOf(sign, x, zeros, d, c), sign, x, d)
  {
    var p := PartsOf(sign, x, zeros, d, c);
    JoinedParts(p, sign, x, d);
    AssembleIs(sign, x, zeros, d, c);
    Rejoined(Dup(' ', p.lead) + sign + x, p.fill, p.zeros, d);
  }

  lemma MadeConsists(out: string, p: Parts, sign: string, x: string, d: string, value: nat, negative: bool, b: Base, c: Conversion)
    requires MadeOf(out, p, sign, x, d) && Writes(d, value, b, c.group)
    requires sign != "" ==> sign[0] == if negative then '-' else if c.plus then '+' else ' '
    requires |x| > 1 ==> x[0] == '0' && x[1] == if b == BASE_X then 'x' else 'X'
    ensures Consists(out, p, value, negative, b, c)
  {
  }

  lemma SignIs(isSigned: bool, negative: bool, c: Conversion)
    ensures var s := Sign(isSigned, negative, c);
      && |s| == (if isSigned && (negative || c.plus || c.space) then 1 else 0)
      && (s != "" ==> s[0] == if negative then '-' else if c.plus then '+' else ' ')
  {
  }

  lemma PrefixIs(value: nat, b: Base, c: Conversion)
    requires IsBase(b)
    ensures var x := Prefix(value, b, c);
      && |x| == (if c.pound && value != 0 && b.base == 16 then 2 else 0)
      && (|x| > 1 ==> x[0] == '0' && x[1] == if b == BASE_X then 'x' else 'X')
  {
  }

  lemma PartsAsked(sign: string, x: string, zeros: nat, d: string, value: nat, isSigned: bool, negative: bool, b: Base, c: Conversion)
    requires |sign| == (if isSigned && (negative || c.plus || c.space) then 1 else 0)
    requires |x| == (if c.pound && value != 0 && b.base == 16 then 2 else 0)
    requires var digits := if c.precision < 0 then 1 else if c.precision < 63 then c.precision else 63;
      zeros == (if |d| < digits then digits - |d| else if c.pound && b.base == 8 then 1 else 0)
    ensures Asked(PartsOf(sign, x, zeros, d, c), value, isSigned, negative, b, c)
  {
  }

  /** Every field has exactly the parts that the flags ask for, in this order. */
  lemma {:induction false} FieldLaw(value: nat, isSigned: bool, negative: bool, b: Base, c: Conversion) returns (p: Parts)
    requires IsBase(b)
    ensures GoodBase(b) && Asked(p, value, isSigned, negative, b, c)
    ensures Consists(Field(value, isSigned, negative, b, c), p, value, negative, b, c)
  {
    BasesAreProper(b);
    PrefixIs(value, b, c);
    p := ProperField(value, isSigned, negative, b, c);
  }

  lemma {:induction false} ProperField(value: nat, isSigned: bool, negative: bool, b: Base, c: Conversion) returns (p: Parts)
    requires Proper(b)
    requires var x := Prefix(value, b, c);
      && |x| == (if c.pound && value != 0 && b.base == 16 then 2 else 0)
      && (|x| > 1 ==> x[0] == '0' && x[1] == if b == BASE_X then 'x' else 'X')
    ensures Asked(p, value, isSigned, negative, b, c)
    ensures Consists(Field(value, isSigned, negative, b, c), p, value, negative, b, c)
  {
    DigitsWrite(value, b, c.group);
    var zeros := PaddedParts(value, b, c);
    SignIs(isSigned, negative, c);
    var sign, x, d := Sign(isSigned, negative, c), Prefix(value, b, c), Digits(value, b, c.group, 0);
    AssembleParts(sign, x, zeros, d, c);
    p := PartsOf(sign, x, zeros, d, c);
    PartsAsked(sign, x, zeros, d, value, isSigned, negative, b, c);
    MadeConsists(Field(value, isSigned, negative, b, c), p, sign, x, d, value, negative, b, c);
  }

  lemma AssembleLength(sign: string, x: string, p: string, c: Conversion)
    ensures var core, n := |Assemble(sign, x, p, c.(width := 0))|, |Assemble(sign, x, p, c)|;
      && (n == (if c.width > core then c.width else core) <==> !(c.minus && c.zero && c.width > core))
      && (c.minus && c.zero && c.width > core ==> n == 2 * c.width - core)
  {
  }

  /** With no width asked for there is nothing but the core; otherwise a field is as wide
      as asked, except that zeros and spaces are both filled in when both are asked for. */
  lemma {:induction false} FieldWidth(value: nat, isSigned: bool, negative: bool, b: Base, c: Conversion)
    requires GoodBase(b)
    ensures var core, n := |Field(value, isSigned, negative, b, c.(width := 0))|, |Field(value, isSigned, negative, b, c)|;
      && (n == (if c.width > core then c.width else core) <==> !(c.minus && c.zero && c.width > core))
      && (c.minus && c.zero && c.width > core ==> n == 2 * c.width - core)
  {
    AssembleLength(Sign(isSigned, negative, c), Prefix(value, b, c), Padded(value, b, c), c);
    PaddedWidth(value, b, c);
  }

  lemma {:induction false} PaddedWidth(value: nat, b: Base, c: Conversion)
    requires GoodBase(b)
    ensures Padded(value, b, c.(width := 0)) == Padded(value, b, c)
  {
    assert ZeroCount(|Digits(value, b, c.group, 0)|, c.(width := 0)) == ZeroCount(|Digits(value, b, c.group, 0)|, c);
  }

  /** A width of -3 given for "%0*d" makes the field of 5 five characters wide. */
  lemma {:induction false} ZeroAndMinusOverrun()
    ensures GoodBase(BASE_D)
    ensures Field(5, true, false, BASE_D, Conversion(true, false, false, false, true, false, 3, -1)) == "005  "
  {
    BasesAreGood(BASE_D);
    assert Digits(5, BASE_D, false, 0) == "5";
    assert Dup('0', 2) == "00" && Dup(' ', 2) == "  " && Dup('0', 0) == "";
  }
}
