/** Reading a conversion specification: `parse_conversion` of `lib/stdio.c`. */
module ParseFormat {
  import opened Numbers
  import opened Printf
  import opened Atoi

  datatype ArgType = CHAR | SHORT | INT | INTMAX | LONG | LONGLONG | PTRDIFFT | SIZET

  /** A format ends with a null character. */
  function At(f: string, i: nat): char { if i < |f| then f[i] else '\0' }

  predicate IsFlag(ch: char) { ch in {'-', '+', ' ', '#', '0', '\''} }

  /** The characters from i on that satisfy p end at e. */
  ghost predicate Run(f: string, i: nat, e: nat, p: char -> bool) {
    i <= e && (e <= |f| || e == i) && (forall k :: i <= k < e ==> p(At(f, k))) && !p(At(f, e))
  }

  /** ch occurs between i and e. */
  predicate Occurs(f: string, i: nat, e: nat, ch: char) {
    exists k :: i <= k < e && At(f, k) == ch
  }

  /** A conversion with only its flags set. */
  function FlagsOnly(f: string, i: nat, e: nat): Conversion {
    Conversion(Occurs(f, i, e, '-'), Occurs(f, i, e, '+'), Occurs(f, i, e, ' '), Occurs(f, i, e, '#'),
               Occurs(f, i, e, '0'), Occurs(f, i, e, '\''), 0, -1)
  }

  lemma {:induction false} OneMoreFlag(f: string, i: nat, e: nat, ch: char)
    requires i <= e
    ensures Occurs(f, i, e + 1, ch) == (Occurs(f, i, e, ch) || At(f, e) == ch)
  {
    if Occurs(f, i, e, ch) {
      var k :| i <= k < e && At(f, k) == ch;
      assert i <= k < e + 1;
    }
  }

  /** The loop over flag characters. */
  method ParseFlags(f: string, start: nat) returns (c: Conversion, i: nat)
    ensures Run(f, start, i, IsFlag) && c == FlagsOnly(f, start, i)
  {
    c := Conversion(false, false, false, false, false, false, 0, -1);
    i := start;
    while IsFlag(At(f, i))
      invariant start <= i && (i <= |f| || i == start) && (forall k :: start <= k < i ==> IsFlag(At(f, k))) && c == FlagsOnly(f, start, i)
      decreases |f| - i
    {
      OneMoreFlag(f, start, i, '-');
      OneMoreFlag(f, start, i, '+');
      OneMoreFlag(f, start, i, ' ');
      OneMoreFlag(f, start, i, '#');
      OneMoreFlag(f, start, i, '0');
      OneMoreFlag(f, start, i, '\'');
      match At(f, i) {
        case '-' => c := c.(minus := true);
        case '+' => c := c.(plus := true);
        case ' ' => c := c.(space := true);
        case '#' => c := c.(pound := true);
        case '0' => c := c.(zero := true);
        case _ => c := c.(group := true);
      }
      i := i + 1;
    }
  }

  /** A decimal number, which may be empty. */
  method ParseNumber(f: string, start: nat) returns (n: nat, i: nat)
    ensures Run(f, start, i, IsDigit)
    ensures n == if start <= |f| then Number(f[start..], 0) else 0
  {
    n := 0;
    i := start;
    while IsDigit(At(f, i))
      invariant start <= i && (i <= |f| || i == start) && (forall k :: start <= k < i ==> IsDigit(At(f, k)))
      invariant start <= |f| ==> i <= |f| && Number(f[i..], n) == Number(f[start..], 0)
      invariant start > |f| ==> n == 0
      decreases |f| - i
    {
      assert f[i..][1..] == f[i + 1..];
      n := n * 10 + DigitOf(At(f, i));
      i := i + 1;
    }
  }

  /** Field width: a number, or an argument whose sign counts as a minus flag. */
  method ParseWidth(f: string, start: nat, args: seq<int>) returns (width: nat, minus: bool, i: nat, used: nat)
    requires |args| >= 1
    ensures At(f, start) == '*' ==> width == Abs(args[0]) && minus == (args[0] < 0) && i == start + 1 && used == 1
    ensures At(f, start) != '*' ==> !minus && used == 0 && Run(f, start, i, IsDigit)
    ensures At(f, start) != '*' ==> width == if start <= |f| then Number(f[start..], 0) else 0
  {
    minus, used := false, 0;
    if At(f, start) == '*' {
      width, minus, i, used := Abs(args[0]), args[0] < 0, start + 1, 1;
    } else {
      width, i := ParseNumber(f, start);
    }
  }

  /** Precision: -1 if there is none or if it is given as a negative argument. */
  method ParsePrecision(f: string, start: nat, args: seq<int>) returns (precision: int, i: nat)
    requires |args| >= 1
    ensures precision >= -1 && start <= i
    ensures At(f, start) != '.' ==> precision == -1 && i == start
    ensures At(f, start) == '.' && At(f, start + 1) == '*' ==> i == start + 2 && precision == (if args[0] < 0 then -1 else args[0])
    ensures At(f, start) == '.' && At(f, start + 1) != '*' ==> Run(f, start + 1, i, IsDigit) && precision == Number(f[start + 1..], 0)
  {
    precision, i := -1, start;
    if At(f, i) == '.' {
      i := i + 1;
      if At(f, i) == '*' {
        i, precision := i + 1, args[0];
      } else {
        precision, i := ParseNumber(f, i);
      }
      if precision < 0 { precision := -1; }
    }
  }

  /** The length modifier at start is that of ty and ends at i. */
  predicate Modifier(f: string, start: nat, ty: ArgType, i: nat) {
    var a, twice := At(f, start), At(f, start + 1) == At(f, start);
    match ty
    case CHAR => a == 'h' && twice && i == start + 2
    case SHORT => a == 'h' && !twice && i == start + 1
    case LONGLONG => a == 'l' && twice && i == start + 2
    case LONG => a == 'l' && !twice && i == start + 1
    case INTMAX => a == 'j' && i == start + 1
    case PTRDIFFT => a == 't' && i == start + 1
    case SIZET => a == 'z' && i == start + 1
    case INT => a !in {'h', 'j', 'l', 't', 'z'} && i == start
  }

  method ParseType(f: string, start: nat) returns (ty: ArgType, i: nat)
    ensures Modifier(f, start, ty, i)
  {
    ty, i := INT, start + 1;
    match At(f, start) {
      case 'h' => if At(f, i) == 'h' { i := i + 1; ty := CHAR; } else { ty := SHORT; }
      case 'j' => ty := INTMAX;
      case 'l' => if At(f, i) == 'l' { i := i + 1; ty := LONGLONG; } else { ty := LONG; }
      case 't' => ty := PTRDIFFT;
      case 'z' => ty := SIZET;
      case _ => i := i - 1;
    }
  }

  /** The precision given at w ends at p; arg is the argument a star stands for. */
  ghost predicate PrecisionAt(f: string, w: nat, arg: int, precision: int, p: nat) {
    if At(f, w) != '.' then precision == -1 && p == w
    else if At(f, w + 1) == '*' then precision == (if arg < 0 then -1 else arg) && p == w + 2
    else precision == Number(f[w + 1..], 0) && Run(f, w + 1, p, IsDigit)
  }

  /** The conversion at start is c and ty, and ends at i: flags up to e, width up to w,
      precision up to p, length modifier up to i.  A minus or a precision cancels zero
      filling, a plus cancels the space, and a negative width argument counts as a minus
      that cancels nothing. */
  ghost predicate ParsedAs(f: string, start: nat, args: seq<int>, c: Conversion, ty: ArgType, e: nat, w: nat, p: nat, i: nat)
    requires |args| >= 2
  {
    && Normal(c) && Run(f, start, e, IsFlag)
    && c.plus == Occurs(f, start, e, '+') && c.space == (Occurs(f, start, e, ' ') && !Occurs(f, start, e, '+'))
    && c.pound == Occurs(f, start, e, '#') && c.group == Occurs(f, start, e, '\'')
    && c.minus == (Occurs(f, start, e, '-') || (At(f, e) == '*' && args[0] < 0))
    && c.zero == (Occurs(f, start, e, '0') && !Occurs(f, start, e, '-') && c.precision < 0)
    && (if At(f, e) == '*' then c.width == Abs(args[0]) && w == e + 1
        else c.width == (if e <= |f| then Number(f[e..], 0) else 0) && Run(f, e, w, IsDigit))
    && PrecisionAt(f, w, args[if At(f, e) == '*' then 1 else 0], c.precision, p)
    && Modifier(f, p, ty, i)
  }

  method ParseConversion(f: string, start: nat, args: seq<int>)
    returns (c: Conversion, ty: ArgType, i: nat, ghost e: nat, ghost w: nat, ghost p: nat)
    requires |args| >= 2
    ensures ParsedAs(f, start, args, c, ty, e, w, p, i)
  {
    c, i := ParseFlags(f, start);
    e := i;
    if c.minus { c := c.(zero := false); }
    if c.plus { c := c.(space := false); }
    var width, minus, next, used := ParseWidth(f, i, args);
    w := next;
    c := c.(width := width);
    if minus { c := c.(minus := true); }
    var precision;
    precision, i := ParsePrecision(f, next, args[used..]);
    p := i;
    c := c.(precision := precision);
    if precision >= 0 { c := c.(zero := false); }
    ty, i := ParseType(f, i);
  }

  // ---------------------------------------------------------------------
  // Printing and reading back
  // ---------------------------------------------------------------------

  /** snprintf with a format that is one conversion of an int, %d or %i.  Any other format
      is turned down here.  As much of the field as fits is in the buffer, with a null
      behind it. */
  method SnprintfD(buffer: array<char>, bufSize: nat, f: string, args: seq<int>, value: int)
    returns (ok: bool, length: nat, ghost c: Conversion, ghost e: nat)
    requires |args| >= 2 && INT_MIN <= value <= INT_MAX && bufSize <= buffer.Length
    modifies buffer
    ensures At(f, 0) == '%' ==> Run(f, 1, e, IsFlag) && c.group == Occurs(f, 1, e, '\'')
    ensures f in {"%d", "%i"} ==> ok && !c.group && Shown(value, c) == Shown(value, PLAIN)
    ensures ok ==> At(f, 0) == '%' && length == |Shown(value, c)|
    ensures ok && length < bufSize ==> buffer[..length] == Shown(value, c) && buffer[length] == '\0'
  {
    ok, length, c, e := false, 0, PLAIN, 1;
    if At(f, 0) != '%' { return; }
    var conversion, ty, i;
    ghost var w, p;
    conversion, ty, i, e, w, p := ParseConversion(f, 1, args);
    c := conversion;
    if f in {"%d", "%i"} { PlainFormat(f, args, c, ty, e, w, p, i); }
    if ty != INT || At(f, i) !in {'d', 'i'} || i + 1 < |f| { return; }
    var text := FormatInteger(Abs(value), true, value < 0, BASE_D, conversion);
    length := Vsnprintf(buffer, bufSize, text);
    ok := true;
    assert text[..|text|] == text;
  }

  const PLAIN: Conversion := Conversion(false, false, false, false, false, false, 0, -1)

  lemma PlainFormat(f: string, args: seq<int>, c: Conversion, ty: ArgType, e: nat, w: nat, p: nat, i: nat)
    requires |args| >= 2 && f in {"%d", "%i"} && ParsedAs(f, 1, args, c, ty, e, w, p, i)
    ensures c == PLAIN && ty == INT && i == 1
  {
    assert At(f, 1) in {'d', 'i'};
    assert e == 1 by { assert e > 1 ==> IsFlag(At(f, 1)); }
    assert w == 1 by { assert w > 1 ==> IsDigit(At(f, 1)); }
    assert f[1..][0] == f[1];
  }

  /** From a number through its text back to a number.  Whatever the flags, the width and
      the precision of the conversion, if the text fits the buffer then atoi gives the
      number back, except if grouping was asked for and put in a comma. */
  method PrintThenRead(buffer: array<char>, bufSize: nat, f: string, args: seq<int>, value: int)
    returns (back: int, fits: bool, ghost e: nat)
    requires |args| >= 2 && INT_MIN <= value <= INT_MAX && bufSize <= buffer.Length
    modifies buffer
    ensures fits ==> At(f, 0) == '%' && Run(f, 1, e, IsFlag)
    ensures fits ==> (back == value <==> !(Occurs(f, 1, e, '\'') && Abs(value) >= 1000))
    ensures f in {"%d", "%i"} && bufSize >= 12 ==> fits && back == value
  {
    var ok, length;
    ghost var c;
    ok, length, c, e := SnprintfD(buffer, bufSize, f, args, value);
    back, fits := 0, ok && length < bufSize;
    if f in {"%d", "%i"} { ElevenPlaces(value); }
    if fits {
      AtoiUndoesD(value, c);
      back := ReadInt(buffer[..length]);
    }
  }

  /** An int takes at most ten digits and a sign. */
  lemma ElevenPlaces(value: int)
    requires INT_MIN <= value <= INT_MAX
    ensures |Shown(value, PLAIN)| <= 11
  {
    TenDigits(Abs(value), 0, 10);
  }

  lemma {:induction false} TenDigits(v: nat, cnt: nat, k: nat)
    requires v < Pow10(k)
    ensures |Digits(v, BASE_D, false, cnt)| <= k
  {
    if v > 0 {
      DigitsStep(v, false, cnt, "");
      TenDigits(v / 10, cnt + 1, k - 1);
    }
  }

  function Pow10(k: nat): nat { if k == 0 then 1 else 10 * Pow10(k - 1) }
}
