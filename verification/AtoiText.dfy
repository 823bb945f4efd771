/** What `atoi` reads, said of the text: white space, a sign, decimal digits, and the rest. */
module AtoiText {
  import A = Atoi
  import F = PrintfField

  predicate Blank(ch: char) {
    ch == ' ' || 9 <= ch as int <= 13
  }

  predicate Decimal(ch: char) {
    '0' <= ch <= '9'
  }

  predicate AreBlank(s: string) {
    forall i :: 0 <= i < |s| ==> Blank(s[i])
  }

  predicate AreDigits(s: string) {
    forall i :: 0 <= i < |s| ==> Decimal(s[i])
  }

  predicate IsSign(s: string) {
    s == "" || s == "+" || s == "-"
  }

  /** The parts of a text; whatever could belong to an earlier part does. */
  predicate Split(spaces: string, sign: string, digits: string, rest: string) {
    && AreBlank(spaces) && IsSign(sign) && AreDigits(digits)
    && (rest != "" ==> !Decimal(rest[0]))
    && (rest != "" && sign == "" && digits == "" ==> !Blank(rest[0]) && rest[0] != '+' && rest[0] != '-')
  }

  lemma {:induction false} SpacesSkipped(w: string, t: string)
    requires AreBlank(w) && (t != "" ==> !Blank(t[0]))
    ensures A.SkipSpace(w + t) == t
  {
    if w == "" {
      assert w + t == t;
    } else {
      assert (w + t)[1..] == w[1..] + t;
      SpacesSkipped(w[1..], t);
    }
  }

  lemma {:induction false} DigitsNatural(s: string)
    requires AreDigits(s)
    ensures F.ReadIn(s, 10) >= 0
  {
    if s != "" { DigitsNatural(s[..|s| - 1]); }
  }

  lemma {:induction false} DigitsCounted(s: string, t: string)
    requires AreDigits(s)
    ensures F.ReadIn(s, 10) >= 0 && A.Number(s + t, 0) == A.Number(t, F.ReadIn(s, 10))
  {
    DigitsNatural(s);
    if s == "" {
      assert s + t == t;
    } else {
      var r, ch := s[..|s| - 1], s[|s| - 1];
      DigitsCounted(r, [ch] + t);
      assert s + t == r + ([ch] + t);
      assert ([ch] + t)[1..] == t;
    }
  }

  lemma NotSpace(spaces: string, sign: string, digits: string, rest: string)
    requires Split(spaces, sign, digits, rest)
    ensures var t := sign + (digits + rest); t != "" ==> !Blank(t[0])
  {
    var t := sign + (digits + rest);
    assert t != "" ==> t[0] == if sign != "" then sign[0] else if digits != "" then digits[0] else rest[0];
  }

  /** For every text split like this the result is the number that the digits write, with
      that sign; without digits it is zero. */
  lemma {:induction false} AtoiLaw(spaces: string, sign: string, digits: string, rest: string)
    requires Split(spaces, sign, digits, rest)
    ensures A.Atoi(spaces + (sign + (digits + rest))) == (if sign == "-" then -F.ReadIn(digits, 10) else F.ReadIn(digits, 10))
  {
    var u := digits + rest;
    var t := sign + u;
    DigitsCounted(digits, rest);
    if sign != "" {
      assert t[0] == sign[0] && t[1..] == u;
    } else {
      assert t == u;
      if digits == "" { assert u == rest; } else { assert u[0] == digits[0]; }
    }
    NotSpace(spaces, sign, digits, rest);
    SpacesSkipped(spaces, t);
  }

  /** Every text can be split like this. */
  lemma {:induction false} EveryText(s: string) returns (spaces: string, sign: string, digits: string, rest: string)
    ensures Split(spaces, sign, digits, rest) && s == spaces + (sign + (digits + rest))
  {
    if s != "" && Blank(s[0]) {
      var w;
      w, sign, digits, rest := EveryText(s[1..]);
      spaces := [s[0]] + w;
      assert s == [s[0]] + s[1..];
    } else {
      spaces := "";
      sign := if s != "" && (s[0] == '+' || s[0] == '-') then [s[0]] else "";
      var u := s[|sign|..];
      digits, rest := FrontDigits(u);
      assert s == sign + u;
      assert sign == "" && digits == "" ==> rest == s;
    }
  }

  lemma {:induction false} FrontDigits(s: string) returns (digits: string, rest: string)
    ensures AreDigits(digits) && s == digits + rest && (rest != "" ==> !Decimal(rest[0]))
  {
    if s != "" && Decimal(s[0]) {
      var d;
      d, rest := FrontDigits(s[1..]);
      digits := [s[0]] + d;
      assert s == [s[0]] + s[1..];
    } else {
      digits, rest := "", s;
    }
  }
}
