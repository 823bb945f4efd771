/**
 What stripped names and made headers are, said without the functions that strip and make
 them: a name by the prefixes it is put together from, a header by its offsets.
 */
module UstarLayout {
  import opened Options
  import opened Sequences
  import opened Ustar
  import Printf

  // ---------------------------------------------------------------------
  // Names
  // ---------------------------------------------------------------------

  /** "/", "./" or "../" */
  predicate IsPrefix(p: Bytes) {
    p == [SLASH] || p == [DOT, SLASH] || p == [DOT, DOT, SLASH]
  }

  predicate ArePrefixes(ps: seq<Bytes>) {
    forall i :: 0 <= i < |ps| ==> IsPrefix(ps[i])
  }

  function Joined(ps: seq<Bytes>): Bytes {
    if ps == [] then [] else ps[0] + Joined(ps[1..])
  }

  /** t starts with none of them. */
  ghost predicate Social(t: Bytes) {
    forall p :: IsPrefix(p) ==> !(p <= t)
  }

  lemma PrefixFirst(p: Bytes, t: Bytes)
    requires IsPrefix(p)
    ensures Antisocial(p + t) && AfterSlash(p + t) == t
  {
    var s := p + t;
    assert s[|p|..] == t && s[|p| - 1] == SLASH;
    if |p| > 1 { assert s[1..][|p| - 1..] == t && AfterSlash(s) == AfterSlash(s[1..]); }
    if |p| > 2 { assert s[1..][1..][|p| - 2..] == t && AfterSlash(s[1..]) == AfterSlash(s[1..][1..]); }
  }

  lemma SocialIs(t: Bytes)
    ensures Social(t) <==> !Antisocial(t)
  {
    assert IsPrefix([SLASH]) && IsPrefix([DOT, SLASH]) && IsPrefix([DOT, DOT, SLASH]);
  }

  /** Whatever prefixes a name is given, stripping takes exactly them away; when that
      leaves nothing or "..", the result is ".". */
  lemma {:induction false} StripOf(ps: seq<Bytes>, t: Bytes)
    requires ArePrefixes(ps) && Social(t)
    ensures Strip(Joined(ps) + t) == if t == [] || t == [DOT, DOT] then [DOT] else t
  {
    if ps == [] {
      assert [] + t == t;
      SocialIs(t);
    } else {
      StripOf(ps[1..], t);
      var rest := Joined(ps[1..]) + t;
      assert Joined(ps) + t == ps[0] + rest;
      PrefixFirst(ps[0], rest);
    }
  }

  /** Every name is put together from prefixes and a rest that starts with none. */
  lemma {:induction false} Decompose(s: Bytes) returns (ps: seq<Bytes>, t: Bytes)
    ensures ArePrefixes(ps) && Social(t) && s == Joined(ps) + t
    decreases |s|
  {
    SocialIs(s);
    if !Antisocial(s) {
      ps, t := [], s;
    } else {
      var n := if s[0] == SLASH then 1 else if s[1] == SLASH then 2 else 3;
      var p, rest := s[..n], s[n..];
      var qs, u := Decompose(rest);
      ps, t := [p] + qs, u;
      assert ps[1..] == qs;
      assert s == p + rest;
    }
  }

  /** So a name is stripped to its rest; the result is "." exactly if that rest is empty,
      ".." or "."; and a name with no such prefix that is not empty or ".." stays. */
  lemma {:induction false} StripLaw(s: Bytes) returns (ps: seq<Bytes>, t: Bytes)
    ensures ArePrefixes(ps) && Social(t) && s == Joined(ps) + t
    ensures Strip(s) == (if t == [] || t == [DOT, DOT] then [DOT] else t)
    ensures Strip(s) == [DOT] <==> t == [] || t == [DOT, DOT] || t == [DOT]
    ensures Social(s) && s != [] && s != [DOT, DOT] ==> Strip(s) == s
  {
    ps, t := Decompose(s);
    StripOf(ps, t);
    SocialIs(s);
  }

  // ---------------------------------------------------------------------
  // Sums
  // ---------------------------------------------------------------------

  function Total(s: Bytes): nat {
    if s == [] then 0 else Total(s[..|s| - 1]) + s[|s| - 1]
  }

  lemma {:induction false} SumBefore(h: Bytes, n: nat)
    requires n <= CHKSUM && n <= |h|
    ensures Sum(h, n) == Total(h[..n])
  {
    if n > 0 {
      SumBefore(h, n - 1);
      assert h[..n][..n - 1] == h[..n - 1];
    }
  }

  lemma {:induction false} SumInside(h: Bytes, n: nat)
    requires n <= 8 && CHKSUM + n <= |h|
    ensures Sum(h, CHKSUM + n) == Sum(h, CHKSUM) + 32 * n
  {
    if n > 0 { SumInside(h, n - 1); }
  }

  lemma {:induction false} SumBehind(h: Bytes, n: nat)
    requires CHKSUM + 8 + n <= |h|
    ensures Sum(h, CHKSUM + 8 + n) == Sum(h, CHKSUM + 8) + Total(h[CHKSUM + 8..CHKSUM + 8 + n])
  {
    if n > 0 {
      SumBehind(h, n - 1);
      assert h[CHKSUM + 8..CHKSUM + 8 + n][..n - 1] == h[CHKSUM + 8..CHKSUM + 8 + (n - 1)];
    }
  }

  /** The checksum adds up all bytes but the eight of its own field, which count 32 each. */
  lemma {:induction false} SumIs(h: Bytes)
    requires |h| == 512
    ensures Sum(h, 512) == Total(h[..148]) + 8 * 32 + Total(h[156..])
  {
    SumBefore(h, 148);
    SumInside(h, 8);
    SumBehind(h, 356);
    assert h[156..512] == h[156..];
  }

  // ---------------------------------------------------------------------
  // Headers
  // ---------------------------------------------------------------------

  /** The number that octal digits write. */
  function Octal(s: Bytes): int {
    if s == [] then 0 else 8 * Octal(s[..|s| - 1]) + s[|s| - 1] - 48
  }

  lemma {:induction false} OctalOf(v: nat, n: nat)
    requires v < Printf.Pow8(n)
    ensures Octal(Digits(v, n)) == v
  {
    if n > 0 {
      OctalOf(v / 8, n - 1);
      var d := Digits(v, n);
      assert d[..n - 1] == Digits(v / 8, n - 1);
      assert v == 8 * (v / 8) + v % 8;
    }
  }

  predicate AreOctal(s: Bytes) {
    forall i :: 0 <= i < |s| ==> 48 <= s[i] < 56
  }

  /** A field that holds v: octal digits, at least one, and then a space or a null. */
  ghost predicate HoldsNumber(s: Bytes, v: int) {
    v <= 0xFFFF_FFFF && exists n :: DigitsThenEnd(s, n) && Octal(s[..n]) == v
  }

  predicate DigitsThenEnd(s: Bytes, n: int) {
    0 < n < |s| && AreOctal(s[..n]) && (s[n] == 32 || s[n] == 0)
  }

  lemma {:induction false} DigitsParsed(s: Bytes, n: nat)
    requires n <= |s| && AreOctal(s[..n])
    ensures Octal(s[..n]) >= 0
    ensures ParseFrom(s, 0, 0) == if Octal(s[..n]) <= ULONG_MAX then ParseFrom(s, n, Octal(s[..n])) else None
  {
    if n == 0 {
      assert s[..0] == [];
    } else {
      assert s[..n][..n - 1] == s[..n - 1] && s[..n][n - 1] == s[n - 1];
      DigitsParsed(s, n - 1);
    }
  }

  lemma {:induction false} DigitRun(s: Bytes) returns (n: nat)
    ensures n <= |s| && AreOctal(s[..n]) && (n < |s| ==> !(48 <= s[n] < 56))
  {
    n := 0;
    while n < |s| && 48 <= s[n] < 56
      invariant n <= |s| && AreOctal(s[..n])
    {
      assert s[..n + 1] == s[..n] + [s[n]];
      n := n + 1;
    }
  }

  /** A field is parsed as v exactly if it holds v. */
  lemma {:induction false} OctalLaw(s: Bytes, v: nat)
    ensures ParseFrom(s, 0, 0) == Some(v) <==> HoldsNumber(s, v)
  {
    if HoldsNumber(s, v) {
      var n :| DigitsThenEnd(s, n) && Octal(s[..n]) == v;
      DigitsParsed(s, n);
    }
    if ParseFrom(s, 0, 0) == Some(v) {
      var n := DigitRun(s);
      DigitsParsed(s, n);
      assert DigitsThenEnd(s, n);
    }
  }

  /** The bytes of h from o on are b. */
  ghost predicate At(h: Bytes, o: nat, b: Bytes) {
    o + |b| <= |h| && forall i :: 0 <= i < |b| ==> h[o + i] == b[i]
  }

  ghost predicate Blank(h: Bytes, lo: nat, hi: nat) {
    hi <= |h| && forall i :: lo <= i < hi ==> h[i] == 0
  }

  /** From o on there are n octal digits that write v, and then a null. */
  ghost predicate Numeral(h: Bytes, o: nat, n: nat, v: int) {
    && o + n < |h| && h[o + n] == 0
    && (forall i :: o <= i < o + n ==> 48 <= h[i] < 56)
    && Octal(h[o..o + n]) == v
  }

  lemma {:induction false} NumeralAt(h: Bytes, o: nat, n: nat, v: nat)
    requires o + n < |h| && h[o + n] == 0 && At(h, o, Digits(v, n)) && v < Printf.Pow8(n)
    ensures Numeral(h, o, n, v)
  {
    OctalOf(v, n);
    var d := Digits(v, n);
    assert h[o..o + n] == d;
    forall i | o <= i < o + n ensures 48 <= h[i] < 56 { assert h[o + (i - o)] == d[i - o]; }
  }

  /** What is in front of the checksum. */
  ghost predicate Front(h: Bytes, name: Bytes, ty: Byte, size: int) {
    && At(h, 0, name) && Blank(h, |name|, 100)
    && Numeral(h, 100, 7, if ty == 48 then 420 else 493) && Numeral(h, 108, 7, 0) && Numeral(h, 116, 7, 0)
    && Numeral(h, 124, 11, if size < 0 then size + 0x1_0000_0000 else size) && Numeral(h, 136, 11, 1136102400)
  }

  /** And what is behind it. */
  ghost predicate Behind(h: Bytes, ty: Byte) {
    && |h| == 512 && h[156] == ty && Blank(h, 157, 257)
    && At(h, 257, [117, 115, 116, 97, 114, 0, 48, 48])
    && At(h, 265, [114, 111, 111, 116]) && Blank(h, 269, 297) && At(h, 297, [114, 111, 111, 116]) && Blank(h, 301, 512)
  }

  lemma FrontAt(name: Bytes, ty: Byte, size: int)
    requires |name| <= 99 && -0x8000_0000 <= size < 0x8000_0000
    ensures var h := Unsummed(name, ty, size);
      && At(h, 0, name) && Blank(h, |name|, 100)
      && At(h, 100, Digits(if ty == REGULAR then 420 else 493, 7)) && h[107] == 0
      && At(h, 108, Digits(0, 7)) && h[115] == 0 && At(h, 116, Digits(0, 7)) && h[123] == 0
      && At(h, 124, Digits(Unsigned(size), 11)) && h[135] == 0 && At(h, 136, Digits(1136102400, 11)) && h[147] == 0
  {
  }

  lemma {:induction false} UnsummedFront(name: Bytes, ty: Byte, size: int)
    requires |name| <= 99 && -0x8000_0000 <= size < 0x8000_0000
    ensures Front(Unsummed(name, ty, size), name, ty, size)
  {
    var h := Unsummed(name, ty, size);
    Pow8Values();
    FrontAt(name, ty, size);
    NumeralAt(h, 100, 7, if ty == REGULAR then 420 else 493);
    NumeralAt(h, 108, 7, 0);
    NumeralAt(h, 116, 7, 0);
    NumeralAt(h, 124, 11, Unsigned(size));
    NumeralAt(h, 136, 11, 1136102400);
  }

  lemma UnsummedBehind(name: Bytes, ty: Byte, size: int)
    requires |name| <= 99 && -0x8000_0000 <= size < 0x8000_0000
    ensures Behind(Unsummed(name, ty, size), ty) && Unsummed(name, ty, size)[155] == 0
  {
  }

  lemma NumeralKept(g: Bytes, h: Bytes, o: nat, n: nat, v: int)
    requires Numeral(g, o, n, v) && o + n < |h| && h[..o + n + 1] == g[..o + n + 1]
    ensures Numeral(h, o, n, v)
  {
    forall i | 0 <= i <= o + n ensures h[i] == g[i] { assert h[..o + n + 1][i] == g[..o + n + 1][i]; }
    assert h[o..o + n] == g[o..o + n];
  }

  lemma FrontKept(g: Bytes, h: Bytes, name: Bytes, ty: Byte, size: int)
    requires Front(g, name, ty, size) && |g| == 512 == |h| && h[..148] == g[..148] && |name| <= 99 && -0x8000_0000 <= size < 0x8000_0000
    ensures Front(h, name, ty, size)
  {
    forall i | 0 <= i < 148 ensures h[i] == g[i] { assert h[..148][i] == g[..148][i]; }
    NumeralKept(g, h, 100, 7, if ty == 48 then 420 else 493);
    NumeralKept(g, h, 108, 7, 0);
    NumeralKept(g, h, 116, 7, 0);
    NumeralKept(g, h, 124, 11, if size < 0 then size + 0x1_0000_0000 else size);
    NumeralKept(g, h, 136, 11, 1136102400);
  }

  lemma BehindKept(g: Bytes, h: Bytes, ty: Byte)
    requires Behind(g, ty) && |h| == 512 && h[155..] == g[155..]
    ensures Behind(h, ty) && h[155] == g[155]
  {
    forall i | 155 <= i < 512 ensures h[i] == g[i] { assert h[155..][i - 155] == g[155..][i - 155]; }
  }

  /** Only the checksum field is still to be filled in. */
  lemma MadeFrom(name: Bytes, ty: Byte, size: int)
    requires |name| <= 99 && -0x8000_0000 <= size < 0x8000_0000
    ensures var g, h := Unsummed(name, ty, size), Made(name, ty, size);
      h[..148] == g[..148] && h[155..] == g[155..] && Sum(h, SIZE) == Sum(g, SIZE) && At(h, 148, Digits(Sum(g, SIZE), 7))
  {
    SumIgnoresField(Unsummed(name, ty, size), Made(name, ty, size), SIZE);
  }

  /** Every byte of a header, by its offset in the format. */
  lemma {:induction false} HeaderLaw(name: Bytes, ty: Byte, size: int)
    requires |name| <= 99 && -0x8000_0000 <= size < 0x8000_0000
    ensures var h := Made(name, ty, size);
      Front(h, name, ty, size) && Numeral(h, 148, 7, Total(h[..148]) + 8 * 32 + Total(h[156..])) && Behind(h, ty)
  {
    var g, h := Unsummed(name, ty, size), Made(name, ty, size);
    MadeFrom(name, ty, size);
    UnsummedFront(name, ty, size);
    FrontKept(g, h, name, ty, size);
    UnsummedBehind(name, ty, size);
    BehindKept(g, h, ty);
    ChecksumField(h, Sum(g, SIZE));
  }

  lemma {:induction false} ChecksumField(h: Bytes, v: nat)
    requires |h| == 512 && h[155] == 0 && v == Sum(h, SIZE) && At(h, 148, Digits(v, 7))
    ensures Numeral(h, 148, 7, Total(h[..148]) + 8 * 32 + Total(h[156..]))
  {
    SumIs(h);
    Pow8Values();
    NumeralAt(h, 148, 7, v);
  }

  // ---------------------------------------------------------------------
  // Parsing
  // ---------------------------------------------------------------------

  /** What a header must be for an entry: magic and version, a correct checksum, a name
      and a type that are supported. */
  ghost predicate IsEntry(h: Bytes)
    requires |h| == 512
  {
    && At(h, 257, [117, 115, 116, 97, 114, 0, 48, 48])
    && HoldsNumber(h[148..156], Total(h[..148]) + 8 * 32 + Total(h[156..]))
    && h[99] == 0 && h[345] == 0 && (h[156] == 48 || h[156] == 53)
  }

  /** n is where the first null of h is. */
  ghost predicate FirstNull(h: Bytes, n: nat) {
    n < |h| && h[n] == 0 && forall i :: 0 <= i < n ==> h[i] != 0
  }

  lemma {:induction false} NameTo(h: Bytes, i: nat, n: nat)
    requires FirstNull(h, n) && i <= n < 100 <= |h|
    ensures StringIn(h, i, 100) == h[i..n]
    decreases n - i
  {
    if i < n {
      NameTo(h, i + 1, n);
      assert h[i..n] == [h[i]] + h[i + 1..n];
    }
  }

  lemma MagicIs(h: Bytes)
    requires |h| == 512
    ensures h[MAGIC..MAGIC + 6] == USTAR + [0] && h[VERSION] == ZERO && h[VERSION + 1] == ZERO <==> At(h, 257, [117, 115, 116, 97, 114, 0, 48, 48])
  {
    var m := [117, 115, 116, 97, 114, 0, 48, 48];
    if At(h, 257, m) {
      assert h[257] == m[0] && h[258] == m[1] && h[259] == m[2] && h[260] == m[3] && h[261] == m[4] && h[262] == m[5];
      assert h[257 + 6] == m[6] && h[257 + 7] == m[7];
      assert h[257..263] == USTAR + [0];
    }
    if h[MAGIC..MAGIC + 6] == USTAR + [0] {
      var g := h[257..263];
      forall i | 0 <= i < 6 ensures h[257 + i] == m[i] { assert g[i] == h[257 + i]; }
    }
  }

  lemma {:induction false} FindNull(h: Bytes, i: nat, end: nat) returns (n: nat)
    requires i <= end < |h| && h[end] == 0 && forall k :: 0 <= k < i ==> h[k] != 0
    ensures n <= end && FirstNull(h, n)
    decreases end - i
  {
    if h[i] == 0 { n := i; } else { n := FindNull(h, i + 1, end); }
  }

  /** A block of zeros ends the archive.  Another is an entry exactly if it is well formed
      and, for a regular file, its size is a number below 2^31; name, type and size are then
      those in the header. */
  lemma {:induction false} ParseLaw(h: Bytes, size: nat) returns (n: nat)
    requires |h| == 512
    ensures Parse(h).EndOfArchive? <==> Blank(h, 0, 512)
    ensures IsEntry(h) ==> n < 100 && FirstNull(h, n)
    ensures IsEntry(h) && h[156] == 48 && HoldsNumber(h[124..136], size) && size < 0x8000_0000 ==>
      Parse(h) == Entry(Strip(h[..n]), 48, size)
    ensures IsEntry(h) && h[156] == 53 ==> Parse(h) == Entry(Strip(h[..n]), 53, 0)
    ensures Parse(h).Entry? ==> IsEntry(h)
    ensures Parse(h).Entry? && h[156] == 48 ==> Parse(h).size < 0x8000_0000 && HoldsNumber(h[124..136], Parse(h).size)
  {
    MagicIs(h);
    SumIs(h);
    OctalLaw(h[148..156], Sum(h, SIZE));
    OctalLaw(h[124..136], size);
    if Parse(h).Entry? && h[156] == 48 { OctalLaw(h[124..136], Parse(h).size); }
    n := 0;
    if h[99] == 0 {
      n := FindNull(h, 0, 99);
      NameTo(h, 0, n);
    }
  }
}
