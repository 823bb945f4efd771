/** Headers of ustar archives: `lib/ustar.c`.  A header is 512 bytes. */
module Ustar {
  import opened Options
  import opened Sequences
  import Printf

  const SIZE: nat := 512
  const SLASH: Byte := 47
  const DOT: Byte := 46
  const SPACE: Byte := 32
  const ZERO: Byte := 48
  const REGULAR: Byte := 48
  const DIRECTORY: Byte := 53

  // Offsets of the fields.
  const MODE: nat := 100
  const UID: nat := 108
  const GID: nat := 116
  const FILE_SIZE: nat := 124
  const MTIME: nat := 136
  const CHKSUM: nat := 148
  const TYPEFLAG: nat := 156
  const MAGIC: nat := 257
  const VERSION: nat := 263
  const UNAME: nat := 265
  const GNAME: nat := 297
  const PREFIX: nat := 345

  const USTAR: Bytes := [117, 115, 116, 97, 114]
  const ROOT: Bytes := [114, 111, 111, 116]

  // ---------------------------------------------------------------------
  // The checksum
  // ---------------------------------------------------------------------

  /** What byte i of a header counts for: the checksum field counts as spaces. */
  function Weight(h: Bytes, i: nat): Byte
    requires i < |h|
  {
    if CHKSUM <= i < CHKSUM + 8 then SPACE else h[i]
  }

  /** The sum over the first n bytes. */
  function Sum(h: Bytes, n: nat): (r: nat)
    requires n <= |h|
    ensures r <= 255 * n
  {
    if n == 0 then 0 else Sum(h, n - 1) + Weight(h, n - 1)
  }

  method CalculateChksum(h: Bytes) returns (chksum: nat)
    requires |h| == SIZE
    ensures chksum == Sum(h, SIZE)
  {
    chksum := 0;
    for i := 0 to SIZE
      invariant chksum == Sum(h, i)
    {
      var inField := i >= CHKSUM && i < CHKSUM + 8;
      chksum := chksum + if inField then SPACE else h[i];
    }
  }

  /** Changing one byte outside the field changes the sum by as much. */
  lemma {:induction false} SumChanged(h: Bytes, i: nat, b: Byte, n: nat)
    requires i < |h| && n <= |h| && !(CHKSUM <= i < CHKSUM + 8)
    ensures Sum(h[i := b], n) == Sum(h, n) + if i < n then b - h[i] else 0
  {
    if n > 0 { SumChanged(h, i, b, n - 1); }
  }

  /** The field itself does not count. */
  lemma {:induction false} SumIgnoresField(h: Bytes, g: Bytes, n: nat)
    requires |h| == |g| && n <= |h| && forall i :: 0 <= i < |h| && !(CHKSUM <= i < CHKSUM + 8) ==> h[i] == g[i]
    ensures Sum(h, n) == Sum(g, n)
  {
    if n > 0 { SumIgnoresField(h, g, n - 1); }
  }

  // ---------------------------------------------------------------------
  // Octal fields
  // ---------------------------------------------------------------------


  const ULONG_MAX: nat := 0xFFFF_FFFF

  /** n octal digits, as "%0no" prints them. */
  function Digits(v: nat, n: nat): (s: Bytes)
    ensures |s| == n && forall i :: 0 <= i < n ==> ZERO <= s[i] < ZERO + 8
  {
    if n == 0 then [] else Digits(v / 8, n - 1) + [ZERO + v % 8]
  }

  /** parse_octal_field from byte i on, with v read so far. */
  function ParseFrom(s: Bytes, i: nat, v: nat): Option<nat>
    requires i <= |s|
    decreases |s| - i
  {
    if i == |s| then None
    else if ZERO <= s[i] < ZERO + 8 then
      if v > ULONG_MAX / 8 then None else ParseFrom(s, i + 1, 8 * v + (s[i] - ZERO))
    else if s[i] == SPACE || s[i] == 0 then (if i > 0 then Some(v) else None)
    else None
  }

  method ParseOctalField(s: Bytes) returns (r: Option<nat>)
    ensures r == ParseFrom(s, 0, 0)
  {
    var value: nat := 0;
    for ofs := 0 to |s|
      invariant ParseFrom(s, 0, 0) == ParseFrom(s, ofs, value)
    {
      var c := s[ofs];
      if ZERO <= c < ZERO + 8 {
        if value > ULONG_MAX / 8 { return None; }
        value := c - ZERO + value * 8;
      } else if c == SPACE || c == 0 {
        return if ofs > 0 then Some(value) else None;
      } else {
        return None;
      }
    }
    return None;
  }

  // The conversion "%0no": filled with zeros up to n.
  function ZeroFilled(n: nat): Printf.Conversion {
    Printf.Conversion(false, false, false, false, true, false, n, -1)
  }

  /** The characters of t are the bytes of s. */
  ghost predicate Spells(t: string, s: Bytes) {
    |t| == |s| && forall i :: 0 <= i < |t| ==> t[i] as int == s[i]
  }

  lemma {:induction false} OctalDigits(v: nat, n: nat, cnt: nat)
    requires v < Printf.Pow8(n)
    ensures var d := Printf.Digits(v, Printf.BASE_O, false, cnt);
      |d| <= n && Spells(Printf.Dup('0', n - |d|) + d, Digits(v, n))
    decreases n
  {
    if n > 0 {
      OctalDigits(v / 8, n - 1, cnt + 1);
      var d := Printf.Digits(v, Printf.BASE_O, false, cnt);
      if v == 0 {
        assert Printf.Dup('0', n) + "" == (Printf.Dup('0', n - 1) + "") + ['0'];
      } else {
        var e, ch := Printf.Digits(v / 8, Printf.BASE_O, false, cnt + 1), Printf.BASE_O.digits[v % 8];
        OctalChar(v % 8);
        assert d == e + [ch];
        assert Printf.Dup('0', n - |d|) + d == (Printf.Dup('0', n - 1 - |e|) + e) + [ch];
      }
    }
  }

  lemma OctalChar(d: nat)
    requires d < 8
    ensures Printf.BASE_O.digits[d] as int == ZERO + d
  {
  }

  /** Digits are what the formatter prints. */
  lemma {:induction false} DigitsArePrinted(v: nat, n: nat)
    requires v < Printf.Pow8(n) && n > 0
    ensures Spells(Printf.Field(v, false, false, Printf.BASE_O, ZeroFilled(n)), Digits(v, n))
  {
    OctalDigits(v, n, 0);
    var d := Printf.Digits(v, Printf.BASE_O, false, 0);
    var k := if d == "" then 1 else 0;
    FilledField(d, k, n);
    assert Printf.Padded(v, Printf.BASE_O, ZeroFilled(n)) == Printf.Dup('0', k) + d;
    assert Printf.Sign(false, false, ZeroFilled(n)) == "" == Printf.Prefix(v, Printf.BASE_O, ZeroFilled(n));
  }

  lemma FilledField(d: string, k: nat, n: nat)
    requires k + |d| <= n
    ensures Printf.Assemble("", "", Printf.Dup('0', k) + d, ZeroFilled(n)) == Printf.Dup('0', n - |d|) + d
  {
    var p := Printf.Dup('0', k) + d;
    var z := Printf.Dup('0', n - |p|);
    assert Printf.PadCount("", "", p, ZeroFilled(n)) == n - |p|;
    assert "" + "" + "" + z + p + "" == z + p;
    assert z + p == Printf.Dup('0', n - |d|) + d;
  }

  /** Digits are read back as the number they stand for. */
  lemma {:induction false} DigitsRead(s: Bytes, v: nat, n: nat)
    requires v <= ULONG_MAX && v < Printf.Pow8(n) && n <= |s| && s[..n] == Digits(v, n)
    ensures ParseFrom(s, 0, 0) == ParseFrom(s, n, v)
  {
    if n > 0 {
      var d := Digits(v, n);
      assert s[..n - 1] == s[..n][..n - 1] == Digits(v / 8, n - 1);
      DigitsRead(s, v / 8, n - 1);
      assert s[n - 1] == s[..n][n - 1] == ZERO + v % 8;
      assert 8 * (v / 8) + v % 8 == v;
    }
  }

  /** A field holds what was printed into it. */
  lemma {:induction false} FieldRead(s: Bytes, v: nat, n: nat)
    requires v <= ULONG_MAX && v < Printf.Pow8(n) && 0 < n < |s| && s[..n] == Digits(v, n) && s[n] == 0
    ensures ParseFrom(s, 0, 0) == Some(v)
  {
    DigitsRead(s, v, n);
  }

  lemma {:induction false} Pow8Values()
    ensures Printf.Pow8(7) == 2097152 && Printf.Pow8(11) == 8589934592
  {
    assert Printf.Pow8(2) == 64;
    assert Printf.Pow8(4) == 64 * Printf.Pow8(2);
    assert Printf.Pow8(6) == 64 * Printf.Pow8(4);
    assert Printf.Pow8(7) == 8 * Printf.Pow8(6);
    assert Printf.Pow8(9) == 64 * Printf.Pow8(7);
    assert Printf.Pow8(11) == 64 * Printf.Pow8(9);
  }

  // ---------------------------------------------------------------------
  // File names
  // ---------------------------------------------------------------------

  /** The name starts with "/", "./" or "../". */
  predicate Antisocial(s: Bytes) {
    [SLASH] <= s || [DOT, SLASH] <= s || [DOT, DOT, SLASH] <= s
  }

  /** What follows the first slash. */
  function AfterSlash(s: Bytes): (r: Bytes)
    ensures SLASH in s ==> |r| < |s|
  {
    if s == [] then [] else if s[0] == SLASH then s[1..] else AfterSlash(s[1..])
  }

  function Strip(s: Bytes): Bytes
    decreases |s|
  {
    if Antisocial(s) then
      SlashInside(s);
      Strip(AfterSlash(s))
    else if s == [] || s == [DOT, DOT] then [DOT] else s
  }

  lemma SlashInside(s: Bytes)
    requires Antisocial(s)
    ensures SLASH in s
  {
    if [SLASH] <= s { assert s[0] == SLASH; }
    else if [DOT, SLASH] <= s { assert s[1] == SLASH; }
    else { assert s[2] == SLASH; }
  }

  method StripAntisocialPrefixes(name: Bytes) returns (r: Bytes)
    ensures r == Strip(name)
  {
    r := name;
    while Antisocial(r)
      invariant Strip(r) == Strip(name)
      decreases |r|
    {
      SlashInside(r);
      r := AfterSlash(r);
    }
    if r == [] || r == [DOT, DOT] { r := [DOT]; }
  }

  /** A stripped name does not climb, is not empty, and is not stripped further. */
  lemma {:induction false} StripIs(s: Bytes)
    ensures !Antisocial(Strip(s)) && Strip(s) != [] && Strip(s) != [DOT, DOT]
    ensures Strip(Strip(s)) == Strip(s)
    decreases |s|
  {
    assert [DOT][0] != SLASH;
    if Antisocial(s) {
      SlashInside(s);
      StripIs(AfterSlash(s));
    }
  }

  predicate IsSuffix(t: Bytes, s: Bytes) {
    |t| <= |s| && s[|s| - |t|..] == t
  }

  lemma SuffixOfSuffix(u: Bytes, t: Bytes, s: Bytes)
    requires IsSuffix(u, t) && IsSuffix(t, s)
    ensures IsSuffix(u, s)
  {
    var n := |s| - |t|;
    assert s[n..][|t| - |u|..] == s[n + (|t| - |u|)..];
  }

  /** And it is a suffix of the name, unless nothing was left of it. */
  lemma {:induction false} StripIsSuffix(s: Bytes)
    ensures Strip(s) == [DOT] || IsSuffix(Strip(s), s)
    decreases |s|
  {
    if Antisocial(s) {
      SlashInside(s);
      var r := AfterSlash(s);
      StripIsSuffix(r);
      AfterIsSuffix(s);
      if Strip(r) != [DOT] { SuffixOfSuffix(Strip(r), r, s); }
    } else {
      assert s[0..] == s;
    }
  }

  lemma {:induction false} AfterIsSuffix(s: Bytes)
    ensures IsSuffix(AfterSlash(s), s)
  {
    if s != [] && s[0] != SLASH {
      AfterIsSuffix(s[1..]);
      var r := AfterSlash(s);
      assert s[1..][|s| - 1 - |r|..] == s[|s| - |r|..];
    }
  }

  // ---------------------------------------------------------------------
  // Making a header
  // ---------------------------------------------------------------------

  /** h with b written at ofs. */
  function Put(h: Bytes, ofs: nat, b: Bytes): (r: Bytes)
    requires ofs + |b| <= |h|
    ensures |r| == |h|
    ensures forall i {:trigger r[i]} :: 0 <= i < |h| ==> r[i] == if ofs <= i < ofs + |b| then b[i - ofs] else h[i]
  {
    h[..ofs] + b + h[ofs + |b|..]
  }

  /** An int as an unsigned number. */
  function Unsigned(x: int): nat
    requires -0x8000_0000 <= x < 0x8000_0000
  {
    if x < 0 then x + 0x1_0000_0000 else x
  }

  /** A header before its checksum is filled in. */
  function Unsummed(name: Bytes, ty: Byte, size: int): (h: Bytes)
    requires |name| <= 99 && -0x8000_0000 <= size < 0x8000_0000
    ensures |h| == SIZE
  {
    var h0 := Put(Zeros(SIZE), 0, name);
    var h1 := Put(h0, MODE, Digits(if ty == REGULAR then 420 else 493, 7));
    var h2 := Put(h1, UID, Digits(0, 7));
    var h3 := Put(h2, GID, Digits(0, 7));
    var h4 := Put(h3, FILE_SIZE, Digits(Unsigned(size), 11));
    var h5 := Put(h4, MTIME, Digits(1136102400, 11));
    var h6 := Put(h5, TYPEFLAG, [ty]);
    var h7 := Put(h6, MAGIC, USTAR);
    var h8 := Put(h7, VERSION, [ZERO, ZERO]);
    Put(Put(h8, GNAME, ROOT), UNAME, ROOT)
  }

  function Made(name: Bytes, ty: Byte, size: int): (h: Bytes)
    requires |name| <= 99 && -0x8000_0000 <= size < 0x8000_0000
    ensures |h| == SIZE
  {
    var h := Unsummed(name, ty, size);
    Put(h, CHKSUM, Digits(Sum(h, SIZE), 7))
  }

  /** memset, strlcpy and snprintf all come down to this. */
  method Store(header: array<Byte>, ofs: nat, b: Bytes)
    requires ofs + |b| <= header.Length
    modifies header
    ensures header[..] == Put(old(header[..]), ofs, b)
  {
    for i := 0 to |b|
      invariant forall k :: 0 <= k < header.Length ==> header[k] == if ofs <= k < ofs + i then b[k - ofs] else old(header[k])
    {
      header[ofs + i] := b[i];
    }
  }

  /** Fails exactly if the stripped name is too long, and then writes nothing. */
  method MakeHeader(name: Bytes, ty: Byte, size: int, header: array<Byte>) returns (ok: bool)
    requires header.Length == SIZE && ty in {REGULAR, DIRECTORY} && -0x8000_0000 <= size < 0x8000_0000
    modifies header
    ensures ok <==> |Strip(name)| <= 99
    ensures ok ==> header[..] == Made(Strip(name), ty, size)
    ensures !ok ==> header[..] == old(header[..])
  {
    var stripped := StripAntisocialPrefixes(name);
    if |stripped| > 99 { return false; }
    Store(header, 0, Zeros(SIZE));
    assert header[..] == Zeros(SIZE);
    Store(header, 0, stripped);
    Store(header, MODE, Digits(if ty == REGULAR then 420 else 493, 7));
    Store(header, UID, Digits(0, 7));
    Store(header, GID, Digits(0, 7));
    Store(header, FILE_SIZE, Digits(Unsigned(size), 11));
    Store(header, MTIME, Digits(1136102400, 11));
    Store(header, TYPEFLAG, [ty]);
    Store(header, MAGIC, USTAR);
    Store(header, VERSION, [ZERO, ZERO]);
    Store(header, GNAME, ROOT);
    Store(header, UNAME, ROOT);
    var sum := CalculateChksum(header[..]);
    Store(header, CHKSUM, Digits(sum, 7));
    return true;
  }

  // ---------------------------------------------------------------------
  // Parsing one
  // ---------------------------------------------------------------------

  datatype Parsed = Rejected(reason: string) | EndOfArchive | Entry(name: Bytes, ty: Byte, size: nat)

  /** The string that starts at ofs and ends before end at the latest. */
  function StringIn(h: Bytes, ofs: nat, end: nat): Bytes
    requires ofs <= end <= |h|
    decreases end - ofs
  {
    if ofs < end && h[ofs] != 0 then [h[ofs]] + StringIn(h, ofs + 1, end) else []
  }

  predicate AllZeros(h: Bytes) {
    forall i :: 0 <= i < |h| ==> h[i] == 0
  }

  function Parse(h: Bytes): Parsed
    requires |h| == SIZE
  {
    if AllZeros(h) then EndOfArchive
    else if h[MAGIC..MAGIC + 6] != USTAR + [0] then Rejected("not a ustar archive")
    else if h[VERSION] != ZERO || h[VERSION + 1] != ZERO then Rejected("invalid ustar version")
    else
      var chksum := ParseFrom(h[CHKSUM..CHKSUM + 8], 0, 0);
      if chksum.None? then Rejected("corrupt chksum field")
      else if chksum.value != Sum(h, SIZE) then Rejected("checksum mismatch")
      else if h[99] != 0 || h[PREFIX] != 0 then Rejected("file name too long")
      else if h[TYPEFLAG] != REGULAR && h[TYPEFLAG] != DIRECTORY then Rejected("unimplemented file type")
      else
        var size := if h[TYPEFLAG] == REGULAR then ParseFrom(h[FILE_SIZE..FILE_SIZE + 12], 0, 0) else Some(0);
        if size.None? then Rejected("corrupt file size field")
        else if size.value > 0x7FFF_FFFF then Rejected("file too large")
        else Entry(Strip(StringIn(h, 0, 100)), h[TYPEFLAG], size.value)
  }

  /** An archive entry with one byte changed, outside the checksum, is rejected. */
  lemma OneByteWrong(h: Bytes, i: nat, b: Byte)
    requires |h| == SIZE && !Parse(h).Rejected? && i < SIZE && !(CHKSUM <= i < CHKSUM + 8) && b != h[i]
    ensures Parse(h[i := b]).Rejected?
  {
    var g := h[i := b];
    SumChanged(h, i, b, SIZE);
    assert g[CHKSUM..CHKSUM + 8] == h[CHKSUM..CHKSUM + 8];
    if AllZeros(h) {
      assert g[i] != 0;
      NotMagic(h, i, b);
    } else {
      MagicThere(h, i, b);
    }
  }

  /** One byte makes no magic number out of zeros. */
  lemma NotMagic(h: Bytes, i: nat, b: Byte)
    requires |h| == SIZE && AllZeros(h) && i < SIZE
    ensures h[i := b][MAGIC..MAGIC + 6] != USTAR + [0]
  {
    var g := h[i := b];
    assert g[MAGIC..MAGIC + 6][0] == g[MAGIC] && g[MAGIC..MAGIC + 6][1] == g[MAGIC + 1];
  }

  /** And takes no whole magic number away. */
  lemma MagicThere(h: Bytes, i: nat, b: Byte)
    requires |h| == SIZE && h[MAGIC..MAGIC + 6] == USTAR + [0] && i < SIZE
    ensures !AllZeros(h[i := b])
  {
    var g := h[i := b];
    assert h[MAGIC..MAGIC + 6][0] == h[MAGIC] && h[MAGIC..MAGIC + 6][1] == h[MAGIC + 1];
    assert g[MAGIC] != 0 || g[MAGIC + 1] != 0;
  }

  // ---------------------------------------------------------------------
  // Making and parsing undo each other
  // ---------------------------------------------------------------------

  /** The fields of a header that parsing looks at. */
  ghost predicate HasFields(h: Bytes, name: Bytes, ty: Byte, size: int)
    requires |h| == SIZE && |name| <= 99 && -0x8000_0000 <= size < 0x8000_0000
  {
    && h[..|name|] == name && h[|name|] == 0 && h[99] == 0
    && h[FILE_SIZE..FILE_SIZE + 12] == Digits(Unsigned(size), 11) + [0]
    && h[TYPEFLAG] == ty && h[MAGIC..MAGIC + 6] == USTAR + [0]
    && h[VERSION] == ZERO && h[VERSION + 1] == ZERO && h[PREFIX] == 0
  }

  lemma UnsummedFields(name: Bytes, ty: Byte, size: int)
    requires |name| <= 99 && -0x8000_0000 <= size < 0x8000_0000
    ensures HasFields(Unsummed(name, ty, size), name, ty, size) && Unsummed(name, ty, size)[CHKSUM + 7] == 0
  {
    var h := Unsummed(name, ty, size);
    forall i | 0 <= i < 100 ensures h[i] == if i < |name| then name[i] else 0 {}
    var d := Digits(Unsigned(size), 11) + [0];
    forall i | 0 <= i < 12 ensures h[FILE_SIZE + i] == d[i] {}
    var m := USTAR + [0];
    forall i | 0 <= i < 6 ensures h[MAGIC + i] == m[i] {}
    assert h[FILE_SIZE..FILE_SIZE + 12] == d;
    assert h[MAGIC..MAGIC + 6] == m;
  }

  lemma {:induction false} MadeFields(name: Bytes, ty: Byte, size: int)
    requires |name| <= 99 && -0x8000_0000 <= size < 0x8000_0000
    ensures HasFields(Made(name, ty, size), name, ty, size)
    ensures var h := Made(name, ty, size); h[CHKSUM..CHKSUM + 8] == Digits(Sum(h, SIZE), 7) + [0]
  {
    var g, h := Unsummed(name, ty, size), Made(name, ty, size);
    UnsummedFields(name, ty, size);
    SumIgnoresField(g, h, SIZE);
    var d := Digits(Sum(g, SIZE), 7) + [0];
    assert forall i :: 0 <= i < CHKSUM || CHKSUM + 7 <= i < SIZE ==> h[i] == g[i];
    assert h[..|name|] == g[..|name|];
    assert h[FILE_SIZE..FILE_SIZE + 12] == g[FILE_SIZE..FILE_SIZE + 12];
    assert h[MAGIC..MAGIC + 6] == g[MAGIC..MAGIC + 6];
    assert h[CHKSUM..CHKSUM + 8] == d;
  }

  lemma {:induction false} NameRead(h: Bytes, name: Bytes, i: nat)
    requires |h| == SIZE && |name| <= 99 && i <= |name| && h[..|name|] == name && h[|name|] == 0 && IsString(name)
    ensures StringIn(h, i, 100) == name[i..]
    decreases |name| - i
  {
    if i < |name| {
      NameRead(h, name, i + 1);
      assert h[i] == h[..|name|][i] == name[i];
      assert name[i..] == [name[i]] + name[i + 1..];
    }
  }

  /** The name comes back stripped, with the type and the size; a regular file of negative
      size is refused, and a directory's size comes back as zero. */
  lemma {:induction false} RoundTrip(name: Bytes, ty: Byte, size: int)
    requires IsString(name) && ty in {REGULAR, DIRECTORY} && -0x8000_0000 <= size < 0x8000_0000
    requires |Strip(name)| <= 99
    ensures Parse(Made(Strip(name), ty, size)) ==
      if ty == REGULAR && size < 0 then Rejected("file too large")
      else Entry(Strip(name), ty, if ty == REGULAR then size else 0)
  {
    var s := Strip(name);
    var h := Made(s, ty, size);
    MadeFields(s, ty, size);
    StripIs(name);
    StripIsString(name);
    NameRead(h, s, 0);
    assert s[0..] == s;
    Pow8Values();
    ChksumRead(h);
    SizeRead(h, size);
    assert h[MAGIC..MAGIC + 6][0] == h[MAGIC];
  }

  lemma {:induction false} StripIsString(name: Bytes)
    requires IsString(name)
    ensures IsString(Strip(name))
  {
    StripIsSuffix(name);
    var r := Strip(name);
    if r != [DOT] {
      forall i | 0 <= i < |r| ensures r[i] != 0 { assert r[i] == name[|name| - |r|..][i]; }
    }
  }

  lemma {:induction false} ChksumRead(h: Bytes)
    requires |h| == SIZE && h[CHKSUM..CHKSUM + 8] == Digits(Sum(h, SIZE), 7) + [0]
    ensures ParseFrom(h[CHKSUM..CHKSUM + 8], 0, 0) == Some(Sum(h, SIZE))
  {
    Pow8Values();
    var f, d := h[CHKSUM..CHKSUM + 8], Digits(Sum(h, SIZE), 7);
    assert f[..7] == d;
    FieldRead(f, Sum(h, SIZE), 7);
  }

  lemma {:induction false} SizeRead(h: Bytes, size: int)
    requires |h| == SIZE && -0x8000_0000 <= size < 0x8000_0000
    requires h[FILE_SIZE..FILE_SIZE + 12] == Digits(Unsigned(size), 11) + [0]
    ensures ParseFrom(h[FILE_SIZE..FILE_SIZE + 12], 0, 0) == Some(Unsigned(size))
  {
    Pow8Values();
    var f, d := h[FILE_SIZE..FILE_SIZE + 12], Digits(Unsigned(size), 11);
    assert f[..11] == d;
    FieldRead(f, Unsigned(size), 11);
  }
}
