/** Splitting a string into words: `strtok_r` of `lib/string.c`. */
module Strtok {
  import opened Sequences

  /** A string that lists the bytes at which to split. */
  type Delimiters = d: seq<int> | 0 !in d

  /** The string that starts at i: everything up to the null byte. */
  function StringAt(b: seq<int>, i: nat): seq<int>
    decreases |b| - i
  {
    if i < |b| && b[i] != 0 then [b[i]] + StringAt(b, i + 1) else []
  }

  /** The longest prefix without delimiters. */
  function Word(s: seq<int>, d: Delimiters): (w: seq<int>)
    ensures |w| <= |s| && w == s[..|w|]
    ensures forall i :: 0 <= i < |w| ==> w[i] !in d
    ensures |w| < |s| ==> s[|w|] in d
  {
    if s == [] || s[0] in d then [] else [s[0]] + Word(s[1..], d)
  }

  /** The words of a line. */
  function Tokens(s: seq<int>, d: Delimiters): seq<seq<int>>
    decreases |s|
  {
    if s == [] then []
    else if s[0] in d then Tokens(s[1..], d)
    else [Word(s, d)] + Tokens(s[|Word(s, d)|..], d)
  }

  // ---------------------------------------------------------------------
  // What the words of a line are
  // ---------------------------------------------------------------------

  ghost predicate IsWord(w: seq<int>, d: Delimiters) {
    w != [] && forall i :: 0 <= i < |w| ==> w[i] !in d
  }

  /** Words are not empty and hold no delimiters. */
  lemma {:induction false} TokensAreWords(s: seq<int>, d: Delimiters)
    ensures forall k :: 0 <= k < |Tokens(s, d)| ==> IsWord(Tokens(s, d)[k], d)
    decreases |s|
  {
    if s != [] {
      if s[0] in d { TokensAreWords(s[1..], d); } else { TokensAreWords(s[|Word(s, d)|..], d); }
    }
  }

  lemma {:induction false} TokensAreStrings(s: seq<int>, d: Delimiters)
    requires IsString(s)
    ensures forall k {:trigger Tokens(s, d)[k]} :: 0 <= k < |Tokens(s, d)| ==> IsString(Tokens(s, d)[k])
    decreases |s|
  {
    if s != [] {
      if s[0] in d { TokensAreStrings(s[1..], d); } else { TokensAreStrings(s[|Word(s, d)|..], d); }
    }
  }

  /** The words with their terminators take no more room than the line with its own. */
  function Room(ts: seq<seq<int>>): nat {
    if ts == [] then 0 else |ts[0]| + 1 + Room(ts[1..])
  }

  lemma {:induction false} TokensFit(s: seq<int>, d: Delimiters)
    ensures Room(Tokens(s, d)) <= |s| + 1 && 2 * |Tokens(s, d)| <= Room(Tokens(s, d))
    ensures s != [] && s[0] in d ==> Room(Tokens(s, d)) <= |s|
    decreases |s|
  {
    if s != [] {
      if s[0] in d {
        TokensFit(s[1..], d);
      } else {
        var w := Word(s, d);
        assert w != [];
        TokensFit(s[|w|..], d);
        assert Tokens(s, d)[1..] == Tokens(s[|w|..], d);
      }
    }
  }

  /** The words with one byte x between them. */
  function Join(ts: seq<seq<int>>, x: int): seq<int> {
    if ts == [] then [] else if |ts| == 1 then ts[0] else ts[0] + [x] + Join(ts[1..], x)
  }

  lemma {:induction false} WordOf(w: seq<int>, rest: seq<int>, d: Delimiters)
    requires IsWord(w, d) && (rest == [] || rest[0] in d)
    ensures Word(w + rest, d) == w
  {
    var s := w + rest;
    if |w| == 1 {
      assert s[1..] == rest && Word(rest, d) == [];
    } else {
      assert s[1..] == w[1..] + rest;
      WordOf(w[1..], rest, d);
    }
  }

  /** Splitting undoes joining with any of the delimiters. */
  lemma {:induction false} JoinThenSplit(ts: seq<seq<int>>, x: int, d: Delimiters)
    requires x in d && forall k :: 0 <= k < |ts| ==> IsWord(ts[k], d)
    ensures Tokens(Join(ts, x), d) == ts
  {
    if ts != [] {
      var w, rest := ts[0], if |ts| == 1 then [] else [x] + Join(ts[1..], x);
      var s := w + rest;
      assert Join(ts, x) == s;
      WordOf(w, rest, d);
      assert s[|w|..] == rest;
      if |ts| > 1 {
        JoinThenSplit(ts[1..], x, d);
        assert rest[1..] == Join(ts[1..], x);
        assert Tokens(rest, d) == Tokens(rest[1..], d);
      }
      assert s[0] == w[0] && Tokens(s, d) == [w] + Tokens(rest, d);
    }
  }

  /** A line laid out as gaps with words between them. */
  function Spaced(gs: seq<seq<int>>, ws: seq<seq<int>>): seq<int>
    requires |gs| == |ws| + 1
  {
    if ws == [] then gs[0] else gs[0] + (ws[0] + Spaced(gs[1..], ws[1..]))
  }

  ghost predicate IsGap(g: seq<int>, d: Delimiters) {
    forall i :: 0 <= i < |g| ==> g[i] in d
  }

  /** Gaps are made of delimiters, words of other bytes; between two words there is a gap. */
  ghost predicate LaidOut(gs: seq<seq<int>>, ws: seq<seq<int>>, d: Delimiters) {
    && |gs| == |ws| + 1
    && (forall k :: 0 <= k < |ws| ==> IsWord(ws[k], d))
    && (forall k :: 0 <= k < |gs| ==> IsGap(gs[k], d) && (0 < k < |ws| ==> gs[k] != []))
  }

  lemma {:induction false} GapSkipped(g: seq<int>, s: seq<int>, d: Delimiters)
    requires IsGap(g, d)
    ensures Tokens(g + s, d) == Tokens(s, d)
  {
    if g == [] {
      assert g + s == s;
    } else {
      assert (g + s)[1..] == g[1..] + s;
      GapSkipped(g[1..], s, d);
    }
  }

  /** What follows a word starts with a delimiter. */
  lemma GapNext(gs: seq<seq<int>>, ws: seq<seq<int>>, d: Delimiters)
    requires LaidOut(gs, ws, d) && (ws != [] ==> gs[0] != [])
    ensures var s := Spaced(gs, ws); s == [] || s[0] in d
  {
  }

  /** However the words of a line are spaced, splitting finds exactly them. */
  lemma {:induction false} SplitLaw(gs: seq<seq<int>>, ws: seq<seq<int>>, d: Delimiters)
    requires LaidOut(gs, ws, d)
    ensures Tokens(Spaced(gs, ws), d) == ws
  {
    if ws == [] {
      GapSkipped(gs[0], [], d);
      assert gs[0] + [] == gs[0];
    } else {
      var rest, w := Spaced(gs[1..], ws[1..]), ws[0];
      SplitLaw(gs[1..], ws[1..], d);
      GapNext(gs[1..], ws[1..], d);
      WordOf(w, rest, d);
      var s := w + rest;
      assert s[|w|..] == rest && s[0] == w[0] && Tokens(s, d) == [w] + Tokens(rest, d);
      GapSkipped(gs[0], s, d);
    }
  }

  /** And every line is laid out in such a way. */
  lemma {:induction false} LayOut(s: seq<int>, d: Delimiters) returns (gs: seq<seq<int>>, ws: seq<seq<int>>)
    ensures LaidOut(gs, ws, d) && s == Spaced(gs, ws)
    decreases |s|
  {
    if s == [] {
      gs, ws := [[]], [];
    } else if s[0] in d {
      var g, w := LayOut(s[1..], d);
      gs, ws := [[s[0]] + g[0]] + g[1..], w;
      assert gs[1..] == g[1..];
      assert s == [s[0]] + s[1..];
    } else {
      var w := Word(s, d);
      var g, v := LayOut(s[|w|..], d);
      gs, ws := [[]] + g, [w] + v;
      assert gs[1..] == g && ws[1..] == v;
      assert v != [] && g[0] == [] ==> s[|w|..] == v[0] + Spaced(g[1..], v[1..]);
      assert s == w + s[|w|..];
    }
  }

  // ---------------------------------------------------------------------
  // strtok_r itself
  // ---------------------------------------------------------------------

  /** There is a null byte at or after i. */
  ghost predicate Ends(b: seq<int>, i: nat) {
    i + |StringAt(b, i)| < |b|
  }

  lemma {:induction false} StringIs(b: seq<int>, i: nat)
    requires i <= |b|
    ensures var s := StringAt(b, i); i + |s| <= |b| && s == b[i..i + |s|]
    ensures var s := StringAt(b, i); i + |s| < |b| ==> b[i + |s|] == 0
    ensures IsString(StringAt(b, i))
    decreases |b| - i
  {
    if i < |b| && b[i] != 0 { StringIs(b, i + 1); }
  }

  /** The string at i depends only on the bytes up to its end. */
  lemma {:induction false} SameString(b: seq<int>, c: seq<int>, i: nat, n: nat)
    requires i <= n < |b| && n < |c| && b[i..n] == c[i..n] && c[n] == 0 && IsString(b[i..n])
    ensures StringAt(c, i) == b[i..n]
    decreases n - i
  {
    if i < n {
      assert b[i..n][0] == c[i..n][0];
      assert b[i..n][1..] == b[i + 1..n] && c[i..n][1..] == c[i + 1..n];
      SameString(b, c, i + 1, n);
    }
  }

  lemma {:induction false} SameSuffix(b: seq<int>, c: seq<int>, i: nat)
    requires |b| == |c| && i <= |b| && b[i..] == c[i..]
    ensures StringAt(c, i) == StringAt(b, i)
    decreases |b| - i
  {
    if i < |b| {
      assert b[i..][0] == c[i..][0] && b[i..][1..] == b[i + 1..] && c[i..][1..] == c[i + 1..];
      SameSuffix(b, c, i + 1);
    }
  }

  /** The word at i, and where it ends. */
  lemma {:induction false} WordAt(b: seq<int>, i: nat, d: Delimiters)
    requires Ends(b, i)
    ensures var w := Word(StringAt(b, i), d); var e := i + |w|;
      && e < |b| && w == b[i..e] && IsString(w) && (b[e] in d || b[e] == 0)
      && (forall k :: i <= k < e ==> b[k] !in d && b[k] != 0)
  {
    StringIs(b, i);
    var s := StringAt(b, i);
    var w := Word(s, d);
    forall k | i <= k < i + |w| ensures b[k] == w[k - i] == s[k - i] { assert b[i..i + |s|][k - i] == b[k]; }
    if |w| < |s| { assert b[i..i + |s|][|w|] == b[i + |w|]; }
  }

  /** What is left of the words once the first, which ends at e, has been taken. */
  lemma {:induction false} RestOf(b: seq<int>, i: nat, d: Delimiters)
    requires Ends(b, i) && i < |b| && b[i] !in d && b[i] != 0
    ensures var w := Word(StringAt(b, i), d); var e := i + |w|;
      && e < |b| && w != [] && (b[e] in d || b[e] == 0) && Tokens(StringAt(b, i), d) != [] && Tokens(StringAt(b, i), d)[0] == w
      && (b[e] in d ==> Ends(b, e + 1) && Tokens(StringAt(b, i), d)[1..] == Tokens(StringAt(b, e + 1), d))
      && (b[e] == 0 ==> Ends(b, e) && StringAt(b, e) == [] && Tokens(StringAt(b, i), d)[1..] == [])
  {
    WordAt(b, i, d);
    StringIs(b, i);
    var s := StringAt(b, i);
    var w := Word(s, d);
    var e := i + |w|;
    assert Tokens(s, d) == [w] + Tokens(s[|w|..], d);
    Middle(b, i, e);
    assert s[|w|..] == StringAt(b, e);
    if b[e] in d {
      assert StringAt(b, e)[1..] == StringAt(b, e + 1);
    }
  }

  lemma {:induction false} Middle(b: seq<int>, i: nat, e: nat)
    requires i <= e <= |b| && forall k :: i <= k < e ==> b[k] != 0
    ensures |StringAt(b, i)| == e - i + |StringAt(b, e)| && StringAt(b, i)[e - i..] == StringAt(b, e)
    decreases e - i
  {
    if i < e {
      Middle(b, i + 1, e);
      assert StringAt(b, i)[e - i..] == StringAt(b, i + 1)[e - (i + 1)..];
    }
  }

  /** c is b after the first of the words in the string at start has been taken: it is at
      token, the rest of the string is at save, and nothing outside [start, save) has
      changed. */
  ghost predicate TakenOf(b: seq<int>, c: seq<int>, words: seq<seq<int>>, start: nat, token: int, save: nat, d: Delimiters) {
    && start <= save < |c| == |b| && Ends(c, save) && c[..start] == b[..start] && c[save..] == b[save..]
    && if words == [] then token == -1 && c == b && Tokens(StringAt(c, save), d) == []
       else start <= token < save && StringAt(c, token) == words[0]
            && Tokens(StringAt(c, save), d) == words[1..]
            && token + |words[0]| <= save && (words[1..] != [] ==> token + |words[0]| < save)
  }

  ghost predicate Taken(b: seq<int>, c: seq<int>, start: nat, token: int, save: nat, d: Delimiters) {
    TakenOf(b, c, Tokens(StringAt(b, start), d), start, token, save, d)
  }

  /** Returns the place of the next word, or -1.  The word is cut off with a null byte,
      and the rest of the line starts at save. */
  method StrtokR(buf: array<int>, start: nat, d: Delimiters) returns (token: int, save: nat)
    requires Ends(buf[..], start)
    modifies buf
    ensures Taken(old(buf[..]), buf[..], start, token, save, d)
  {
    ghost var b := buf[..];
    var s := start;
    while buf[s] in d || buf[s] == 0
      invariant start <= s < |b| && buf[..] == b && Ends(b, s) && Tokens(StringAt(b, s), d) == Tokens(StringAt(b, start), d)
      decreases |b| - s
    {
      if buf[s] == 0 { return -1, s; }
      assert StringAt(b, s)[1..] == StringAt(b, s + 1);
      s := s + 1;
    }
    token := s;
    WordAt(b, s, d);
    ghost var w := Word(StringAt(b, s), d);
    while buf[s] !in d && buf[s] != 0
      invariant token <= s <= token + |w| && buf[..] == b
      decreases |b| - s
    {
      s := s + 1;
    }
    if buf[s] != 0 {
      CutOffMiddle(b, start, token, s, d);
      buf[s] := 0;
      save := s + 1;
    } else {
      CutOffEnd(b, start, token, s, d);
      save := s;
    }
    assert buf[..] == b[s := 0];
  }

  /** Cutting the word off leaves it and what follows readable. */
  lemma {:induction false} CutOffMiddle(b: seq<int>, start: nat, i: nat, e: nat, d: Delimiters)
    requires start <= i && Ends(b, i) && Tokens(StringAt(b, i), d) == Tokens(StringAt(b, start), d)
    requires i < |b| && b[i] !in d && b[i] != 0 && e == i + |Word(StringAt(b, i), d)| < |b| && b[e] in d
    ensures Taken(b, b[e := 0], start, i, e + 1, d)
  {
    RestMiddle(b, i, e, d);
    CutReads(b, i, e, d);
    CutMiddle(b, Tokens(StringAt(b, start), d), start, i, e, d);
  }

  lemma {:induction false} RestMiddle(b: seq<int>, i: nat, e: nat, d: Delimiters)
    requires Ends(b, i) && i < |b| && b[i] !in d && b[i] != 0 && e == i + |Word(StringAt(b, i), d)| < |b| && b[e] in d
    ensures var words := Tokens(StringAt(b, i), d);
      && i < e && words != [] && words[0] == Word(StringAt(b, i), d) && Ends(b, e + 1) && words[1..] == Tokens(StringAt(b, e + 1), d)
  {
    RestOf(b, i, d);
  }

  lemma {:induction false} CutOffEnd(b: seq<int>, start: nat, i: nat, e: nat, d: Delimiters)
    requires start <= i && Ends(b, i) && Tokens(StringAt(b, i), d) == Tokens(StringAt(b, start), d)
    requires i < |b| && b[i] !in d && b[i] != 0 && e == i + |Word(StringAt(b, i), d)| < |b| && b[e] == 0
    ensures Taken(b, b[e := 0], start, i, e, d)
  {
    RestOf(b, i, d);
    CutReads(b, i, e, d);
    CutEnd(b, Tokens(StringAt(b, start), d), start, i, e, d);
  }

  lemma {:induction false} CutReads(b: seq<int>, i: nat, e: nat, d: Delimiters)
    requires Ends(b, i) && e == i + |Word(StringAt(b, i), d)| < |b|
    ensures StringAt(b[e := 0], i) == Word(StringAt(b, i), d) && StringAt(b[e := 0], e + 1) == StringAt(b, e + 1)
  {
    var c := b[e := 0];
    WordAt(b, i, d);
    SameString(b, c, i, e);
    SameSuffix(b, c, e + 1);
  }

  lemma {:induction false} CutMiddle(b: seq<int>, words: seq<seq<int>>, start: nat, i: nat, e: nat, d: Delimiters)
    requires start <= i < e < |b| && Ends(b, e + 1) && words != []
    requires StringAt(b[e := 0], i) == words[0] && |words[0]| == e - i
    requires StringAt(b[e := 0], e + 1) == StringAt(b, e + 1) && words[1..] == Tokens(StringAt(b, e + 1), d)
    ensures TakenOf(b, b[e := 0], words, start, i, e + 1, d)
  {
  }

  lemma {:induction false} CutEnd(b: seq<int>, words: seq<seq<int>>, start: nat, i: nat, e: nat, d: Delimiters)
    requires start <= i < e < |b| && Ends(b, e) && b[e] == 0 && StringAt(b, e) == [] && words != []
    requires StringAt(b[e := 0], i) == words[0] && words[1..] == [] && |words[0]| == e - i
    ensures TakenOf(b, b[e := 0], words, start, i, e, d)
  {
    assert b[e := 0] == b;
  }

  // ---------------------------------------------------------------------
  // All the words
  // ---------------------------------------------------------------------

  /** The words collected so far are where args says, cut off before lim. */
  ghost predicate Collected(b: seq<int>, args: seq<nat>, ts: seq<seq<int>>, lim: nat) {
    && |args| <= |ts|
    && forall k {:trigger args[k]} :: 0 <= k < |args| ==> WordIs(b, args[k], ts[k], lim)
  }

  ghost predicate WordIs(b: seq<int>, i: nat, w: seq<int>, lim: nat) {
    i + |w| < lim && StringAt(b, i) == w
  }

  /** A word cut off before lim does not notice what happens from there on. */
  lemma StillThere(b: seq<int>, c: seq<int>, i: nat, w: seq<int>, lim: nat)
    requires WordIs(b, i, w, lim) && lim <= |b| == |c| && c[..lim] == b[..lim]
    ensures WordIs(c, i, w, lim)
  {
    var n := i + |w|;
    StringIs(b, i);
    assert b[i..n] == b[..lim][i..n] == c[..lim][i..n] == c[i..n];
    assert c[n] == c[..lim][n] == b[..lim][n] == 0;
    SameString(b, c, i, n);
  }

  lemma {:induction false} OneMore(b: seq<int>, c: seq<int>, args: seq<nat>, ts: seq<seq<int>>, save: nat, token: int, save': nat, d: Delimiters)
    requires |args| < |ts| && Tokens(StringAt(b, save), d) == ts[|args|..] && Collected(b, args, ts, save)
    requires Taken(b, c, save, token, save', d)
    ensures token >= 0 && Tokens(StringAt(c, save'), d) == ts[|args| + 1..]
    ensures Collected(c, args + [token], ts, if |args| + 1 < |ts| then save' else |c|)
  {
    var n := |args|;
    var lim := if n + 1 < |ts| then save' else |c|;
    assert ts[n..] != [] && ts[n..][0] == ts[n] && ts[n..][1..] == ts[n + 1..];
    forall k | 0 <= k < n ensures WordIs(c, args[k], ts[k], lim) {
      assert WordIs(b, args[k], ts[k], save);
      StillThere(b, c, args[k], ts[k], save);
    }
    assert WordIs(c, token, ts[n], lim);
  }

  /** The last place strlcpy writes, when it writes at all. */
  function LastWritten(srcLen: nat, size: nat): nat
    requires size > 0
  {
    if srcLen < size - 1 then srcLen else size - 1
  }

  /** Copies as much of src as size allows, ends it with a null byte, and returns the
      length of src.  The caller provides room for what is written. */
  method Strlcpy(dst: array<int>, src: seq<int>, size: nat) returns (srcLen: nat)
    requires IsString(src) && (size > 0 ==> LastWritten(|src|, size) < dst.Length)
    modifies dst
    ensures srcLen == |src|
    ensures size > 0 ==> var n := LastWritten(|src|, size); StringAt(dst[..], 0) == src[..n] && dst[..n] == src[..n] && dst[n] == 0
    ensures forall i :: 0 <= i < dst.Length && (size == 0 || i > LastWritten(|src|, size)) ==> dst[i] == old(dst[i])
  {
    srcLen := |src|;
    if size > 0 {
      var dstLen := size - 1;
      if srcLen < dstLen { dstLen := srcLen; }
      for i := 0 to dstLen
        invariant dst[..i] == src[..i] && forall j :: i <= j < dst.Length ==> dst[j] == old(dst[j])
      {
        dst[i] := src[i];
      }
      dst[dstLen] := 0;
      SameString(dst[..], dst[..], 0, dstLen);
    }
  }

  /** The loop that calls strtok_r until there are no more words. */
  method Split(line: seq<int>, d: Delimiters) returns (buf: array<int>, args: seq<nat>)
    requires IsString(line)
    ensures fresh(buf) && |args| == |Tokens(line, d)| && Collected(buf[..], args, Tokens(line, d), buf.Length)
  {
    ghost var ts := Tokens(line, d);
    buf := new int[|line| + 1];
    var _ := Strlcpy(buf, line, |line| + 1);
    Copied(buf[..], line);
    args := [];
    var save: nat := 0;
    while true
      invariant |args| <= |ts| && Ends(buf[..], save) && Tokens(StringAt(buf[..], save), d) == ts[|args|..]
      invariant Collected(buf[..], args, ts, if |args| < |ts| then save else buf.Length)
      decreases |ts| - |args|
    {
      ghost var b := buf[..];
      var token, next := StrtokR(buf, save, d);
      if token == -1 { break; }
      OneMore(b, buf[..], args, ts, save, token, next, d);
      args, save := args + [token], next;
    }
  }

  lemma {:induction false} Copied(b: seq<int>, line: seq<int>)
    requires IsString(line) && |b| == |line| + 1 && b[|line|] == 0 && forall i :: 0 <= i < |line| ==> b[i] == line[i]
    ensures StringAt(b, 0) == line && Ends(b, 0)
  {
    assert b[0..|line|] == line;
    SameString(b, b, 0, |line|);
  }
}
