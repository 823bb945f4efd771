/**
 The first page of a new process's stack: `setup_stack` of `userprog/process.c`.  The
 page lies just below PHYS_BASE and starts out zero; `esp` is an index into it.
 */
module UserStack {
  import opened Address
  import opened Sequences
  import opened Strtok
  import Arithmetic

  function AddrOf(i: int): int { PHYS_BASE - PGSIZE + i }

  /** The four bytes of a pointer, least significant first. */
  function Le32(x: int): (b: seq<int>)
    ensures |b| == 4
  {
    [x % 0x100, (x / 0x100) % 0x100, (x / 0x1_0000) % 0x100, (x / 0x100_0000) % 0x100]
  }

  function Read32(b: seq<int>, i: nat): int
    requires i + 4 <= |b|
  {
    b[i] + 0x100 * b[i + 1] + 0x1_0000 * b[i + 2] + 0x100_0000 * b[i + 3]
  }

  lemma ReadBack(x: int)
    requires 0 <= x < 0x1_0000_0000
    ensures Read32(Le32(x), 0) == x
  {
    var a := x / 0x100;
    var b := a / 0x100;
    assert x / 0x1_0000 == b && x / 0x100_0000 == b / 0x100;
  }

  // ---------------------------------------------------------------------
  // What the stack looks like
  // ---------------------------------------------------------------------

  /** The arguments, each with its null byte. */
  function Strings(ts: seq<seq<int>>): (b: seq<int>)
    ensures |b| == Room(ts)
  {
    if ts == [] then [] else ts[0] + [0] + Strings(ts[1..])
  }

  /** Where argument k lies when the arguments fill the top of the stack. */
  function Where(ts: seq<seq<int>>, k: nat): int
    requires k <= |ts|
  {
    PHYS_BASE - Room(ts[k..])
  }

  /** Pointers to arguments k and up. */
  function Pointers(ts: seq<seq<int>>, k: nat): (b: seq<int>)
    requires k <= |ts|
    ensures |b| == 4 * (|ts| - k)
    decreases |ts| - k
  {
    if k == |ts| then [] else Le32(Where(ts, k)) + Pointers(ts, k + 1)
  }

  /** The filler bytes that make an address a multiple of four: a whole word if it is one. */
  function Fill(a: int): nat {
    if a % 4 == 0 then 4 else a % 4
  }

  /** Arguments, filler, null pointer and argument pointers. */
  function Vector(ts: seq<seq<int>>): (v: seq<int>)
    ensures |v| == 4 * |ts| + 4 + Fill(Where(ts, 0)) + Room(ts)
  {
    Pointers(ts, 0) + (Zeros(4) + (Zeros(Fill(Where(ts, 0))) + Strings(ts)))
  }

  /** Everything from esp up: return address, argc, argv and the vector. */
  function Image(ts: seq<seq<int>>, ret: int): (b: seq<int>)
    ensures |b| == 12 + |Vector(ts)|
  {
    [ret, 0, 0, 0] + ([|ts|, 0, 0, 0] + (Le32(PHYS_BASE - |Vector(ts)|) + Vector(ts)))
  }

  /** A command line is split at spaces. */
  const BLANK: Delimiters := [32]

  function Words(line: seq<int>): seq<seq<int>> {
    Tokens(line, BLANK)
  }

  /** The arguments fit the page and the arrays that list them; their number fits a byte. */
  predicate Fits(ts: seq<seq<int>>) {
    Room(ts) + 4 * |ts| + 20 <= PGSIZE && |ts| <= 130
  }

  /** The line is copied with strlcpy, told that there is room for it and its null byte,
      into an array as long as the line.  The copy stays inside an array of n bytes exactly
      if n exceeds the length of the line, so it never stays inside that one. */
  lemma CopyTooLong(line: seq<int>, n: nat)
    ensures var last := LastWritten(|line|, |line| + 1);
      && last == |line| && (last < n <==> |line| < n) && !(last < |line|)
  {
  }

  /** Any line of up to 99 characters does. */
  lemma ShortLine(line: seq<int>)
    requires |line| <= 99
    ensures Fits(Words(line))
  {
    TokensFit(line, BLANK);
  }

  // ---------------------------------------------------------------------
  // Reading it back
  // ---------------------------------------------------------------------

  lemma ReadAt(p: seq<int>, w: seq<int>, q: seq<int>)
    requires |w| == 4
    ensures Read32(p + (w + q), |p|) == Read32(w, 0)
  {
    var r := p + (w + q);
    assert r[|p|] == w[0] && r[|p| + 1] == w[1] && r[|p| + 2] == w[2] && r[|p| + 3] == w[3];
  }

  lemma {:induction false} PointerAt(ts: seq<seq<int>>, k: nat, j: nat, q: seq<int>)
    requires j <= k < |ts| && 0 <= Where(ts, k)
    ensures Read32(Pointers(ts, j) + q, 4 * (k - j)) == Where(ts, k)
    decreases k - j
  {
    var w, rest := Le32(Where(ts, j)), Pointers(ts, j + 1);
    assert Pointers(ts, j) + q == [] + (w + (rest + q));
    if j == k {
      ReadAt([], w, rest + q);
      ReadBack(Where(ts, k));
    } else {
      PointerAt(ts, k, j + 1, q);
      var a, b := Pointers(ts, j) + q, rest + q;
      assert forall i :: 0 <= i < |b| ==> a[i + 4] == b[i];
    }
  }

  lemma {:induction false} StringsAt(ts: seq<seq<int>>, k: nat)
    requires k <= |ts|
    ensures Room(ts) - Room(ts[k..]) >= 0 && Strings(ts)[Room(ts) - Room(ts[k..])..] == Strings(ts[k..])
    decreases k
  {
    if k == 0 {
      assert ts[0..] == ts;
    } else {
      var r := ts[1..];
      StringsAt(r, k - 1);
      assert r[k - 1..] == ts[k..];
      var n := Room(r) - Room(ts[k..]);
      assert Strings(ts)[|ts[0]| + 1 + n..] == Strings(r)[n..];
    }
  }

  /** Sizes and alignment of the parts. */
  lemma Sizes(ts: seq<seq<int>>, ret: int)
    requires Fits(ts)
    ensures |Image(ts, ret)| <= PGSIZE && |Vector(ts)| % 4 == 0
  {
    assert ts[0..] == ts;
    Aligned(Room(ts));
  }

  lemma Aligned(n: nat)
    ensures (n + Fill(PHYS_BASE - n)) % 4 == 0
  {
  }

  /** The part of the page that a suffix of the image is. */
  lemma Part(m: seq<int>, esp: nat, p: seq<int>, q: seq<int>)
    requires esp <= |m| && m[esp..] == p + q
    ensures esp + |p| <= |m| && m[esp + |p|..] == q
  {
    assert m[esp..][|p|..] == q;
  }

  lemma ReadThere(m: seq<int>, i: nat, q: seq<int>, j: nat)
    requires i <= |m| && m[i..] == q && j + 4 <= |q|
    ensures i + j + 4 <= |m| && Read32(m, i + j) == Read32(q, j)
  {
    assert forall k :: 0 <= k < |q| ==> m[i + k] == q[k];
  }

  /** The stack as the process finds it. */
  ghost predicate Reads(m: seq<int>, esp: nat, ts: seq<seq<int>>) {
    && esp + 12 <= |m|
    && Read32(m, esp + 4) == |ts|
    && var argv := Read32(m, esp + 8) - AddrOf(0);
       && 0 <= argv && argv + 4 * |ts| + 4 <= |m|
       && (forall k: nat {:trigger ReadsArg(m, argv, ts, k)} :: k < |ts| ==> ReadsArg(m, argv, ts, k))
       && Read32(m, argv + 4 * |ts|) == 0
  }

  /** argv[k] points to argument k. */
  ghost predicate ReadsArg(m: seq<int>, argv: nat, ts: seq<seq<int>>, k: nat)
    requires k < |ts|
  {
    && argv + 4 * k + 4 <= |m|
    && var p := Read32(m, argv + 4 * k) - AddrOf(0);
       0 <= p < |m| && StringAt(m, p) == ts[k]
  }

  ghost predicate AreStrings(ts: seq<seq<int>>) {
    forall k {:trigger ts[k]} :: 0 <= k < |ts| ==> IsString(ts[k])
  }

  /** From an image one reads argc, then argv[0] up to argv[argc - 1] in order, then a
      null pointer. */
  lemma ImageReads(m: seq<int>, esp: nat, ts: seq<seq<int>>, ret: int)
    requires |m| == PGSIZE && esp <= PGSIZE && m[esp..] == Image(ts, ret) && Fits(ts) && AreStrings(ts)
    ensures Reads(m, esp, ts) && AddrOf(esp) % 4 == 0
  {
    Sizes(ts, ret);
    ImageHead(m, esp, ts, ret);
    EspAligned(|Vector(ts)|);
    VectorReads(m, PGSIZE - |Vector(ts)|, ts);
  }

  lemma EspAligned(n: nat)
    requires n % 4 == 0
    ensures AddrOf(PGSIZE - 12 - n) % 4 == 0
  {
  }

  lemma VectorReads(m: seq<int>, argv: nat, ts: seq<seq<int>>)
    requires |m| == PGSIZE && argv == PGSIZE - |Vector(ts)| && m[argv..] == Vector(ts) && AreStrings(ts)
    ensures argv + 4 * |ts| + 4 <= |m| && Read32(m, argv + 4 * |ts|) == 0
    ensures forall k: nat {:trigger ReadsArg(m, argv, ts, k)} :: k < |ts| ==> ReadsArg(m, argv, ts, k)
  {
    VectorEnds(m, argv, ts);
    StringsThere(m, argv, ts);
    forall k: nat | k < |ts| ensures ReadsArg(m, argv, ts, k) {
      RoomLess(ts, k);
      PointerReads(m, argv, ts, k);
      ArgReads(m, argv, ts, k);
    }
  }

  lemma {:induction false} StringsThere(m: seq<int>, argv: nat, ts: seq<seq<int>>)
    requires |m| == PGSIZE && argv == PGSIZE - |Vector(ts)| && m[argv..] == Vector(ts)
    ensures Room(ts) <= PGSIZE && m[PGSIZE - Room(ts)..] == Strings(ts)
  {
    var n := Fill(Where(ts, 0));
    Part(m, argv, Pointers(ts, 0), Zeros(4) + (Zeros(n) + Strings(ts)));
    Part(m, argv + 4 * |ts|, Zeros(4), Zeros(n) + Strings(ts));
    Part(m, argv + 4 * |ts| + 4, Zeros(n), Strings(ts));
  }

  lemma {:induction false} ArgReads(m: seq<int>, argv: nat, ts: seq<seq<int>>, k: nat)
    requires |m| == PGSIZE && k < |ts| && IsString(ts[k]) && Room(ts) <= PGSIZE && m[PGSIZE - Room(ts)..] == Strings(ts)
    requires argv + 4 * k + 4 <= |m| && Read32(m, argv + 4 * k) == Where(ts, k)
    ensures ReadsArg(m, argv, ts, k)
  {
    RoomLess(ts, k);
    ArgString(m, ts, k);
  }

  lemma PointerReads(m: seq<int>, argv: nat, ts: seq<seq<int>>, k: nat)
    requires argv <= |m| && m[argv..] == Vector(ts) && k < |ts| && 0 <= Where(ts, k)
    ensures argv + 4 * k + 4 <= |m| && Read32(m, argv + 4 * k) == Where(ts, k)
  {
    PointerAt(ts, k, 0, Zeros(4) + (Zeros(Fill(Where(ts, 0))) + Strings(ts)));
    ReadThere(m, argv, Vector(ts), 4 * k);
  }

  lemma VectorEnds(m: seq<int>, argv: nat, ts: seq<seq<int>>)
    requires |m| == PGSIZE && argv == PGSIZE - |Vector(ts)| && m[argv..] == Vector(ts)
    ensures argv + 4 * |ts| + 4 <= |m| && Read32(m, argv + 4 * |ts|) == 0
  {
    ReadAt(Pointers(ts, 0), Zeros(4), Zeros(Fill(Where(ts, 0))) + Strings(ts));
    ReadThere(m, argv, Vector(ts), 4 * |ts|);
  }

  lemma {:induction false} RoomLess(ts: seq<seq<int>>, k: nat)
    requires k < |ts|
    ensures 0 < |ts[k]| + 1 <= Room(ts[k..]) <= Room(ts)
    decreases k
  {
    if k == 0 {
      assert ts[0..] == ts;
    } else {
      RoomLess(ts[1..], k - 1);
      assert ts[1..][k - 1..] == ts[k..];
    }
  }

  /** The three words at the bottom. */
  lemma ImageHead(m: seq<int>, esp: nat, ts: seq<seq<int>>, ret: int)
    requires |m| == PGSIZE && esp <= PGSIZE && m[esp..] == Image(ts, ret) && Fits(ts)
    ensures esp == PGSIZE - 12 - |Vector(ts)| && Read32(m, esp + 4) == |ts|
    ensures Read32(m, esp + 8) == PHYS_BASE - |Vector(ts)| && m[esp + 12..] == Vector(ts)
  {
    var v := Vector(ts);
    var a, b, c := [ret, 0, 0, 0], [|ts|, 0, 0, 0], Le32(PHYS_BASE - |v|);
    Part(m, esp, a, b + (c + v));
    ReadThere(m, esp + 4, b + (c + v), 0);
    ReadAt([], b, c + v);
    assert [] + (b + (c + v)) == b + (c + v);
    Part(m, esp + 4, b, c + v);
    ReadThere(m, esp + 8, c + v, 0);
    ReadAt([], c, v);
    assert [] + (c + v) == c + v;
    ReadBack(PHYS_BASE - |v|);
    Part(m, esp + 8, c, v);
  }

  /** Argument k can be read where its pointer points. */
  lemma {:induction false} ArgString(m: seq<int>, ts: seq<seq<int>>, k: nat)
    requires |m| == PGSIZE && k < |ts| && Room(ts) <= PGSIZE && m[PGSIZE - Room(ts)..] == Strings(ts) && IsString(ts[k])
    requires Room(ts[k..]) <= Room(ts)
    ensures var p := Where(ts, k) - AddrOf(0); 0 <= p < |m| && StringAt(m, p) == ts[k]
  {
    StringsAt(ts, k);
    RoomLess(ts, k);
    var p, t := PGSIZE - Room(ts[k..]), ts[k];
    var n := Room(ts) - Room(ts[k..]);
    assert m[p..] == Strings(ts[k..]) by { assert m[PGSIZE - Room(ts)..][n..] == m[p..]; }
    StringHere(m, p, t, Strings(ts[k..][1..]));
  }

  lemma {:induction false} StringHere(m: seq<int>, p: nat, t: seq<int>, rest: seq<int>)
    requires p <= |m| && m[p..] == t + [0] + rest && IsString(t)
    ensures p < |m| && StringAt(m, p) == t
  {
    assert forall i :: 0 <= i <= |t| ==> m[p + i] == m[p..][i];
    assert m[p..p + |t|] == t;
    SameString(m, m, p, p + |t|);
  }

  // ---------------------------------------------------------------------
  // Building it
  // ---------------------------------------------------------------------

  /** The address taken as a signed number is negative, and so is its remainder. */
  lemma AlignIs(a: int)
    requires 0x8000_0000 <= a < 0x1_0000_0000
    ensures Arithmetic.Remainder(a - 0x1_0000_0000, 4) + 4 == Fill(a)
  {
  }

  /** strlen of the string at i. */
  method Strlen(buf: array<int>, i: nat) returns (n: nat)
    requires Ends(buf[..], i)
    ensures n == |StringAt(buf[..], i)|
  {
    StringIs(buf[..], i);
    n := 0;
    while buf[i + n] != 0
      invariant i + n < buf.Length && n + |StringAt(buf[..], i + n)| == |StringAt(buf[..], i)| && Ends(buf[..], i + n)
      decreases buf.Length - n
    {
      n := n + 1;
    }
  }

  lemma {:induction false} CharsAt(b: seq<int>, i: nat, t: seq<int>)
    requires i + |t| < |b| && StringAt(b, i) == t && t != []
    ensures b[i..i + |t|] == t
    ensures Ends(b, i + 1) && |StringAt(b, i + 1)| == |t| - 1
  {
    StringIs(b, i);
  }

  lemma Prepend(t: seq<int>, i: nat, a: seq<int>)
    requires i < |t|
    ensures [t[i]] + (t[i + 1..] + a) == t[i..] + a
  {
  }

  class Stack {
    var mem: seq<int>
    var esp: nat

    /** Below esp the page is still zero. */
    ghost predicate Valid()
      reads this
    {
      |mem| == PGSIZE && esp <= PGSIZE && forall i :: 0 <= i < esp ==> mem[i] == 0
    }

    ghost function Above(): seq<int>
      requires Valid()
      reads this
    {
      mem[esp..]
    }

    constructor ()
      ensures Valid() && esp == PGSIZE && Above() == []
    {
      mem := Zeros(PGSIZE);
      esp := PGSIZE;
    }

    method Push(v: int)
      requires Valid() && esp >= 1
      modifies this
      ensures Valid() && esp == old(esp) - 1 && Above() == [v] + old(Above())
    {
      esp := esp - 1;
      mem := mem[esp := v];
    }

    /** Makes room for a word and writes its lowest byte only. */
    method PushLow(v: int)
      requires Valid() && esp >= 4
      modifies this
      ensures Valid() && esp == old(esp) - 4 && Above() == [v, 0, 0, 0] + old(Above())
    {
      esp := esp - 4;
      mem := mem[esp := v];
      assert mem[esp..] == [v, 0, 0, 0] + old(mem)[esp + 4..];
    }

    method PushPointer(x: int)
      requires Valid() && esp >= 4
      modifies this
      ensures Valid() && esp == old(esp) - 4 && Above() == Le32(x) + old(Above())
    {
      esp := esp - 4;
      var w := Le32(x);
      mem := mem[esp := w[0]][esp + 1 := w[1]][esp + 2 := w[2]][esp + 3 := w[3]];
      assert mem[esp..] == w + old(mem)[esp + 4..];
    }

    /** An argument's null byte and then its characters, last one first. */
    method PushString(buf: array<int>, arg: nat, ghost t: seq<int>)
      requires Valid() && esp >= |t| + 1 && t != [] && arg + |t| < buf.Length && StringAt(buf[..], arg) == t
      modifies this
      ensures Valid() && esp == old(esp) - |t| - 1 && Above() == t + [0] + old(Above())
    {
      ghost var a := Above();
      CharsAt(buf[..], arg, t);
      Push(0);
      var n := Strlen(buf, arg + 1);
      PushChars(buf, arg, n, t);
      assert t + ([0] + a) == t + [0] + a;
    }

    /** Characters n down to 0 of the string at arg. */
    method PushChars(buf: array<int>, arg: nat, n: nat, ghost t: seq<int>)
      requires Valid() && esp >= |t| && n == |t| - 1 && arg + |t| < buf.Length
      requires buf[arg..arg + |t|] == t
      modifies this
      ensures Valid() && esp == old(esp) - |t| && Above() == t + old(Above())
    {
      ghost var a := Above();
      for i := n + 1 downto 0
        invariant Valid() && esp == old(esp) - |t| + i && Above() == t[i..] + a
      {
        PushChar(buf, arg, i, t, a);
      }
    }

    method PushChar(buf: array<int>, arg: nat, i: nat, ghost t: seq<int>, ghost a: seq<int>)
      requires Valid() && esp >= 1 && i < |t| && arg + |t| < buf.Length && buf[arg..arg + |t|] == t
      requires Above() == t[i + 1..] + a
      modifies this
      ensures Valid() && esp == old(esp) - 1 && Above() == t[i..] + a
    {
      assert buf[arg..arg + |t|][i] == buf[arg + i];
      Push(buf[arg + i]);
      Prepend(t, i, a);
    }

    /** The arguments, last one first; returns where each one is. */
    method PushArgs(buf: array<int>, args: seq<nat>, ghost ts: seq<seq<int>>) returns (whereArgs: seq<int>)
      requires Valid() && esp == PGSIZE && Room(ts) <= PGSIZE && |args| == |ts| && Collected(buf[..], args, ts, buf.Length)
      requires forall k :: 0 <= k < |ts| ==> IsWord(ts[k], BLANK)
      modifies this
      ensures Valid() && esp == PGSIZE - Room(ts) && Above() == Strings(ts)
      ensures |whereArgs| == |ts| && forall k :: 0 <= k < |ts| ==> whereArgs[k] == Where(ts, k)
    {
      whereArgs := [];
      var count := |args| - 1;
      assert ts[|ts|..] == [] && mem[PGSIZE..] == [];
      while count >= 0
        invariant -1 <= count < |ts| && Valid() && esp == PGSIZE - Room(ts[count + 1..])
        invariant Above() == Strings(ts[count + 1..])
        invariant |whereArgs| == |ts| - 1 - count
        invariant forall k :: 0 <= k < |whereArgs| ==> whereArgs[k] == Where(ts, count + 1 + k)
        decreases count
      {
        assert WordIs(buf[..], args[count], ts[count], buf.Length) && IsWord(ts[count], BLANK);
        RoomLess(ts, count);
        assert ts[count..][1..] == ts[count + 1..];
        PushString(buf, args[count], ts[count]);
        whereArgs := [AddrOf(esp)] + whereArgs;
        count := count - 1;
      }
      assert ts[0..] == ts;
    }

    /** Filler bytes, one at a time, as many as the remainder of the signed address asks for. */
    method Align()
      requires Valid() && esp >= 4
      modifies this
      ensures Valid() && esp == old(esp) - Fill(AddrOf(old(esp))) && Above() == Zeros(Fill(AddrOf(old(esp)))) + old(Above())
    {
      ghost var a, n := Above(), Fill(AddrOf(esp));
      AlignIs(AddrOf(esp));
      var align := Arithmetic.Remainder(AddrOf(esp) - 0x1_0000_0000, 4);
      align := align + 4;
      assert Zeros(0) + a == a;
      while align != 0
        invariant 0 <= align <= n && Valid() && esp == old(esp) - (n - align) && Above() == Zeros(n - align) + a
        decreases align
      {
        Push(0);
        align := align - 1;
        assert [0] + (Zeros(n - align - 1) + a) == Zeros(n - align) + a;
      }
    }

    /** Pointers to the arguments, last one first. */
    method PushPointers(whereArgs: seq<int>, ghost ts: seq<seq<int>>)
      requires Valid() && |whereArgs| == |ts| && esp >= 4 * |ts|
      requires forall k :: 0 <= k < |ts| ==> whereArgs[k] == Where(ts, k)
      modifies this
      ensures Valid() && esp == old(esp) - 4 * |ts| && Above() == Pointers(ts, 0) + old(Above())
    {
      ghost var a := Above();
      var count := |whereArgs| - 1;
      while count >= 0
        invariant -1 <= count < |ts| && Valid() && esp == old(esp) - 4 * (|ts| - 1 - count)
        invariant Above() == Pointers(ts, count + 1) + a
        decreases count
      {
        PushPointer(whereArgs[count]);
        assert Le32(Where(ts, count)) + (Pointers(ts, count + 1) + a) == Pointers(ts, count) + a;
        count := count - 1;
      }
    }

    /** Arguments, filler, null pointer and argument pointers; returns argc. */
    method PushVector(line: seq<int>) returns (argc: nat)
      requires Valid() && esp == PGSIZE && IsString(line) && Fits(Words(line))
      modifies this
      ensures Valid() && Above() == Vector(Words(line)) && argc == |Words(line)| && esp == PGSIZE - |Vector(Words(line))|
    {
      ghost var ts := Words(line);
      TokensAreWords(line, BLANK);
      var buf, args := Split(line, BLANK);
      var whereArgs := PushArgs(buf, args, ts);
      assert ts[0..] == ts && AddrOf(esp) == Where(ts, 0);
      Align();
      PushLow(0);
      assert [0, 0, 0, 0] == Zeros(4);
      PushPointers(whereArgs, ts);
      argc := |args|;
    }

    /** The process finds argc, argv and its arguments; esp is a multiple of four and
        everything lies in the page.  ret is whatever byte the return address gets. */
    method SetupStack(line: seq<int>, ret: int)
      requires Valid() && esp == PGSIZE && IsString(line) && Fits(Words(line))
      modifies this
      ensures Valid() && Above() == Image(Words(line), ret)
      ensures Reads(mem, esp, Words(line)) && AddrOf(esp) % 4 == 0
    {
      ghost var ts := Words(line);
      var argc := PushVector(line);
      Sizes(ts, ret);
      var start := AddrOf(esp);
      PushPointer(start);
      PushLow(argc);
      PushLow(ret);
      TokensAreStrings(line, BLANK);
      ImageReads(mem, esp, ts, ret);
    }
  }
}
