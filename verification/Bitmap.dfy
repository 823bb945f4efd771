/**
 The word-packed bitmap of `lib/kernel/bitmap.c`.  `Bits` reads the words as a sequence
 of booleans; every method is stated on that sequence.
 */
module Bitmap {
  import opened Words

  datatype Index = BitmapError | At(index: nat)

  const ELEM_BITS: nat := 32

  function BitMask(i: nat): (m: nat)
    ensures m < B32
  {
    WordPower(i % ELEM_BITS);
    Pow2(i % ELEM_BITS)
  }

  function ElemCnt(bitCnt: nat): nat {
    (bitCnt + ELEM_BITS - 1) / ELEM_BITS
  }

  // ---------------------------------------------------------------------
  // What the operations do to a sequence of booleans
  // ---------------------------------------------------------------------

  /** cnt bits from start on are all value. */
  ghost predicate AllAre(s: seq<bool>, start: nat, cnt: nat, value: bool)
    requires start + cnt <= |s|
  {
    forall i :: start <= i < start + cnt ==> s[i] == value
  }

  function Fill(s: seq<bool>, start: nat, cnt: nat, value: bool): (r: seq<bool>)
    requires start + cnt <= |s|
    ensures |r| == |s| && AllAre(r, start, cnt, value)
    ensures forall i :: 0 <= i < |s| && !(start <= i < start + cnt) ==> r[i] == s[i]
  {
    seq(|s|, i requires 0 <= i < |s| => if start <= i < start + cnt then value else s[i])
  }

  /** r is the first place at or after start where cnt bits in a row are value. */
  ghost predicate FirstFit(s: seq<bool>, start: nat, cnt: nat, value: bool, r: Index) {
    match r
    case At(i) =>
      && start <= i && i + cnt <= |s| && AllAre(s, i, cnt, value)
      && forall j :: start <= j < i ==> !AllAre(s, j, cnt, value)
    case BitmapError =>
      forall j :: start <= j && j + cnt <= |s| ==> !AllAre(s, j, cnt, value)
  }

  function CountOf(s: seq<bool>, value: bool): nat {
    if s == [] then 0 else (if s[0] == value then 1 else 0) + CountOf(s[1..], value)
  }

  lemma {:induction false} CountSplit(s: seq<bool>, t: seq<bool>, value: bool)
    ensures CountOf(s + t, value) == CountOf(s, value) + CountOf(t, value)
  {
    if s == [] {
      assert s + t == t;
    } else {
      assert (s + t)[1..] == s[1..] + t;
      CountSplit(s[1..], t, value);
    }
  }

  // ---------------------------------------------------------------------
  // Words
  // ---------------------------------------------------------------------

  /** Two bits of one word have different masks. */
  lemma SameWord(i: nat, j: nat)
    requires i != j && i / ELEM_BITS == j / ELEM_BITS
    ensures i % ELEM_BITS != j % ELEM_BITS
  {
  }

  lemma WordExists(i: nat, n: nat)
    requires i < n
    ensures i / ELEM_BITS < ElemCnt(n)
  {
  }

  class Bitmap {
    const bitCnt: nat
    const bits: array<nat>

    ghost predicate Valid()
    {
      bits.Length == ElemCnt(bitCnt)
    }

    ghost function Bits(): (s: seq<bool>)
      requires Valid()
      reads bits
      ensures |s| == bitCnt
    {
      seq(bitCnt, i requires Valid() && 0 <= i < bitCnt reads bits =>
        WordExists(i, bitCnt); Bit(bits[i / ELEM_BITS], i % ELEM_BITS))
    }

    /** All bits start out false, whatever was in the buffer. */
    constructor (cnt: nat)
      ensures Valid() && bitCnt == cnt && fresh(bits)
      ensures Bits() == seq(cnt, i => false)
    {
      bitCnt := cnt;
      bits := new nat[ElemCnt(cnt)];
      new;
      SetMultiple(0, cnt, false);
    }

    method Mark(i: nat)
      requires Valid() && i < bitCnt
      modifies bits
      ensures Bits() == old(Bits())[i := true]
    {
      WordExists(i, bitCnt);
      ghost var was, w := Bits(), bits[i / ELEM_BITS];
      bits[i / ELEM_BITS] := Or(bits[i / ELEM_BITS], BitMask(i));
      forall j | 0 <= j < bitCnt ensures Bits()[j] == was[i := true][j] {
        WordExists(j, bitCnt);
        MaskedBit(w, i % ELEM_BITS, j % ELEM_BITS);
        if j != i && j / ELEM_BITS == i / ELEM_BITS { SameWord(j, i); }
      }
    }

    method Reset(i: nat)
      requires Valid() && i < bitCnt
      modifies bits
      ensures Bits() == old(Bits())[i := false]
    {
      WordExists(i, bitCnt);
      ghost var was, w := Bits(), bits[i / ELEM_BITS];
      bits[i / ELEM_BITS] := And(bits[i / ELEM_BITS], Not(BitMask(i)));
      forall j | 0 <= j < bitCnt ensures Bits()[j] == was[i := false][j] {
        WordExists(j, bitCnt);
        MaskedBit(w, i % ELEM_BITS, j % ELEM_BITS);
        if j != i && j / ELEM_BITS == i / ELEM_BITS { SameWord(j, i); }
      }
    }

    method Flip(i: nat)
      requires Valid() && i < bitCnt
      modifies bits
      ensures Bits() == old(Bits())[i := !old(Bits())[i]]
    {
      WordExists(i, bitCnt);
      ghost var was, w := Bits(), bits[i / ELEM_BITS];
      bits[i / ELEM_BITS] := Xor(bits[i / ELEM_BITS], BitMask(i));
      forall j | 0 <= j < bitCnt ensures Bits()[j] == was[i := !was[i]][j] {
        WordExists(j, bitCnt);
        MaskedBit(w, i % ELEM_BITS, j % ELEM_BITS);
        if j != i && j / ELEM_BITS == i / ELEM_BITS { SameWord(j, i); }
      }
    }

    method Test(i: nat) returns (value: bool)
      requires Valid() && i < bitCnt
      ensures value == Bits()[i]
    {
      WordExists(i, bitCnt);
      TestIs(bits[i / ELEM_BITS], i % ELEM_BITS);
      value := And(bits[i / ELEM_BITS], BitMask(i)) != 0;
    }

    method Set(i: nat, value: bool)
      requires Valid() && i < bitCnt
      modifies bits
      ensures Bits() == old(Bits())[i := value]
    {
      if value { Mark(i); } else { Reset(i); }
    }

    method SetMultiple(start: nat, cnt: nat, value: bool)
      requires Valid() && start + cnt <= bitCnt
      modifies bits
      ensures Bits() == Fill(old(Bits()), start, cnt, value)
    {
      for i := 0 to cnt
        invariant Bits() == Fill(old(Bits()), start, i, value)
      {
        Set(start + i, value);
      }
    }

    method Count(start: nat, cnt: nat, value: bool) returns (n: nat)
      requires Valid() && start + cnt <= bitCnt
      ensures n == CountOf(Bits()[start..start + cnt], value)
    {
      n := 0;
      for i := 0 to cnt
        invariant n == CountOf(Bits()[start..start + i], value)
      {
        var bit := Test(start + i);
        if bit == value { n := n + 1; }
        assert Bits()[start..start + i + 1] == Bits()[start..start + i] + [Bits()[start + i]];
        CountSplit(Bits()[start..start + i], [Bits()[start + i]], value);
      }
    }

    method Contains(start: nat, cnt: nat, value: bool) returns (found: bool)
      requires Valid() && start + cnt <= bitCnt
      ensures !found <==> AllAre(Bits(), start, cnt, !value)
    {
      for i := 0 to cnt
        invariant AllAre(Bits(), start, i, !value)
      {
        var bit := Test(start + i);
        if bit == value { return true; }
      }
      return false;
    }

    method Scan(start: nat, cnt: nat, value: bool) returns (r: Index)
      requires Valid() && start <= bitCnt
      ensures FirstFit(Bits(), start, cnt, value, r)
    {
      if cnt <= bitCnt {
        var last, i := bitCnt - cnt, start;
        while i <= last
          invariant start <= i
          invariant forall j :: start <= j < i && j + cnt <= bitCnt ==> !AllAre(Bits(), j, cnt, value)
        {
          var mixed := Contains(i, cnt, !value);
          if !mixed { return At(i); }
          i := i + 1;
        }
      }
      return BitmapError;
    }

    /** Takes the first fit, if there is one, and touches nothing else. */
    method ScanAndFlip(start: nat, cnt: nat, value: bool) returns (r: Index)
      requires Valid() && start <= bitCnt
      modifies bits
      ensures FirstFit(old(Bits()), start, cnt, value, r)
      ensures Bits() == if r.At? then Fill(old(Bits()), r.index, cnt, !value) else old(Bits())
    {
      r := Scan(start, cnt, value);
      if r.At? { SetMultiple(r.index, cnt, !value); }
    }
  }

  /** There is only one first fit. */
  lemma FirstFitUnique(s: seq<bool>, start: nat, cnt: nat, value: bool, r: Index, r': Index)
    requires FirstFit(s, start, cnt, value, r) && FirstFit(s, start, cnt, value, r')
    ensures r == r'
  {
    if r.At? && r'.At? {
      assert !(r.index < r'.index) && !(r'.index < r.index);
    }
  }

  /** No bits at all fit right away, so a search for none returns the start, which is 0
      exactly if it starts at 0. */
  lemma {:induction false} ZeroCount(s: seq<bool>, start: nat, value: bool, r: Index)
    requires start <= |s| && FirstFit(s, start, 0, value, r)
    ensures r == At(start) && (r == At(0) <==> start == 0)
  {
    assert AllAre(s, start, 0, value);
  }

  /** Instance: a search that starts behind the first bit does not return 0. */
  lemma {:induction false} ZeroCountNotZero(r: Index)
    requires FirstFit([false, false], 1, 0, false, r)
    ensures r == At(1)
  {
    ZeroCount([false, false], 1, false, r);
  }
}
