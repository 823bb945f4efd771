/** Sequences as sets, as lists and as strings. */
module Sequences {

  type Byte = b: int | 0 <= b < 256

  type Bytes = seq<Byte>

  /** A string has no null byte inside. */
  ghost predicate IsString(s: seq<int>) {
    forall i :: 0 <= i < |s| ==> s[i] != 0
  }

  ghost predicate NoDup(q: seq<int>) {
    forall i, j :: 0 <= i < j < |q| ==> q[i] != q[j]
  }

  ghost predicate Disjoint(p: seq<int>, q: seq<int>) {
    forall x :: x in p ==> x !in q
  }

  lemma NoDupConcat(p: seq<int>, q: seq<int>)
    requires NoDup(p) && NoDup(q) && Disjoint(p, q)
    ensures NoDup(p + q)
  {
    var r := p + q;
    forall i, j | 0 <= i < j < |r| ensures r[i] != r[j] {
      if i < |p| <= j { assert r[i] in p && r[j] in q; }
    }
  }

  function Zeros(n: nat): (z: Bytes)
    ensures |z| == n && forall i :: 0 <= i < n ==> z[i] == 0
  {
    seq(n, i => 0)
  }

  /** list_remove, on a list that holds x once. */
  function Remove<T(==)>(q: seq<T>, x: T): seq<T> {
    if q == [] then [] else if q[0] == x then q[1..] else [q[0]] + Remove(q[1..], x)
  }
}
