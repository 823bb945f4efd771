/**
 The heap sort and the binary search of `lib/stdlib.c`.  Elements are values; the order is
 any strict weak one, and a comparison is positive if the second element is less than the
 first.  Indexes into the heap are 1-based, as in the original.
 */
module HeapSort {
  import opened ListOrder

  /** Element i of a 1-based array. */
  function El(s: seq<Addr>, i: nat): Addr
    requires 1 <= i <= |s|
  {
    s[i - 1]
  }

  /** c is not above its parent. */
  predicate Ok(s: seq<Addr>, c: nat, less: Less)
    requires 2 <= c <= |s|
  {
    !less(El(s, c / 2), El(s, c))
  }

  /** The subtrees at i and beyond, among the first n elements, are heaps. */
  ghost predicate HeapFrom(s: seq<Addr>, i: nat, n: nat, less: Less)
    requires n <= |s|
  {
    forall c {:trigger Ok(s, c, less)} :: 2 <= c <= n && i <= c / 2 ==> Ok(s, c, less)
  }

  /** The same except at j, whose subtrees are below what j's parent is. */
  ghost predicate Floating(s: seq<Addr>, i: nat, n: nat, j: nat, less: Less)
    requires 1 <= i <= j <= n <= |s|
  {
    && (forall c {:trigger Ok(s, c, less)} :: 2 <= c <= n && i <= c / 2 && c / 2 != j ==> Ok(s, c, less))
    && (forall c {:trigger El(s, c)} :: 2 <= c <= n && c / 2 == j && i <= j / 2 ==> !less(El(s, j / 2), El(s, c)))
  }

  function Swapped(s: seq<Addr>, i: nat, j: nat): (r: seq<Addr>)
    requires 1 <= i <= |s| && 1 <= j <= |s|
    ensures |r| == |s| && forall k :: 1 <= k <= |s| ==> El(r, k) == El(s, if k == i then j else if k == j then i else k)
  {
    s[i - 1 := s[j - 1]][j - 1 := s[i - 1]]
  }

  lemma SwapKeeps(s: seq<Addr>, i: nat, j: nat, n: nat)
    requires 1 <= i <= n <= |s| && 1 <= j <= n
    ensures multiset(Swapped(s, i, j)[..n]) == multiset(s[..n]) && Swapped(s, i, j)[n..] == s[n..]
  {
    var p := s[..n];
    assert Swapped(s, i, j)[..n] == p[i - 1 := p[j - 1]][j - 1 := p[i - 1]];
  }

  /** Of j and its children max is the greatest. */
  ghost predicate Greatest(s: seq<Addr>, n: nat, j: nat, max: nat, less: Less)
    requires 1 <= j <= n <= |s| && 1 <= max <= n
  {
    && (max == j || (max / 2 == j && less(El(s, j), El(s, max))))
    && forall c {:trigger El(s, c)} :: 2 <= c <= n && c / 2 == j ==> !less(El(s, max), El(s, c))
  }

  /** Swapping the greatest up moves the one place that is out of order down. */
  lemma FloatDown(s: seq<Addr>, i: nat, n: nat, j: nat, max: nat, less: Less)
    requires StrictWeak(less) && 1 <= i <= j <= n <= |s| && 1 <= max <= n && max != j
    requires Floating(s, i, n, j, less) && Greatest(s, n, j, max, less)
    ensures Floating(Swapped(s, j, max), i, n, max, less)
  {
    var r := Swapped(s, j, max);
    forall c | 2 <= c <= n && i <= c / 2 && c / 2 != max ensures Ok(r, c, less) {
      if c / 2 != j && c != j { assert Ok(s, c, less); }
    }
    forall c | 2 <= c <= n && c / 2 == max ensures !less(El(r, max / 2), El(r, c)) {
      assert Ok(s, c, less);
    }
  }

  lemma Settled(s: seq<Addr>, i: nat, n: nat, j: nat, less: Less)
    requires 1 <= i <= j <= n <= |s| && Floating(s, i, n, j, less) && Greatest(s, n, j, j, less)
    ensures HeapFrom(s, i, n, less)
  {
    forall c | 2 <= c <= n && i <= c / 2 ensures Ok(s, c, less) {
      if c / 2 == j { assert !less(El(s, j), El(s, c)); }
    }
  }

  /** The index of the greatest of j and its children. */
  method GreatestOf(a: array<Addr>, j: nat, cnt: nat, less: Less) returns (max: nat)
    requires StrictWeak(less) && 1 <= j <= cnt <= a.Length
    ensures 1 <= max <= cnt && Greatest(a[..], cnt, j, max, less)
  {
    var left, right := 2 * j, 2 * j + 1;
    max := j;
    if left <= cnt && less(a[max - 1], a[left - 1]) { max := left; }
    if right <= cnt && less(a[max - 1], a[right - 1]) { max := right; }
    ghost var s := a[..];
    assert forall k :: 1 <= k <= cnt ==> El(s, k) == a[k - 1];
    if right <= cnt {
      Between(less, El(s, j), El(s, left), El(s, right));
      Between(less, El(s, j), El(s, right), El(s, left));
    }
    forall c | 2 <= c <= cnt && c / 2 == j ensures !less(El(s, max), El(s, c)) {
      assert c == left || c == right;
    }
  }

  /** Floats element i down: its subtree becomes a heap. */
  method Heapify(a: array<Addr>, i: nat, cnt: nat, less: Less)
    requires StrictWeak(less) && 1 <= i <= cnt <= a.Length && HeapFrom(a[..], i + 1, cnt, less)
    modifies a
    ensures HeapFrom(a[..], i, cnt, less)
    ensures multiset(a[..cnt]) == multiset(old(a[..cnt])) && a[cnt..] == old(a[cnt..])
  {
    var j := i;
    while true
      invariant i <= j <= cnt && Floating(a[..], i, cnt, j, less)
      invariant multiset(a[..cnt]) == multiset(old(a[..cnt])) && a[cnt..] == old(a[cnt..])
      decreases cnt - j
    {
      var max := GreatestOf(a, j, cnt, less);
      if max == j { break; }
      FloatDown(a[..], i, cnt, j, max, less);
      DoSwap(a, j, max, cnt);
      j := max;
    }
    Settled(a[..], i, cnt, j, less);
  }

  method DoSwap(a: array<Addr>, i: nat, j: nat, ghost n: nat)
    requires 1 <= i <= n <= a.Length && 1 <= j <= n
    modifies a
    ensures a[..] == Swapped(old(a[..]), i, j)
    ensures multiset(a[..n]) == multiset(old(a[..n])) && a[n..] == old(a[n..])
  {
    SwapKeeps(a[..], i, j, n);
    ghost var s := a[..];
    a[i - 1], a[j - 1] := a[j - 1], a[i - 1];
    assert a[..] == Swapped(s, i, j);
    assert a[..n] == a[..][..n] && s[..n] == old(a[..n]) && a[n..] == a[..][n..];
  }

  // ---------------------------------------------------------------------
  // The sort
  // ---------------------------------------------------------------------

  /** The root of a heap is nowhere exceeded. */
  lemma {:induction false} RootGreatest(s: seq<Addr>, n: nat, c: nat, less: Less)
    requires StrictWeak(less) && 1 <= c <= n <= |s| && HeapFrom(s, 1, n, less)
    ensures !less(El(s, 1), El(s, c))
  {
    if c > 1 {
      RootGreatest(s, n, c / 2, less);
      assert Ok(s, c, less);
      Between(less, El(s, 1), El(s, c / 2), El(s, c));
    }
  }

  /** The elements from i on are in place: in order, and not below any before them. */
  ghost predicate InPlace(s: seq<Addr>, i: nat, less: Less)
    requires i <= |s|
  {
    && Sorted(s[i..], less)
    && forall p, q {:trigger s[p], s[q]} :: 0 <= p < i <= q < |s| ==> !less(s[q], s[p])
  }

  /** Rearranging the elements before i leaves the others in place. */
  lemma StillInPlace(s: seq<Addr>, r: seq<Addr>, i: nat, less: Less)
    requires i <= |s| == |r| && InPlace(s, i, less) && multiset(r[..i]) == multiset(s[..i]) && r[i..] == s[i..]
    ensures InPlace(r, i, less)
  {
    forall p, q | 0 <= p < i <= q < |r| ensures !less(r[q], r[p]) {
      assert r[..i][p] in multiset(r[..i]);
      assert r[p] in s[..i];
      var p' :| 0 <= p' < i && s[p'] == r[p];
      assert r[q] == r[i..][q - i] == s[q];
    }
  }

  /** Swapping the root of the heap with the last element puts that one in place. */
  lemma OneMoreInPlace(s: seq<Addr>, i: nat, less: Less)
    requires StrictWeak(less) && 1 < i <= |s| && HeapFrom(s, 1, i, less) && InPlace(s, i, less)
    ensures InPlace(Swapped(s, 1, i), i - 1, less)
    ensures HeapFrom(Swapped(s, 1, i), 2, i - 1, less)
  {
    var r := Swapped(s, 1, i);
    assert forall k :: 0 <= k < |s| ==> r[k] == El(r, k + 1) && s[k] == El(s, k + 1);
    forall p, q | 0 <= p < q < |r| && i - 1 <= q ensures !less(r[q], r[p]) {
      if q == i - 1 {
        RootGreatest(s, i, if p == 0 then i else p + 1, less);
      } else if p < i {
        assert !less(s[q], s[if p == 0 then i - 1 else if p == i - 1 then 0 else p]);
      } else {
        assert s[i..][p - i] == s[p] && s[i..][q - i] == s[q];
      }
    }
    forall c | 2 <= c <= i - 1 && 2 <= c / 2 ensures Ok(r, c, less) { assert Ok(s, c, less); }
  }

  method BuildHeap(a: array<Addr>, less: Less)
    requires StrictWeak(less)
    modifies a
    ensures HeapFrom(a[..], 1, a.Length, less) && multiset(a[..]) == multiset(old(a[..]))
  {
    var n := a.Length;
    var i: nat := n / 2;
    assert a[..n] == a[..];
    while i > 0
      invariant i <= n / 2 && HeapFrom(a[..], i + 1, n, less) && multiset(a[..n]) == multiset(old(a[..]))
    {
      Heapify(a, i, n, less);
      i := i - 1;
    }
    assert a[..n] == a[..];
  }

  /** Takes the root to the end of the heap and restores the heap without it. */
  method TakeRoot(a: array<Addr>, i: nat, less: Less)
    requires StrictWeak(less) && 1 < i <= a.Length && HeapFrom(a[..], 1, i, less) && InPlace(a[..], i, less)
    modifies a
    ensures HeapFrom(a[..], 1, i - 1, less) && InPlace(a[..], i - 1, less) && multiset(a[..]) == multiset(old(a[..]))
  {
    OneMoreInPlace(a[..], i, less);
    DoSwap(a, 1, i, a.Length);
    assert a[..a.Length] == a[..] && old(a[..a.Length]) == old(a[..]);
    ghost var s := a[..];
    assert s[..i - 1] == a[..i - 1] && s[i - 1..] == a[i - 1..];
    Heapify(a, 1, i - 1, less);
    assert a[..][..i - 1] == a[..i - 1] && a[..][i - 1..] == a[i - 1..];
    StillInPlace(s, a[..], i - 1, less);
    SameElements(s, a[..], i - 1);
  }

  lemma SameElements(s: seq<Addr>, r: seq<Addr>, n: nat)
    requires n <= |s| == |r| && multiset(r[..n]) == multiset(s[..n]) && r[n..] == s[n..]
    ensures multiset(r) == multiset(s)
  {
    assert r == r[..n] + r[n..] && s == s[..n] + s[n..];
  }

  /** The array is sorted and has the elements it had. */
  method Sort(a: array<Addr>, less: Less)
    requires StrictWeak(less)
    modifies a
    ensures Sorted(a[..], less) && multiset(a[..]) == multiset(old(a[..]))
  {
    BuildHeap(a, less);
    var i: nat := a.Length;
    while i > 1
      invariant i <= a.Length && HeapFrom(a[..], 1, i, less) && InPlace(a[..], i, less)
      invariant multiset(a[..]) == multiset(old(a[..]))
    {
      TakeRoot(a, i, less);
      i := i - 1;
    }
    AllInPlace(a[..], i, less);
  }

  lemma AllInPlace(s: seq<Addr>, i: nat, less: Less)
    requires i <= 1 && i <= |s| && InPlace(s, i, less)
    ensures Sorted(s, less)
  {
    forall p, q | 0 <= p < q < |s| ensures !less(s[q], s[p]) {
      if p >= i { assert s[i..][p - i] == s[p] && s[i..][q - i] == s[q]; }
    }
  }

  // ---------------------------------------------------------------------
  // The search
  // ---------------------------------------------------------------------

  /** In a sorted array: an element equal to the key, or -1 exactly if there is none. */
  method BinarySearch(key: Addr, s: seq<Addr>, less: Less) returns (r: int)
    requires StrictWeak(less) && Sorted(s, less)
    ensures -1 <= r < |s|
    ensures r >= 0 ==> Equiv(s[r], key, less)
    ensures r == -1 <==> forall k :: 0 <= k < |s| ==> !Equiv(s[k], key, less)
  {
    var first, last := 0, |s|;
    while first < last
      invariant 0 <= first <= last <= |s|
      invariant forall k {:trigger s[k]} :: 0 <= k < first ==> less(s[k], key)
      invariant forall k {:trigger s[k]} :: last <= k < |s| ==> less(key, s[k])
      decreases last - first
    {
      var middle := first + (last - first) / 2;
      if less(key, s[middle]) {
        RightOut(s, less, key, middle);
        last := middle;
      } else if less(s[middle], key) {
        LeftOut(s, less, key, middle);
        first := middle + 1;
      } else {
        return middle;
      }
    }
    return -1;
  }

  lemma RightOut(s: seq<Addr>, less: Less, key: Addr, m: nat)
    requires StrictWeak(less) && Sorted(s, less) && m < |s| && less(key, s[m])
    ensures forall k {:trigger s[k]} :: m <= k < |s| ==> less(key, s[k])
  {
    forall k | m < k < |s| ensures less(key, s[k]) { Between(less, key, s[k], s[m]); }
  }

  lemma LeftOut(s: seq<Addr>, less: Less, key: Addr, m: nat)
    requires StrictWeak(less) && Sorted(s, less) && m < |s| && less(s[m], key)
    ensures forall k {:trigger s[k]} :: 0 <= k <= m ==> less(s[k], key)
  {
    forall k | 0 <= k < m ensures less(s[k], key) { Between(less, s[m], s[k], key); }
  }
}
