/**
 The chained hash table of `lib/kernel/hash.c`.  Elements are addresses, as in lists; a
 bucket is the sequence of its list.  `Bag` is what the table holds.
 */
module HashTable {
  import opened Options
  import opened Sequences
  import opened Words
  import opened ListOrder

  type Hasher = Addr -> nat

  /** Equal elements have equal hashes, and hashes are words. */
  ghost predicate HashOk(hash: Hasher, less: Less) {
    && (forall e :: hash(e) < B32)
    && (forall a, b :: Equiv(a, b, less) ==> hash(a) == hash(b))
  }

  // ---------------------------------------------------------------------
  // Powers of two
  // ---------------------------------------------------------------------

  /** turn_off_least_1bit */
  function TurnOff(x: nat): nat
    requires x > 0
  {
    And(x, x - 1)
  }

  predicate IsPowerOf2(x: nat) {
    x != 0 && TurnOff(x) == 0
  }

  /** The largest power of two that is not above x. */
  function TopPower(x: nat): (r: nat)
    requires x > 0
    ensures 0 < r <= x < 2 * r
  {
    if x == 1 then 1 else 2 * TopPower(x / 2)
  }

  lemma {:induction false} AndSelf(x: nat)
    ensures And(x, x) == x
  {
    if x > 0 { AndSelf(x / 2); }
  }

  /** r is x without its lowest 1 bit: smaller, but with the same highest bit unless
      nothing is left. */
  ghost predicate Trimmed(x: nat, r: nat)
    requires x > 0
  {
    && r < x
    && (r == 0 <==> x == TopPower(x))
    && (r > 0 ==> TopPower(r) == TopPower(x))
  }

  lemma {:induction false} TurnOffTop(x: nat)
    requires 0 < x
    ensures Trimmed(x, TurnOff(x))
  {
    var h := x / 2;
    if x % 2 == 1 {
      OddLow(x, h);
      OddTop(x);
    } else {
      TurnOffTop(h);
      EvenLow(h);
      EvenTop(h, TurnOff(h));
      assert x == 2 * h;
    }
  }

  lemma {:induction false} OddLow(x: nat, h: nat)
    requires x == 2 * h + 1
    ensures And(x, x - 1) == x - 1
  {
    assert x / 2 == h && (x - 1) / 2 == h && (x - 1) % 2 == 0;
    AndStep(x, x - 1);
    AndSelf(h);
  }

  lemma {:induction false} EvenLow(h: nat)
    requires h > 0
    ensures And(2 * h, 2 * h - 1) == 2 * And(h, h - 1)
  {
    AndStep(2 * h, 2 * h - 1);
    assert (2 * h - 1) / 2 == h - 1 && 2 * h / 2 == h;
  }

  lemma EvenTop(h: nat, r: nat)
    requires h > 0 && Trimmed(h, r)
    ensures Trimmed(2 * h, 2 * r)
  {
    DoubleTop(h);
    if r > 0 { DoubleTop(r); }
  }

  lemma {:induction false} OddTop(x: nat)
    requires x % 2 == 1
    ensures x - 1 == 0 <==> x == TopPower(x)
    ensures x > 1 ==> TopPower(x - 1) == TopPower(x)
  {
  }

  lemma {:induction false} DoubleTop(h: nat)
    requires h > 0
    ensures TopPower(2 * h) == 2 * TopPower(h)
  {
    assert 2 * h / 2 == h;
  }

  lemma {:induction false} TopIsPow2(x: nat) returns (k: nat)
    requires x > 0
    ensures TopPower(x) == Pow2(k)
  {
    if x == 1 {
      k := 0;
    } else {
      k := TopIsPow2(x / 2);
      k := k + 1;
    }
  }

  lemma {:induction false} Pow2Top(k: nat)
    ensures TopPower(Pow2(k)) == Pow2(k)
  {
    if k > 0 { Pow2Top(k - 1); }
  }

  /** The test for powers of two is right. */
  lemma {:induction false} PowerTest(x: nat)
    ensures IsPowerOf2(x) <==> exists k: nat :: x == Pow2(k)
  {
    if x > 0 {
      TurnOffTop(x);
      if IsPowerOf2(x) { var k := TopIsPow2(x); }
      forall k: nat | x == Pow2(k) ensures IsPowerOf2(x) { Pow2Top(k); }
    }
  }

  // ---------------------------------------------------------------------
  // Buckets
  // ---------------------------------------------------------------------

  /** find_bucket: the number of the bucket for a hash. */
  function Slot(h: nat, cnt: nat): nat
    requires cnt > 0
  {
    And(h, cnt - 1)
  }

  lemma {:induction false} SlotInRange(h: nat, cnt: nat)
    requires exists k: nat :: cnt == Pow2(k)
    ensures Slot(h, cnt) == h % cnt < cnt
  {
    var k: nat :| cnt == Pow2(k);
    MaskIsLow(h, k);
    LowPartIs(h, k);
  }

  /** All elements of the table. */
  function Bag(b: seq<seq<Addr>>): multiset<Addr> {
    if b == [] then multiset{} else Bag(b[..|b| - 1]) + multiset(b[|b| - 1])
  }

  lemma {:induction false} BagUpdate(b: seq<seq<Addr>>, i: nat, q: seq<Addr>)
    requires i < |b|
    ensures multiset(b[i]) <= Bag(b)
    ensures Bag(b[i := q]) == Bag(b) - multiset(b[i]) + multiset(q)
  {
    var n := |b| - 1;
    if i < n {
      BagUpdate(b[..n], i, q);
      assert b[i := q][..n] == b[..n][i := q];
    } else {
      assert b[i := q][..n] == b[..n];
    }
  }

  lemma {:induction false} BagHas(b: seq<seq<Addr>>, e: Addr)
    ensures e in Bag(b) <==> exists i :: 0 <= i < |b| && e in b[i]
  {
    if b != [] {
      var n := |b| - 1;
      BagHas(b[..n], e);
      assert e in Bag(b) <==> e in Bag(b[..n]) || e in b[n];
      if e in Bag(b[..n]) {
        var i :| 0 <= i < n && e in b[..n][i];
        assert e in b[i];
      }
      forall i | 0 <= i < |b| && e in b[i] ensures e in Bag(b) { if i < n { assert e in b[..n][i]; } }
    }
  }

  lemma {:induction false} BagEmpty(b: seq<seq<Addr>>)
    requires forall i :: 0 <= i < |b| ==> b[i] == []
    ensures Bag(b) == multiset{}
  {
    if b != [] { BagEmpty(b[..|b| - 1]); }
  }

  /** No element is there twice, and no two are equal. */
  ghost predicate Separate(m: multiset<Addr>, less: Less) {
    && (forall x :: m[x] <= 1)
    && (forall x, y :: x in m && y in m && Equiv(x, y, less) ==> x == y)
  }

  /** Every element is in the bucket its hash selects. */
  ghost predicate Placed(b: seq<seq<Addr>>, hash: Hasher)
    requires |b| > 0
  {
    forall i, e {:trigger e in b[i]} :: 0 <= i < |b| && e in b[i] ==> Slot(hash(e), |b|) == i
  }

  ghost predicate CountOk(cnt: nat) {
    4 <= cnt < B32 && exists k: nat :: cnt == Pow2(k)
  }

  ghost predicate TableOk(b: seq<seq<Addr>>, n: nat, hash: Hasher, less: Less) {
    CountOk(|b|) && n == |Bag(b)| && Placed(b, hash) && Separate(Bag(b), less)
  }

  /** An element equal to e can only be in e's bucket. */
  lemma {:induction false} OnlyInSlot(b: seq<seq<Addr>>, hash: Hasher, less: Less, e: Addr, x: Addr)
    requires CountOk(|b|) && Placed(b, hash) && HashOk(hash, less) && Equiv(x, e, less)
    ensures Slot(hash(e), |b|) < |b|
    ensures x in Bag(b) <==> x in b[Slot(hash(e), |b|)]
  {
    SlotInRange(hash(e), |b|);
    BagHas(b, x);
  }

  lemma {:induction false} RemoveOne(q: seq<Addr>, e: Addr)
    requires e in q
    ensures multiset(Remove(q, e)) == multiset(q) - multiset{e}
    ensures forall x :: x in Remove(q, e) ==> x in q
  {
    assert q == [q[0]] + q[1..];
    if q[0] != e {
      RemoveOne(q[1..], e);
      assert multiset(q[1..])[e] >= 1;
    }
  }

  class Table {
    var elemCnt: nat
    var buckets: seq<seq<Addr>>
    const hash: Hasher
    const less: Less

    ghost predicate Valid()
      reads this
    {
      StrictWeak(less) && HashOk(hash, less) && TableOk(buckets, elemCnt, hash, less)
    }

    constructor (hash: Hasher, less: Less)
      requires StrictWeak(less) && HashOk(hash, less)
      ensures Valid() && Bag(buckets) == multiset{} && this.hash == hash && this.less == less
    {
      this.hash := hash;
      this.less := less;
      elemCnt := 0;
      buckets := [[], [], [], []];
      new;
      BagEmpty(buckets);
      assert |buckets| == Pow2(2);
    }

    /** The element of a bucket that is equal to e. */
    method FindElem(bucket: nat, e: Addr) returns (r: Option<Addr>)
      requires bucket < |buckets|
      ensures r.Some? ==> r.value in buckets[bucket] && Equiv(r.value, e, less)
      ensures r.None? ==> forall x :: x in buckets[bucket] ==> !Equiv(x, e, less)
    {
      var q := buckets[bucket];
      for i := 0 to |q|
        invariant forall j :: 0 <= j < i ==> !Equiv(q[j], e, less)
      {
        if !less(q[i], e) && !less(e, q[i]) { return Some(q[i]); }
      }
      return None;
    }

    /** What is found is the one element of the table that is equal to e. */
    method Lookup(e: Addr) returns (bucket: nat, r: Option<Addr>)
      requires Valid()
      ensures bucket == Slot(hash(e), |buckets|) < |buckets|
      ensures r.Some? ==> r.value in buckets[bucket] && r.value in Bag(buckets) && Equiv(r.value, e, less)
      ensures r.None? ==> forall x :: x in Bag(buckets) ==> !Equiv(x, e, less)
    {
      SlotInRange(hash(e), |buckets|);
      bucket := Slot(hash(e), |buckets|);
      r := FindElem(bucket, e);
      forall x | Equiv(x, e, less) ensures x in Bag(buckets) <==> x in buckets[bucket] {
        OnlyInSlot(buckets, hash, less, e, x);
      }
    }

    method Find(e: Addr) returns (r: Option<Addr>)
      requires Valid()
      ensures r.Some? ==> r.value in Bag(buckets) && Equiv(r.value, e, less)
      ensures r.None? ==> forall x :: x in Bag(buckets) ==> !Equiv(x, e, less)
    {
      var bucket;
      bucket, r := Lookup(e);
    }

    method InsertElem(bucket: nat, e: Addr)
      requires Valid() && bucket == Slot(hash(e), |buckets|) < |buckets|
      requires forall x :: x in Bag(buckets) ==> !Equiv(x, e, less)
      modifies this
      ensures Valid() && Bag(buckets) == old(Bag(buckets)) + multiset{e}
    {
      Inserted(buckets, elemCnt, hash, less, bucket, e);
      elemCnt := elemCnt + 1;
      buckets := buckets[bucket := [e] + buckets[bucket]];
    }

    method RemoveElem(bucket: nat, e: Addr)
      requires Valid() && bucket < |buckets| && e in buckets[bucket]
      modifies this
      ensures Valid() && |buckets| == old(|buckets|)
      ensures e in old(Bag(buckets)) && Bag(buckets) == old(Bag(buckets)) - multiset{e}
    {
      Taken(buckets, elemCnt, hash, less, bucket, e);
      elemCnt := elemCnt - 1;
      buckets := buckets[bucket := Remove(buckets[bucket], e)];
    }

    method Insert(e: Addr, alloc: bool) returns (r: Option<Addr>)
      requires Valid() && elemCnt < B32 - 1
      modifies this
      ensures Valid()
      ensures r.Some? ==> r.value in old(Bag(buckets)) && Equiv(r.value, e, less) && Bag(buckets) == old(Bag(buckets))
      ensures r.None? ==>
        (forall x :: x in old(Bag(buckets)) ==> !Equiv(x, e, less)) && Bag(buckets) == old(Bag(buckets)) + multiset{e}
    {
      var bucket;
      bucket, r := Lookup(e);
      if r.None? { InsertElem(bucket, e); }
      Rehash(alloc);
    }

    method Replace(e: Addr, alloc: bool) returns (r: Option<Addr>)
      requires Valid() && elemCnt < B32 - 1
      modifies this
      ensures Valid()
      ensures r.Some? ==> r.value in old(Bag(buckets)) && Equiv(r.value, e, less)
      ensures r.Some? ==> Bag(buckets) == old(Bag(buckets)) - multiset{r.value} + multiset{e}
      ensures r.None? ==>
        (forall x :: x in old(Bag(buckets)) ==> !Equiv(x, e, less)) && Bag(buckets) == old(Bag(buckets)) + multiset{e}
    {
      var bucket;
      bucket, r := Lookup(e);
      if r.Some? {
        OneEqual(Bag(buckets), r.value, e, less);
        RemoveElem(bucket, r.value);
      }
      InsertElem(bucket, e);
      Rehash(alloc);
    }

    method Delete(e: Addr, alloc: bool) returns (r: Option<Addr>)
      requires Valid() && elemCnt < B32
      modifies this
      ensures Valid()
      ensures r.Some? ==> r.value in old(Bag(buckets)) && Equiv(r.value, e, less)
      ensures r.Some? ==> Bag(buckets) == old(Bag(buckets)) - multiset{r.value}
      ensures r.None? ==> (forall x :: x in old(Bag(buckets)) ==> !Equiv(x, e, less)) && Bag(buckets) == old(Bag(buckets))
    {
      var bucket;
      bucket, r := Lookup(e);
      if r.Some? {
        RemoveElem(bucket, r.value);
        Rehash(alloc);
      }
    }

    /** The number of buckets wanted: the largest power of two up to half the elements,
        but at least four. */
    method BestCount() returns (cnt: nat)
      requires elemCnt < B32
      ensures cnt == TopPower(if elemCnt / 2 < 4 then 4 else elemCnt / 2) && CountOk(cnt)
    {
      cnt := elemCnt / 2;
      if cnt < 4 { cnt := 4; }
      ghost var start := cnt;
      PowerStep(cnt);
      while !IsPowerOf2(cnt)
        invariant 0 < cnt <= start && TopPower(cnt) == TopPower(start)
        invariant IsPowerOf2(cnt) <==> cnt == TopPower(cnt)
        decreases cnt
      {
        PowerStep(cnt);
        cnt := TurnOff(cnt);
        PowerStep(cnt);
      }
      TopCount(start);
    }

    /** alloc tells whether there is memory for new buckets.  Without it nothing changes;
        with it there are as many buckets as wanted.  Either way the contents stay. */
    method Rehash(alloc: bool)
      requires Valid() && elemCnt < B32
      modifies this
      ensures Valid() && Bag(buckets) == old(Bag(buckets)) && elemCnt == old(elemCnt)
      ensures |buckets| == (if alloc then TopPower(if elemCnt / 2 < 4 then 4 else elemCnt / 2) else old(|buckets|))
    {
      var cnt := BestCount();
      if cnt == |buckets| || !alloc { return; }
      var was := buckets;
      var now := seq(cnt, i => []);
      BagEmpty(now);
      for i := 0 to |was|
        invariant |now| == cnt && Bag(now) == Bag(was[..i]) && Placed(now, hash)
        invariant buckets == was && elemCnt == old(elemCnt)
      {
        now := Deal(was[i], now);
        assert was[..i + 1][..i] == was[..i];
      }
      assert was[..|was|] == was;
      buckets := now;
    }

    /** Moves the elements of an old bucket to their new ones. */
    method Deal(bucket: seq<Addr>, now: seq<seq<Addr>>) returns (r: seq<seq<Addr>>)
      requires CountOk(|now|) && Placed(now, hash)
      ensures |r| == |now| && Placed(r, hash) && Bag(r) == Bag(now) + multiset(bucket)
    {
      r := now;
      for j := 0 to |bucket|
        invariant |r| == |now| && Placed(r, hash) && Bag(r) == Bag(now) + multiset(bucket[..j])
      {
        var e := bucket[j];
        SlotInRange(hash(e), |r|);
        Dealt(r, hash, e);
        OneMoreOf(bucket, j, Bag(now));
        r := r[Slot(hash(e), |r|) := [e] + r[Slot(hash(e), |r|)]];
      }
      assert bucket[..|bucket|] == bucket;
    }
  }

  lemma OneMoreOf(bucket: seq<Addr>, j: nat, bag: multiset<Addr>)
    requires j < |bucket|
    ensures bag + multiset(bucket[..j + 1]) == bag + multiset(bucket[..j]) + multiset{bucket[j]}
  {
    assert bucket[..j + 1] == bucket[..j] + [bucket[j]];
  }

  lemma {:induction false} PowerStep(x: nat)
    requires 0 < x
    ensures TurnOff(x) < x && (IsPowerOf2(x) <==> x == TopPower(x))
    ensures !IsPowerOf2(x) ==> TurnOff(x) > 0 && TopPower(TurnOff(x)) == TopPower(x)
  {
    TurnOffTop(x);
  }

  lemma {:induction false} TopCount(x: nat)
    requires 4 <= x < B32
    ensures CountOk(TopPower(x))
  {
    var k := TopIsPow2(x);
    assert TopPower(x) == 2 * TopPower(x / 2) && TopPower(x / 2) == 2 * TopPower(x / 2 / 2);
  }

  lemma {:induction false} Inserted(b: seq<seq<Addr>>, n: nat, hash: Hasher, less: Less, i: nat, e: Addr)
    requires TableOk(b, n, hash, less) && StrictWeak(less) && i == Slot(hash(e), |b|) < |b|
    requires forall x :: x in Bag(b) ==> !Equiv(x, e, less)
    ensures TableOk(b[i := [e] + b[i]], n + 1, hash, less)
    ensures Bag(b[i := [e] + b[i]]) == Bag(b) + multiset{e}
  {
    Dealt(b, hash, e);
    AddSeparate(Bag(b), e, less);
  }

  /** One more element at the front of its bucket. */
  lemma {:induction false} Dealt(b: seq<seq<Addr>>, hash: Hasher, e: Addr)
    requires |b| > 0 && Placed(b, hash) && Slot(hash(e), |b|) < |b|
    ensures var i := Slot(hash(e), |b|);
      Placed(b[i := [e] + b[i]], hash) && Bag(b[i := [e] + b[i]]) == Bag(b) + multiset{e}
  {
    var i := Slot(hash(e), |b|);
    var q := [e] + b[i];
    BagUpdate(b, i, q);
    assert multiset(q) == multiset{e} + multiset(b[i]);
    var b' := b[i := q];
    forall j, x | 0 <= j < |b| && x in b'[j] ensures Slot(hash(x), |b|) == j {
      if j == i && x != e { assert x in b[i]; }
    }
  }

  lemma {:induction false} Taken(b: seq<seq<Addr>>, n: nat, hash: Hasher, less: Less, i: nat, e: Addr)
    requires TableOk(b, n, hash, less) && i < |b| && e in b[i]
    ensures n > 0 && TableOk(b[i := Remove(b[i], e)], n - 1, hash, less)
    ensures e in Bag(b) && Bag(b[i := Remove(b[i], e)]) == Bag(b) - multiset{e}
  {
    var q := Remove(b[i], e);
    BagUpdate(b, i, q);
    RemoveOne(b[i], e);
    BagHas(b, e);
    RemoveSeparate(Bag(b), e, less);
    SameBag(Bag(b), multiset(b[i]), multiset(q), e);
    var b' := b[i := q];
    forall j, x | 0 <= j < |b| && x in b'[j] ensures Slot(hash(x), |b|) == j {
      if j == i { assert x in b[i]; }
    }
  }

  lemma SameBag(m: multiset<Addr>, x: multiset<Addr>, y: multiset<Addr>, e: Addr)
    requires x <= m && y == x - multiset{e} && e in x
    ensures m - x + y == m - multiset{e} && |m - multiset{e}| == |m| - 1
  {
  }

  /** Without the one element equal to e, nothing is equal to e. */
  lemma OneEqual(m: multiset<Addr>, x: Addr, e: Addr, less: Less)
    requires StrictWeak(less) && Separate(m, less) && x in m && Equiv(x, e, less)
    ensures forall y :: y in m - multiset{x} ==> !Equiv(y, e, less)
  {
    forall y | y in m - multiset{x} ensures !Equiv(y, e, less) {
      if Equiv(y, e, less) { assert Equiv(y, x, less); }
    }
  }

  lemma AddSeparate(m: multiset<Addr>, e: Addr, less: Less)
    requires StrictWeak(less) && Separate(m, less) && forall x :: x in m ==> !Equiv(x, e, less)
    ensures Separate(m + multiset{e}, less)
  {
    assert e !in m;
    forall x, y | x in m + multiset{e} && y in m + multiset{e} && Equiv(x, y, less) ensures x == y {
      assert Equiv(y, x, less);
    }
  }

  lemma RemoveSeparate(m: multiset<Addr>, e: Addr, less: Less)
    requires Separate(m, less)
    ensures Separate(m - multiset{e}, less)
  {
  }

  // ---------------------------------------------------------------------
  // Iteration
  // ---------------------------------------------------------------------

  /** The buckets one after the other. */
  function Flat(b: seq<seq<Addr>>): seq<Addr> {
    if b == [] then [] else b[0] + Flat(b[1..])
  }

  lemma {:induction false} FlatConcat(a: seq<seq<Addr>>, b: seq<seq<Addr>>)
    ensures Flat(a + b) == Flat(a) + Flat(b)
  {
    if a == [] {
      assert a + b == b;
    } else {
      assert (a + b)[1..] == a[1..] + b;
      FlatConcat(a[1..], b);
    }
  }

  lemma {:induction false} FlatIsBag(b: seq<seq<Addr>>)
    ensures multiset(Flat(b)) == Bag(b)
  {
    if b != [] {
      var n := |b| - 1;
      FlatIsBag(b[..n]);
      assert b == b[..n] + [b[n]];
      FlatConcat(b[..n], [b[n]]);
      assert Flat([b[n]]) == b[n];
    }
  }

  /** hash_iterator: stands on element pos of a bucket, or before its first at -1. */
  class Cursor {
    const table: Table
    var bucket: nat
    var pos: int
    var done: bool

    ghost predicate Valid()
      reads this, table
    {
      !done ==> bucket < |table.buckets| && -1 <= pos < |table.buckets[bucket]|
    }

    /** The elements still to come. */
    ghost function Rest(): seq<Addr>
      requires Valid()
      reads this, table
    {
      if done then [] else From(table.buckets, bucket, pos + 1)
    }

    /** hash_first */
    constructor (t: Table)
      requires |t.buckets| > 0
      ensures table == t && Valid() && !done && Rest() == Flat(t.buckets)
    {
      table := t;
      bucket := 0;
      pos := -1;
      done := false;
    }

    /** Delivers the elements in order and then says that there are no more. */
    method Next() returns (r: Option<Addr>)
      requires Valid() && !done
      modifies this
      ensures Valid()
      ensures r.None? <==> old(Rest()) == []
      ensures r.None? <==> done
      ensures r.Some? ==> old(Rest()) == [r.value] + Rest()
    {
      pos := pos + 1;
      var b := table.buckets;
      while pos == |b[bucket]|
        invariant !done && bucket < |b| && 0 <= pos <= |b[bucket]|
        invariant From(b, bucket, pos) == old(Rest())
        decreases |b| - bucket
      {
        NextBucket(b, bucket);
        bucket := bucket + 1;
        if bucket >= |b| {
          done := true;
          return None;
        }
        pos := 0;
      }
      NextElem(b, bucket, pos);
      r := Some(b[bucket][pos]);
    }
  }

  /** What is left from element i of a bucket on. */
  function From(b: seq<seq<Addr>>, bucket: nat, i: nat): seq<Addr>
    requires bucket < |b| && i <= |b[bucket]|
  {
    b[bucket][i..] + Flat(b[bucket + 1..])
  }

  lemma NextBucket(b: seq<seq<Addr>>, k: nat)
    requires k < |b|
    ensures From(b, k, |b[k]|) == if k + 1 < |b| then From(b, k + 1, 0) else []
  {
    if k + 1 < |b| { assert b[k + 1..][1..] == b[k + 2..]; }
  }

  lemma NextElem(b: seq<seq<Addr>>, k: nat, i: nat)
    requires k < |b| && i < |b[k]|
    ensures From(b, k, i) == [b[k][i]] + From(b, k, i + 1)
  {
    assert b[k][i..] == [b[k][i]] + b[k][i + 1..];
  }

  /** seen, the element just delivered, if any, and the rest make up the table. */
  ghost predicate Walked(b: seq<seq<Addr>>, seen: seq<Addr>, r: Option<Addr>, rest: seq<Addr>) {
    if r.Some? then Flat(b) == seen + ([r.value] + rest) else Flat(b) == seen
  }

  lemma WalkedOn(b: seq<seq<Addr>>, seen: seq<Addr>, x: Addr, rest: seq<Addr>, r: Option<Addr>, rest': seq<Addr>)
    requires Walked(b, seen, Some(x), rest) && rest == if r.Some? then [r.value] + rest' else []
    ensures Walked(b, seen + [x], r, rest')
  {
    assert seen + ([x] + rest) == (seen + [x]) + rest;
  }

  /** The documented way to walk a table sees every element exactly once. */
  method Walk(t: Table) returns (seen: seq<Addr>)
    requires |t.buckets| > 0
    ensures seen == Flat(t.buckets) && multiset(seen) == Bag(t.buckets)
  {
    var c := new Cursor(t);
    seen := [];
    ghost var b, rest := t.buckets, c.Rest();
    var r := c.Next();
    assert [] + rest == rest;
    while r.Some?
      invariant c.Valid() && c.table == t && t.buckets == b && (r.None? <==> c.done)
      invariant Walked(b, seen, r, c.Rest())
      decreases if r.Some? then 1 + |c.Rest()| else 0
    {
      rest := c.Rest();
      var x := r.value;
      r := c.Next();
      WalkedOn(b, seen, x, rest, r, c.Rest());
      seen := seen + [x];
    }
    FlatIsBag(b);
  }
}
