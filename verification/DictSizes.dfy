/** When the hash table grows and shrinks, to what, and how much a call of the incremental rehash does. */
module DictSizes {
  import opened Arithmetic
  import opened Bits
  import opened DictState
  import opened DictRefinement

  /** The least legal size for so many entries, or the largest there is. */
  ghost predicate IsLeast(n: nat, wanted: int) {
    && IsSize(n) && (wanted <= SIZE_CAP ==> wanted <= n)
    && forall m :: IsSize(m) && wanted <= m ==> n <= m
  }

  lemma Pow2Mono(a: nat, b: nat)
    requires a <= b
    ensures Pow2(a) <= Pow2(b)
  {
    if a < b {
      Pow2Grows(a, b);
    }
  }

  lemma Pow2Order(a: nat, b: nat)
    requires Pow2(a) <= Pow2(b)
    ensures a <= b
  {
    if b < a {
      Pow2Grows(b, a);
      assert false;
    }
  }

  lemma {:induction false} PowerFromIsLeast(i: nat, size: int, k: nat, m: nat)
    requires i == Pow2(k) && k <= m && size <= Pow2(m)
    ensures PowerFrom(i, size) <= Pow2(m)
    decreases m - k
  {
    if i < size {
      Pow2Order(k, m);
      assert k < m;
      PowerFromIsLeast(2 * i, size, k + 1, m);
    } else {
      Pow2Mono(k, m);
    }
  }

  /** No smaller legal size would do. */
  lemma NextPowerIsLeast(size: int)
    ensures IsLeast(NextPower(size), size)
  {
    NextPowerIsSize(size);
    forall m | IsSize(m) && size <= m ensures NextPower(size) <= m {
      var j :| 2 <= j <= 63 && m == Pow2(j);
      assert INITIAL_SIZE == Pow2(2);
      if size < SIZE_CAP - 1 {
        PowerFromIsLeast(INITIAL_SIZE, size, 2, j);
      } else if j < 63 {
        Pow2Mono(2, j);
        Pow2Grows(j, 63);
      }
    }
  }

  // Full, and free to grow, or so full that it grows all the same
  predicate Due(d: Dict) {
    var n, used := |d.ht0.buckets|, d.ht0.used;
    used >= n && (d.canResize || used >= 6 * n)
  }

  lemma RatioIs(used: nat, n: nat)
    requires n > 0
    ensures used / n > 5 <==> used >= 6 * n
  {
    if used >= 6 * n {
      AtLeast(used, n, 6);
    } else {
      AtMost(used, n, 6);
    }
  }

  lemma AtLeast(a: nat, n: nat, q: nat)
    requires n > 0 && a >= q * n
    ensures a / n >= q
  {
    assert a == n * (a / n) + a % n;
    if a / n < q {
      Grows(n, a / n + 1, q);
      assert false;
    }
  }

  lemma AtMost(a: nat, n: nat, q: nat)
    requires n > 0 && a < q * n
    ensures a / n < q
  {
    assert a == n * (a / n) + a % n;
    if a / n >= q {
      Grows(n, q, a / n);
      assert false;
    }
  }

  /** An empty table gets four buckets; one that is due to grow, and below the largest size, begins to move to the
      least size for twice its entries; any other stays as it is. */
  lemma GrowsWhen(d: Dict)
    requires Inv(d) && !IsRehashing(d)
    ensures var d', n := ExpandIfNeeded(d).0, |d.ht0.buckets|;
      if n == 0 then d' == d.(ht0 := d'.ht0) && d'.ht0.used == 0 && |d'.ht0.buckets| == 4
      else if Due(d) && n < SIZE_CAP then
        d' == d.(ht1 := d'.ht1, rehashidx := 0) && IsLeast(|d'.ht1.buckets|, 2 * d.ht0.used) &&
        |d'.ht1.buckets| >= 2 * n
      else d' == d
  {
    var n := |d.ht0.buckets|;
    if n == 0 {
      GrowsFirst(d);
    } else {
      RatioIs(d.ht0.used, n);
      if Due(d) {
        GrowsDue(d, n, d.ht0.used * 2);
      }
    }
  }

  lemma GrowsFirst(d: Dict)
    requires Inv(d) && !IsRehashing(d) && |d.ht0.buckets| == 0
    ensures var d' := ExpandIfNeeded(d).0; d' == d.(ht0 := d'.ht0) && d'.ht0.used == 0 && |d'.ht0.buckets| == 4
  {
    assert Pow2(2) == 4 && IsSize(4);
    NextPowerIsLeast(4);
    TotalOfEmpty(d.ht0.buckets);
  }

  lemma GrowsDue(d: Dict, n: nat, wanted: nat)
    requires Inv(d) && !IsRehashing(d) && n == |d.ht0.buckets| > 0 && d.ht0.used >= n && wanted == d.ht0.used * 2
    ensures var d' := Expand(d, wanted).0;
      if n < SIZE_CAP then
        d' == d.(ht1 := d'.ht1, rehashidx := 0) && IsLeast(|d'.ht1.buckets|, wanted) && |d'.ht1.buckets| >= 2 * n
      else d' == d
  {
    AtMostCap(n);
    NextPowerIsLeast(wanted);
    GrowthWorks(n, wanted);
    Doubles(n, wanted);
  }

  lemma AtMostCap(n: nat)
    requires IsSize(n)
    ensures n <= SIZE_CAP
  {
    var k :| 2 <= k <= 63 && n == Pow2(k);
    Pow2Mono(k, 63);
  }

  lemma Doubles(size: nat, wanted: int)
    requires IsSize(size) && wanted >= 2 * size
    ensures size < SIZE_CAP ==> NextPower(wanted) >= 2 * size
  {
    NextPowerIsSize(wanted);
    var k :| 2 <= k <= 63 && size == Pow2(k);
    if size < SIZE_CAP {
      Pow2Order(k, 63);
      assert k < 63;
      Pow2Mono(k + 1, 63);
    }
  }

  /** A shrink is to the least size for the entries there are, and for four at least, unless it has that already. */
  lemma ShrinksTo(d: Dict)
    requires Inv(d) && !IsRehashing(d) && d.canResize && d.ht0.buckets != []
    ensures var (d', ok) := Resize(d);
      if ok then d' == d.(ht1 := d'.ht1, rehashidx := 0) && d'.ht1.used == 0 &&
        IsLeast(|d'.ht1.buckets|, if d.ht0.used < 4 then 4 else d.ht0.used)
      else d' == d && IsLeast(|d.ht0.buckets|, if d.ht0.used < 4 then 4 else d.ht0.used)
  {
    NextPowerIsLeast(if d.ht0.used < 4 then 4 else d.ht0.used);
  }

  // ---------------------------------------------------------------------------
  // The work of one call

  lemma {:induction false} SkipBounded(buckets: seq<Chain>, i: nat, visits: nat)
    requires visits > 0
    ensures var (j, left) := SkipEmpty(buckets, i, visits);
      left <= visits && j - i == visits - left && (left > 0 ==> j >= |buckets| || buckets[j] != [])
    decreases visits
  {
    if i < |buckets| && buckets[i] == [] && visits > 1 {
      SkipBounded(buckets, i + 1, visits - 1);
    }
  }

  lemma {:induction false} MoveBounded(d: Dict, n: nat, visits: nat)
    requires d.rehashidx >= 0 && (n > 0 ==> visits > 0)
    ensures var (d', early) := MoveBuckets(d, n, visits);
      && d.rehashidx <= d'.rehashidx <= d.rehashidx + n + visits
      && (early ==> d'.rehashidx >= d.rehashidx + visits)
      && (!early && d'.rehashidx < |d'.ht0.buckets| && d'.ht0.used != 0 ==> d'.rehashidx >= d.rehashidx + n)
    decreases n
  {
    if n > 0 && d.ht0.used != 0 {
      SkipBounded(d.ht0.buckets, d.rehashidx, visits);
      var (i, left) := SkipEmpty(d.ht0.buckets, d.rehashidx, visits);
      if left > 0 && i < |d.ht0.buckets| {
        MoveBounded(MoveBucket(d.(rehashidx := i)), n - 1, left);
      }
    }
  }

  /** A call for n rounds that does not end the rehash goes on by at least n buckets, and by no more than n that have
      entries and 10 n that have none. */
  lemma RehashBounded(d: Dict, n: nat)
    requires Inv(d) && IsRehashing(d)
    ensures var d' := Rehash(d, n).0; IsRehashing(d') ==> d.rehashidx + n <= d'.rehashidx <= d.rehashidx + 11 * n
  {
    MoveBounded(d, n, n * 10);
    RehashKeeps(d, n);
  }

  // ---------------------------------------------------------------------------
  // Where new entries go

  // The table new entries go to
  function Newest(d: Dict): Table { if IsRehashing(d) then d.ht1 else d.ht0 }

  ghost predicate FirstOfChain(hash: Key -> Word, t: Table, e: Entry) {
    |t.buckets| > 0 &&
    var b := Slot(hash(e.key), |t.buckets|);
    b < |t.buckets| && t.buckets[b] != [] && t.buckets[b][0] == e
  }

  lemma InsertedFirst(hash: Key -> Word, t: Table, e: Entry)
    requires TableOk(hash, t) && |t.buckets| > 0
    ensures FirstOfChain(hash, Insert(hash, t, e), e)
  {
    SlotInRange(hash(e.key), |t.buckets|);
  }

  lemma InsertedNewest(d: Dict, e: Entry)
    requires Inv(d) && |Newest(d).buckets| > 0
    ensures FirstOfChain(d.hash, Newest(InsertNewest(d, e)), e)
  {
    InsertedFirst(d.hash, Newest(d), e);
  }

  /** A new entry is the first of its chain, in the table that is to stay. */
  lemma NewestFirst(d: Dict, key: Key, val: Val)
    requires Inv(d) && AddRaw(d, key, val).1.Added?
    ensures FirstOfChain(d.hash, Newest(AddRaw(d, key, val).0), Entry(key, val))
  {
    RehashStepKeeps(d);
    var d1 := RehashStep(d);
    ExpandIfNeededKeeps(d1);
    var d2 := ExpandIfNeeded(d1).0;
    SameHash(d1);
    InsertedNewest(d2, Entry(key, val));
  }

  lemma SameHash(d: Dict)
    ensures ExpandIfNeeded(d).0.hash == d.hash
  {}
}
