/** dictScan, the stateless cursor over a table that may be resized between calls. Read from its
    lowest bit, a hash is a position; a call covers one interval of positions, aligned to the smaller
    table, and returns where the next one starts. */
module DictScan {
  import opened Bits
  import opened DictRefinement
  import opened DictRuns
  import opened DictState

  const START: Word := Mask(0)

  // v |= ~mask; v = rev(v); v++; v = rev(v)
  function Advance(v: Word, size: nat): Word
    requires size > 0
  {
    Reversed(Increment(Reversed(Or(v, Not(Digits(size - 1, WORD_BITS))))))
  }

  // v & (m0 ^ m1)
  function Between(v: Word, size0: nat, size1: nat): Word
    requires size0 > 0 && size1 > 0
  {
    And(v, Xor(Digits(size0 - 1, WORD_BITS), Digits(size1 - 1, WORD_BITS)))
  }

  function BucketAt(t: Table, v: Word): Chain {
    if |t.buckets| == 0 || Slot(v, |t.buckets|) >= |t.buckets| then [] else t.buckets[Slot(v, |t.buckets|)]
  }

  // The do-while loop over the buckets of the larger table that the cursor's bucket expands to.
  function ScanLarger(t: Table, v: Word, size0: nat): (r: (seq<Entry>, Word))
    requires size0 > 0 && IsSize(|t.buckets|)
    decreases Pow2(WORD_BITS) - Position(v)
  {
    var v' := Advance(v, |t.buckets|);
    if Between(v', size0, |t.buckets|) == START then (BucketAt(t, v), v') else
      AdvanceMoves(v, |t.buckets|);
      var (rest, last) := ScanLarger(t, v', size0);
      (BucketAt(t, v) + rest, last)
  }

  function Smaller(d: Dict): Table {
    if IsRehashing(d) && |d.ht0.buckets| > |d.ht1.buckets| then d.ht1 else d.ht0
  }

  function Larger(d: Dict): Table {
    if |d.ht0.buckets| > |d.ht1.buckets| then d.ht0 else d.ht1
  }

  /** One call: what it reports and the cursor it returns. */
  function Scan(d: Dict, v: Word): (r: (seq<Entry>, Word))
    requires Inv(d)
  {
    if Size(d) == 0 then ([], START)
    else if !IsRehashing(d) then
      NotEmptyHasBuckets(d);
      (BucketAt(d.ht0, v), Advance(v, |d.ht0.buckets|))
    else
      var (rest, last) := ScanLarger(Larger(d), v, |Smaller(d).buckets|);
      (BucketAt(Smaller(d), v) + rest, last)
  }

  lemma NotEmptyHasBuckets(d: Dict)
    requires Inv(d) && Size(d) != 0
    ensures |d.ht0.buckets| > 0
  {
    if |d.ht0.buckets| == 0 {
      TotalOfEmpty(d.ht0.buckets);
    }
  }

  // ---------------------------------------------------------------------------
  // Positions and aligned intervals

  // The width, in positions, of an interval of the words that agree on their k low bits.
  function Width(k: nat): (r: nat)
    requires k <= WORD_BITS
    ensures r > 0
  {
    Pow2(WORD_BITS - k)
  }

  function Prefix(v: Word, k: nat): nat
    requires k <= WORD_BITS
  {
    Position(v[..k])
  }

  lemma PrefixBelow(v: Word, k: nat)
    requires k <= WORD_BITS
    ensures Prefix(v, k) < Pow2(k)
  {}

  lemma PositionSplits(v: Word, k: nat)
    requires k <= WORD_BITS
    ensures Position(v) == Width(k) * Prefix(v, k) + Position(v[k..])
    ensures Position(v[k..]) < Width(k)
  {
    assert v == v[..k] + v[k..];
    PositionConcat(v[..k], v[k..]);
  }

  lemma CompareBlocks(w: nat, p: nat, q: nat, x: nat, y: nat)
    requires w > 0 && x < w && y < w
    ensures w * p + x < w * q + y ==> p <= q
    ensures w * p + x >= w * q ==> p >= q
  {
    if p > q {
      assert w * p >= w * (q + 1);
    }
    if p < q {
      assert w * q >= w * (p + 1);
    }
  }

  lemma PrefixesAgree(a: Word, b: Word, k: nat)
    requires k <= WORD_BITS
    ensures Prefix(a, k) == Prefix(b, k) <==> a[..k] == b[..k]
  {
    if Prefix(a, k) == Prefix(b, k) {
      PositionInjective(a[..k], b[..k]);
    }
  }

  function Zeros(n: nat): (r: seq<bool>)
    ensures |r| == n
  {
    seq(n, _ => false)
  }

  // A carry runs through ones into what follows them.
  lemma {:induction false} IncrementCarries(ones: seq<bool>, x: seq<bool>)
    requires forall i :: 0 <= i < |ones| ==> ones[i]
    ensures Increment(ones + x) == Zeros(|ones|) + Increment(x)
  {
    if ones == [] {
      assert ones + x == x;
    } else {
      IncrementCarries(ones[1..], x);
      assert (ones + x)[1..] == ones[1..] + x;
      assert Zeros(|ones|) == [false] + Zeros(|ones| - 1);
    }
  }

  // The bit string one position further on, wrapping to zeros.
  function NextPrefix(a: seq<bool>): (r: seq<bool>)
    ensures |r| == |a|
  {
    Reversed(Increment(Reversed(a)))
  }

  lemma NextPrefixIs(a: seq<bool>)
    ensures Position(NextPrefix(a)) == if Position(a) + 1 == Pow2(|a|) then 0 else Position(a) + 1
  {
    IncrementAddsOne(Reversed(a));
    ReversedTwice(Increment(Reversed(a)));
  }

  lemma ReversedZeros(n: nat)
    ensures Reversed(Zeros(n)) == Zeros(n)
  {}

  lemma PositionOfStart()
    ensures Position(START) == 0
  {
    ValueUniform(Reversed(START), false);
  }

  lemma FilledBits(v: Word, k: nat)
    requires k <= WORD_BITS
    ensures var u := Or(v, Not(Digits(Pow2(k) - 1, WORD_BITS)));
      u == v[..k] + u[k..] && forall i :: 0 <= i < WORD_BITS - k ==> u[k..][i]
  {
    var m: Word := Digits(Pow2(k) - 1, WORD_BITS);
    MaskBits(k, m);
  }

  /** Advancing past a mask of k bits steps to the next prefix of k bits and clears the rest. */
  lemma AdvanceIs(v: Word, k: nat)
    requires k <= 63
    ensures Advance(v, Pow2(k)) == NextPrefix(v[..k]) + Zeros(WORD_BITS - k)
  {
    FilledBits(v, k);
    var a := v[..k];
    var ones := Or(v, Not(Digits(Pow2(k) - 1, WORD_BITS)))[k..];
    ReversedConcat(a, ones);
    IncrementCarries(Reversed(ones), Reversed(a));
    ReversedConcat(Zeros(WORD_BITS - k), Increment(Reversed(a)));
    ReversedZeros(WORD_BITS - k);
  }

  lemma StartByPosition(v: Word)
    ensures Position(v) == 0 <==> v == START
  {
    PositionOfStart();
    if Position(v) == 0 {
      PositionInjective(v, START);
    }
  }

  // A cursor just returned stands at the start of an interval.
  ghost predicate Aligned(v: Word, k: nat)
    requires k <= WORD_BITS
  {
    v[k..] == Zeros(WORD_BITS - k)
  }

  lemma AlignedPosition(v: Word, k: nat)
    requires k <= WORD_BITS && Aligned(v, k)
    ensures Position(v) == Width(k) * Prefix(v, k)
  {
    PositionSplits(v, k);
    ZerosPosition(WORD_BITS - k);
  }

  lemma AdvancePrefix(v: Word, k: nat)
    requires k <= 63
    ensures var v' := Advance(v, Pow2(k));
      Aligned(v', k) && Prefix(v', k) == if Prefix(v, k) + 1 == Pow2(k) then 0 else Prefix(v, k) + 1
  {
    AdvanceIs(v, k);
    NextPrefixIs(v[..k]);
    var v' := Advance(v, Pow2(k));
    assert v'[..k] == NextPrefix(v[..k]) && v'[k..] == Zeros(WORD_BITS - k);
  }

  /** The reversed cursor grows until it wraps to 0. */
  lemma AdvanceMoves(v: Word, size: nat)
    requires IsSize(size)
    ensures Advance(v, size) == START || Position(v) < Position(Advance(v, size)) < Pow2(WORD_BITS)
  {
    var k :| 2 <= k <= 63 && size == Pow2(k);
    var v' := Advance(v, size);
    AdvancePrefix(v, k);
    AlignedPosition(v', k);
    StartByPosition(v');
    PositionSplits(v, k);
    NextBlock(Width(k), Prefix(v, k), Position(v[k..]));
  }

  lemma ZerosPosition(n: nat)
    ensures Position(Zeros(n)) == 0
  {
    ValueUniform(Reversed(Zeros(n)), false);
  }

  lemma NextBlock(w: nat, p: nat, x: nat)
    requires x < w
    ensures w * p + x < w * (p + 1)
  {}

  // ---------------------------------------------------------------------------
  // The loop over the larger table

  ghost predicate AllOnes(q: seq<bool>) {
    forall i :: 0 <= i < |q| ==> q[i]
  }

  lemma {:induction false} IncrementLocal(x: seq<bool>, y: seq<bool>)
    requires !AllOnes(x)
    ensures Increment(x + y) == Increment(x) + y && Increment(x) != Zeros(|x|)
  {
    assert (x + y)[1..] == x[1..] + y;
    if x[0] {
      IncrementLocal(x[1..], y);
      assert x == [x[0]] + x[1..];
      assert Increment(x)[1..] == Increment(x[1..]) && Zeros(|x|)[1..] == Zeros(|x| - 1);
    } else {
      assert Increment(x)[0];
    }
  }

  // Stepping a prefix p + q steps q alone, until q runs out and p steps with q cleared.
  lemma NextPrefixSplits(p: seq<bool>, q: seq<bool>)
    ensures if AllOnes(q) then NextPrefix(p + q) == NextPrefix(p) + Zeros(|q|)
            else NextPrefix(p + q) == p + NextPrefix(q) && NextPrefix(q) != Zeros(|q|)
  {
    ReversedConcat(p, q);
    var rp, rq := Reversed(p), Reversed(q);
    ReversedZeros(|q|);
    if AllOnes(q) {
      IncrementCarries(rq, rp);
      ReversedConcat(Zeros(|q|), Increment(rp));
    } else {
      var i :| 0 <= i < |q| && !q[i];
      assert !rq[|q| - 1 - i];
      IncrementLocal(rq, rp);
      ReversedConcat(Increment(rq), rp);
      ReversedTwice(p);
      ReversedTwice(Increment(rq));
    }
  }

  lemma BetweenBits(v: Word, k0: nat, k1: nat)
    requires k0 <= k1 <= 63
    ensures forall i: nat :: i < WORD_BITS ==> Between(v, Pow2(k0), Pow2(k1))[i] == (v[i] && k0 <= i < k1)
  {
    var m0: Word, m1: Word := Digits(Pow2(k0) - 1, WORD_BITS), Digits(Pow2(k1) - 1, WORD_BITS);
    MaskBits(k0, m0);
    MaskBits(k1, m1);
  }

  lemma BetweenIs(v: Word, k0: nat, k1: nat)
    requires k0 <= k1 <= 63
    ensures Between(v, Pow2(k0), Pow2(k1)) == START <==> v[k0..k1] == Zeros(k1 - k0)
  {
    BetweenBits(v, k0, k1);
    var b := Between(v, Pow2(k0), Pow2(k1));
    if v[k0..k1] == Zeros(k1 - k0) {
      forall i: nat | i < WORD_BITS ensures !b[i] {
        if k0 <= i < k1 {
          assert v[i] == v[k0..k1][i - k0];
        }
      }
    } else {
      var i :| 0 <= i < k1 - k0 && v[k0..k1][i];
      assert b[k0 + i];
    }
  }

  /** The loop ends exactly when the smaller table's prefix has stepped; till then it stays. */
  lemma LoopTest(v: Word, k0: nat, k1: nat)
    requires k0 <= k1 <= 63
    ensures var v' := Advance(v, Pow2(k1));
      if Between(v', Pow2(k0), Pow2(k1)) == START then AllOnes(v[k0..k1]) && v' == Advance(v, Pow2(k0))
      else !AllOnes(v[k0..k1]) && v'[..k0] == v[..k0]
  {
    var v' := Advance(v, Pow2(k1));
    var p, q := v[..k0], v[k0..k1];
    assert v[..k1] == p + q;
    AdvanceIs(v, k1);
    NextPrefixSplits(p, q);
    BetweenIs(v', k0, k1);
    if AllOnes(q) {
      AdvanceIs(v, k0);
      assert v' == NextPrefix(p) + (Zeros(k1 - k0) + Zeros(WORD_BITS - k1));
      assert Zeros(k1 - k0) + Zeros(WORD_BITS - k1) == Zeros(WORD_BITS - k0);
      assert v'[k0..k1] == Zeros(k1 - k0);
    } else {
      assert v'[..k1] == p + NextPrefix(q);
      assert v'[k0..k1] == NextPrefix(q);
    }
  }

  /** A bucket reports the entries whose hashes agree with the cursor on the table's bits, once each. */
  lemma BucketCounts(hash: Key -> Word, t: Table, v: Word, k: nat, e: Entry)
    requires TableOk(hash, t) && |t.buckets| == Pow2(k) && k <= 63
    ensures multiset(BucketAt(t, v))[e] == if e in Entries(t) && hash(e.key)[..k] == v[..k] then 1 else 0
  {
    var w := hash(e.key);
    SlotIs(v, k);
    SlotIs(w, k);
    InIsMember(hash, t, e);
    if w[..k] != v[..k] && Slot(v, |t.buckets|) == Slot(w, |t.buckets|) {
      ValueInjective(v[..k], w[..k]);
    }
    ChainMultiplicity(BucketAt(t, v), e);
    if e in BucketAt(t, v) {
      assert e in Entries(t);
    }
  }

  lemma {:induction false} ChainMultiplicity(c: Chain, e: Entry)
    requires Distinct(c)
    ensures multiset(c)[e] == if e in c then 1 else 0
  {
    if c != [] {
      ChainMultiplicity(c[1..], e);
      assert c == [c[0]] + c[1..];
    }
  }

  lemma SamePrefixShorter(a: Word, b: Word, k0: nat, k1: nat)
    requires k0 <= k1 <= WORD_BITS && a[..k1] == b[..k1]
    ensures a[..k0] == b[..k0]
  {
    assert a[..k0] == a[..k1][..k0] && b[..k0] == b[..k1][..k0];
  }

  // Among words with prefix p, none comes after the one whose further bits are all ones.
  lemma LastOfPrefix(v: Word, w: Word, k0: nat, k1: nat)
    requires k0 <= k1 <= WORD_BITS && w[..k0] == v[..k0]
    ensures AllOnes(v[k0..k1]) ==> Prefix(w, k1) <= Prefix(v, k1)
    ensures v[k0..k1] == Zeros(k1 - k0) ==> Prefix(w, k1) >= Prefix(v, k1)
  {
    var p := v[..k0];
    assert v[..k1] == p + v[k0..k1] && w[..k1] == p + w[k0..k1];
    PositionConcat(p, v[k0..k1]);
    PositionConcat(p, w[k0..k1]);
    if AllOnes(v[k0..k1]) {
      ValueUniform(Reversed(v[k0..k1]), true);
    }
    if v[k0..k1] == Zeros(k1 - k0) {
      ZerosPosition(k1 - k0);
    }
  }

  /** The loop returns the cursor the smaller table would, and reports once each entry of the larger
      table that agrees with the cursor on the smaller table's bits and is not behind it. */
  lemma {:induction false} LargerCounts(hash: Key -> Word, t: Table, v: Word, k0: nat, k1: nat, e: Entry)
    requires TableOk(hash, t) && |t.buckets| == Pow2(k1) && 2 <= k0 <= k1 <= 63
    ensures ScanLarger(t, v, Pow2(k0)).1 == Advance(v, Pow2(k0))
    ensures var w := hash(e.key);
      multiset(ScanLarger(t, v, Pow2(k0)).0)[e] ==
        if e in Entries(t) && w[..k0] == v[..k0] && Prefix(w, k1) >= Prefix(v, k1) then 1 else 0
    decreases Pow2(WORD_BITS) - Position(v)
  {
    var w, v' := hash(e.key), Advance(v, Pow2(k1));
    BucketCounts(hash, t, v, k1, e);
    LoopTest(v, k0, k1);
    PrefixesAgree(w, v, k1);
    if w[..k1] == v[..k1] {
      SamePrefixShorter(w, v, k0, k1);
    }
    if Between(v', Pow2(k0), Pow2(k1)) == START {
      if w[..k0] == v[..k0] {
        LastOfPrefix(v, w, k0, k1);
      }
    } else {
      AdvanceMoves(v, |t.buckets|);
      NotWrapped(v, k0, k1);
      LargerCounts(hash, t, v', k0, k1, e);
      SameNext(v, v', k0);
    }
  }

  // While the loop goes on, the prefix of the larger table steps by one.
  lemma NotWrapped(v: Word, k0: nat, k1: nat)
    requires k0 <= k1 <= 63 && Between(Advance(v, Pow2(k1)), Pow2(k0), Pow2(k1)) != START
    ensures Advance(v, Pow2(k1)) != START
    ensures Prefix(Advance(v, Pow2(k1)), k1) == Prefix(v, k1) + 1
  {
    var v' := Advance(v, Pow2(k1));
    AdvancePrefix(v, k1);
    BetweenIs(v', k0, k1);
    assert v'[k0..k1] == v'[..k1][k0..] && Zeros(k1)[k0..] == Zeros(k1 - k0);
    if Prefix(v', k1) == 0 {
      ZerosPosition(k1);
      PositionInjective(v'[..k1], Zeros(k1));
    }
  }

  lemma SameNext(v: Word, v': Word, k: nat)
    requires k <= 63 && v[..k] == v'[..k]
    ensures Advance(v, Pow2(k)) == Advance(v', Pow2(k))
  {
    AdvanceIs(v, k);
    AdvanceIs(v', k);
  }

  // ---------------------------------------------------------------------------
  // One call

  ghost function Exponent(n: nat): (k: nat)
    requires IsSize(n)
    ensures 2 <= k <= 63 && n == Pow2(k)
  {
    var k :| 2 <= k <= 63 && n == Pow2(k);
    k
  }

  // Bits of the smaller table in use.
  ghost function Bits0(d: Dict): (k: nat)
    requires Inv(d) && Size(d) != 0
    ensures 2 <= k <= 63 && |Smaller(d).buckets| == Pow2(k)
  {
    NotEmptyHasBuckets(d);
    Exponent(|Smaller(d).buckets|)
  }

  lemma SizesOrdered(j: nat, k: nat)
    requires Pow2(j) <= Pow2(k)
    ensures j <= k
  {
    if k < j {
      Pow2Grows(k, j);
    }
  }

  /** The entries one call reports: those that agree with the cursor on the smaller table's bits, each
      at most once, and all of them that are not behind the cursor. It returns the next interval. */
  lemma ScanCounts(d: Dict, v: Word, e: Entry)
    requires Inv(d) && Size(d) != 0
    ensures Scan(d, v).1 == Advance(v, Pow2(Bits0(d)))
    ensures var w, n := d.hash(e.key), multiset(Scan(d, v).0)[e];
      && n <= 1
      && (n == 1 ==> e in AllEntries(d) && w[..Bits0(d)] == v[..Bits0(d)])
      && (e in AllEntries(d) && w[..Bits0(d)] == v[..Bits0(d)] ==>
          Position(w) >= Position(v) || Aligned(v, Bits0(d)) ==> n == 1)
  {
    var k0 := Bits0(d);
    BucketCounts(d.hash, Smaller(d), v, k0, e);
    if IsRehashing(d) {
      Apart(Entries(d.ht0), Entries(d.ht1));
      var k1 := Exponent(|Larger(d).buckets|);
      SizesOrdered(k0, k1);
      LargerCounts(d.hash, Larger(d), v, k0, k1, e);
      NotBehind(v, d.hash(e.key), k0, k1);
    }
  }

  lemma NotBehind(v: Word, w: Word, k0: nat, k1: nat)
    requires k0 <= k1 <= 63
    ensures Position(w) >= Position(v) ==> Prefix(w, k1) >= Prefix(v, k1)
    ensures w[..k0] == v[..k0] && Aligned(v, k0) ==> Prefix(w, k1) >= Prefix(v, k1)
  {
    PositionSplits(v, k1);
    PositionSplits(w, k1);
    if Position(w) >= Position(v) {
      CompareBlocks(Width(k1), Prefix(w, k1), Prefix(v, k1), Position(w[k1..]), Position(v[k1..]));
    }
    if w[..k0] == v[..k0] && Aligned(v, k0) {
      assert v[k0..k1] == v[k0..][..k1 - k0] == Zeros(k1 - k0);
      LastOfPrefix(v, w, k0, k1);
    }
  }

  /** A call reports every entry whose position lies between its cursor and the one it returns. */
  lemma ScanCovers(d: Dict, v: Word, e: Entry)
    requires Inv(d) && e in AllEntries(d) && Position(v) <= Position(d.hash(e.key))
    ensures var (out, v') := Scan(d, v);
      v' == START || Position(d.hash(e.key)) < Position(v') ==> e in out
  {
    EmptyWhen(d);
    var w, k := d.hash(e.key), Bits0(d);
    ScanCounts(d, v, e);
    PositionSplits(v, k);
    PositionSplits(w, k);
    CompareBlocks(Width(k), Prefix(w, k), Prefix(v, k), Position(w[k..]), Position(v[k..]));
    var v' := Advance(v, Pow2(k));
    AdvancePrefix(v, k);
    AlignedPosition(v', k);
    StartByPosition(v');
    if v' == START {
      MulZero(Width(k), Prefix(v', k));
    } else if Position(w) < Position(v') {
      CompareStarts(Width(k), Prefix(w, k), Prefix(v', k), Position(w[k..]));
    }
    PrefixesAgree(w, v, k);
  }

  lemma MulZero(w: nat, p: nat)
    requires w > 0
    ensures w * p == 0 <==> p == 0
  {}

  lemma CompareStarts(w: nat, p: nat, q: nat, x: nat)
    requires w > 0 && w * p + x < w * q
    ensures p < q
  {
    if p >= q {
      MulMonotone(w, q, p);
    }
  }

  lemma MulMonotone(w: nat, a: nat, b: nat)
    requires a <= b
    ensures w * a <= w * b
  {}

  lemma EmptyWhen(d: Dict)
    requires Inv(d)
    ensures Size(d) == 0 <==> AllEntries(d) == {}
  {
    TableCount(d.hash, d.ht0);
    TableCount(d.hash, d.ht1);
  }

  lemma ScanMoves(d: Dict, v: Word)
    requires Inv(d)
    ensures Scan(d, v).1 == START || Position(v) < Position(Scan(d, v).1) < Pow2(WORD_BITS)
  {
    if Size(d) != 0 {
      var k := Bits0(d);
      AdvanceMoves(v, Pow2(k));
      ScanAdvances(d, v);
    }
  }

  // ---------------------------------------------------------------------------
  // Whole scans

  /** The states and cursors of a scan: call i is made on ds[i] with cursor vs[i], from cursor 0 till
      0 comes back; between two calls any operations run on the table. */
  ghost predicate IsScan(ds: seq<Dict>, vs: seq<Word>, between: seq<seq<Op>>) {
    && |ds| > 0 && |vs| == |ds| + 1 && |between| == |ds| - 1
    && Inv(ds[0])
    && (forall i :: 0 <= i < |ds| - 1 ==> ds[i + 1] == Run(ds[i], between[i]))
    && vs[0] == START && vs[|ds|] == START
    && (forall i :: 0 < i < |ds| ==> vs[i] != START)
    && forall i :: 0 <= i < |ds| ==> Inv(ds[i]) && vs[i + 1] == Scan(ds[i], vs[i]).1
  }

  // The invariant asked of every state holds of its own accord.
  lemma {:induction false} ScanStatesValid(ds: seq<Dict>, between: seq<seq<Op>>, i: nat)
    requires |between| == |ds| - 1 && i < |ds| && Inv(ds[0])
    requires forall j :: 0 <= j < |ds| - 1 ==> ds[j + 1] == Run(ds[j], between[j])
    ensures Inv(ds[i]) && ds[i].hash == ds[0].hash
  {
    if i > 0 {
      ScanStatesValid(ds, between, i - 1);
      RunKeeps(ds[i - 1], between[i - 1]);
    }
  }

  /** A key in the table at every call of a scan is reported by one of the calls, whatever was added,
      deleted, resized or rehashed between them. */
  lemma ScanComplete(ds: seq<Dict>, vs: seq<Word>, between: seq<seq<Op>>, key: Key)
    requires IsScan(ds, vs, between)
    requires forall i :: 0 <= i < |ds| ==> key in Contents(ds[i])
    ensures exists i, e :: 0 <= i < |ds| && e in Scan(ds[i], vs[i]).0 && e.key == key && e.val == Contents(ds[i])[key]
  {
    PositionOfStart();
    var i, e := FirstCover(ds, vs, between, key, 0);
  }

  // From a call whose cursor the key is not behind, some call reports the key.
  lemma {:induction false} FirstCover(ds: seq<Dict>, vs: seq<Word>, between: seq<seq<Op>>, key: Key, i: nat)
    returns (j: nat, e: Entry)
    requires IsScan(ds, vs, between) && i < |ds|
    requires forall n :: 0 <= n < |ds| ==> key in Contents(ds[n])
    requires Position(vs[i]) <= Position(ds[0].hash(key))
    ensures i <= j < |ds| && e in Scan(ds[j], vs[j]).0 && e.key == key && e.val == Contents(ds[j])[key]
    decreases |ds| - i
  {
    ScanStatesValid(ds, between, i);
    InvOnePerKey(ds[i]);
    e :| e in AllEntries(ds[i]) && e.key == key;
    j := i;
    ScanCovers(ds[i], vs[i], e);
    if vs[i + 1] != START && Position(vs[i + 1]) <= Position(ds[0].hash(key)) {
      j, e := FirstCover(ds, vs, between, key, i + 1);
    }
  }

  /** Every scan ends: its cursors only move forward, so there are at most 2^64 calls. */
  lemma {:induction false} ScanEnds(ds: seq<Dict>, vs: seq<Word>, between: seq<seq<Op>>, i: nat)
    requires IsScan(ds, vs, between) && i < |ds|
    ensures i <= Position(vs[i]) < Pow2(WORD_BITS)
  {
    if i > 0 {
      ScanEnds(ds, vs, between, i - 1);
      ScanMoves(ds[i - 1], vs[i - 1]);
    }
  }

  // Of the calls with the first n cursors, call i reports the entry, once, and no other does.
  ghost predicate ReportedOnlyBy(d: Dict, vs: seq<Word>, n: nat, e: Entry, i: nat)
    requires Inv(d) && n <= |vs|
  {
    i < n && forall j :: 0 <= j < n ==> multiset(Scan(d, vs[j]).0)[e] == if j == i then 1 else 0
  }

  /** With nothing happening between the calls, a scan of a non-empty table makes as many calls as the
      smaller table has buckets, and reports every entry exactly once. */
  lemma StaticScan(d: Dict, ds: seq<Dict>, vs: seq<Word>, between: seq<seq<Op>>, e: Entry)
    requires IsScan(ds, vs, between) && (forall i :: 0 <= i < |ds| ==> ds[i] == d) && Size(d) != 0
    ensures |ds| == |Smaller(d).buckets|
    ensures e in AllEntries(d) ==> exists i: nat :: ReportedOnlyBy(d, vs, |ds|, e, i)
  {
    StaticCalls(d, ds, vs, between);
    if e in AllEntries(d) {
      var i := StaticOnce(d, ds, vs, between, e);
    }
  }

  lemma StaticOnce(d: Dict, ds: seq<Dict>, vs: seq<Word>, between: seq<seq<Op>>, e: Entry) returns (i: nat)
    requires IsScan(ds, vs, between) && (forall i :: 0 <= i < |ds| ==> ds[i] == d) && Size(d) != 0
    requires |ds| == |Smaller(d).buckets| && e in AllEntries(d)
    ensures ReportedOnlyBy(d, vs, |ds|, e, i)
  {
    i := Prefix(d.hash(e.key), Bits0(d));
    PrefixBelow(d.hash(e.key), Bits0(d));
    forall j | 0 <= j < |ds|
      ensures multiset(Scan(d, vs[j]).0)[e] == if j == i then 1 else 0
    {
      StaticCursor(d, ds, vs, between, j);
      StaticCall(d, vs[j], e);
    }
  }

  lemma StaticCalls(d: Dict, ds: seq<Dict>, vs: seq<Word>, between: seq<seq<Op>>)
    requires IsScan(ds, vs, between) && (forall i :: 0 <= i < |ds| ==> ds[i] == d) && Size(d) != 0
    ensures |ds| == |Smaller(d).buckets|
  {
    var last := |ds| - 1;
    StaticCursor(d, ds, vs, between, last);
    ScanAdvances(d, vs[last]);
    LastCursor(vs[last], Bits0(d));
  }

  lemma ScanAdvances(d: Dict, v: Word)
    requires Inv(d) && Size(d) != 0
    ensures Scan(d, v).1 == Advance(v, Pow2(Bits0(d)))
  {
    EmptyWhen(d);
    var e :| e in AllEntries(d);
    ScanCounts(d, v, e);
  }

  lemma LastCursor(v: Word, k: nat)
    requires k <= 63 && Advance(v, Pow2(k)) == START
    ensures Prefix(v, k) + 1 == Pow2(k)
  {
    AdvancePrefix(v, k);
    PrefixOfStart(k);
  }

  lemma PrefixOfStart(k: nat)
    requires k <= WORD_BITS
    ensures Prefix(START, k) == 0 && Aligned(START, k)
  {
    ValueUniform(Reversed(START[..k]), false);
  }

  lemma StaticCall(d: Dict, v: Word, e: Entry)
    requires Inv(d) && Size(d) != 0 && Aligned(v, Bits0(d)) && e in AllEntries(d)
    ensures multiset(Scan(d, v).0)[e] == if Prefix(v, Bits0(d)) == Prefix(d.hash(e.key), Bits0(d)) then 1 else 0
  {
    ScanCounts(d, v, e);
    PrefixesAgree(d.hash(e.key), v, Bits0(d));
  }

  lemma {:induction false} StaticCursor(d: Dict, ds: seq<Dict>, vs: seq<Word>, between: seq<seq<Op>>, i: nat)
    requires IsScan(ds, vs, between) && (forall j :: 0 <= j < |ds| ==> ds[j] == d) && Size(d) != 0 && i < |ds|
    ensures Prefix(vs[i], Bits0(d)) == i && Aligned(vs[i], Bits0(d))
  {
    var k := Bits0(d);
    if i == 0 {
      PrefixOfStart(k);
    } else {
      StaticCursor(d, ds, vs, between, i - 1);
      ScanAdvances(d, vs[i - 1]);
      AdvancePrefix(vs[i - 1], k);
      AlignedPosition(vs[i], k);
      StartByPosition(vs[i]);
      MulZero(Width(k), Prefix(vs[i], k));
    }
  }
}
