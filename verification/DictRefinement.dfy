/** What every reachable state of the table satisfies, the finite map it stands for, and that each
    operation acts on that map, whatever bucket an ongoing rehash has reached. */
module DictRefinement {
  import opened Bits
  import opened DictState
  import opened Options

  // ---------------------------------------------------------------------------
  // Well-formed tables

  ghost predicate IsSize(n: nat) {
    exists k :: 2 <= k <= 63 && n == Pow2(k)
  }

  ghost predicate Distinct(c: Chain) {
    forall i, j :: 0 <= i < j < |c| ==> c[i].key != c[j].key
  }

  ghost predicate Placed(hash: Key -> Word, bs: seq<Chain>)
    requires |bs| > 0
  {
    forall b, e :: 0 <= b < |bs| && e in bs[b] ==> Slot(hash(e.key), |bs|) == b
  }

  function Total(bs: seq<Chain>): nat {
    if bs == [] then 0 else |bs[0]| + Total(bs[1..])
  }

  ghost predicate TableOk(hash: Key -> Word, t: Table) {
    && t.used == Total(t.buckets)
    && (|t.buckets| > 0 ==> IsSize(|t.buckets|) && Placed(hash, t.buckets))
    && forall b :: 0 <= b < |t.buckets| ==> Distinct(t.buckets[b])
  }

  ghost function Entries(t: Table): set<Entry> {
    set c, e | c in t.buckets && e in c :: e
  }

  predicate SameKey(x: Entry, y: Entry) {
    x.key == y.key
  }

  ghost predicate KeysApart(a: set<Entry>, b: set<Entry>) {
    forall x, y {:trigger SameKey(x, y)} :: x in a && y in b ==> !SameKey(x, y)
  }

  lemma Apart(a: set<Entry>, b: set<Entry>)
    requires KeysApart(a, b)
    ensures a !! b && forall x, y :: x in a && y in b ==> x.key != y.key
  {
    forall x, y | x in a && y in b ensures x.key != y.key {
      assert !SameKey(x, y);
    }
  }

  /** The invariant of every reachable state. */
  ghost predicate Inv(d: Dict) {
    && TableOk(d.hash, d.ht0)
    && TableOk(d.hash, d.ht1)
    && KeysApart(Entries(d.ht0), Entries(d.ht1))
    && (!IsRehashing(d) ==> d.ht1 == NO_TABLE)
    && (IsRehashing(d) ==>
      && d.rehashidx < |d.ht0.buckets|
      && |d.ht1.buckets| > 0
      && |d.ht1.buckets| != |d.ht0.buckets|
      && forall b :: 0 <= b < d.rehashidx ==> d.ht0.buckets[b] == [])
  }

  // ---------------------------------------------------------------------------
  // Slots

  lemma SlotIs(h: Word, k: nat)
    requires k <= 63
    ensures Slot(h, Pow2(k)) == Value(h[..k])
  {
    var m: Word := Digits(Pow2(k) - 1, WORD_BITS);
    MaskBits(k, m);
    MaskedValue(h, And(h, m), k);
  }

  lemma MaskedValue(h: Word, low: Word, k: nat)
    requires k <= WORD_BITS && forall i: nat :: i < WORD_BITS ==> low[i] == (i < k && h[i])
    ensures Value(low) == Value(h[..k])
  {
    ValueUniform(low[k..], false);
    ValueConcat(low[..k], low[k..]);
    assert low == low[..k] + low[k..] && low[..k] == h[..k];
  }

  lemma SlotInRange(h: Word, n: nat)
    requires IsSize(n)
    ensures n > 0 && Slot(h, n) < n
  {
    var k :| 2 <= k <= 63 && n == Pow2(k);
    SlotIs(h, k);
  }

  /** In a well-formed table an entry can be in one place only. */
  ghost predicate In(hash: Key -> Word, t: Table, e: Entry) {
    |t.buckets| > 0 && Slot(hash(e.key), |t.buckets|) < |t.buckets| && e in t.buckets[Slot(hash(e.key), |t.buckets|)]
  }

  lemma InIsMember(hash: Key -> Word, t: Table, e: Entry)
    requires TableOk(hash, t)
    ensures In(hash, t, e) <==> e in Entries(t)
  {
    if e in Entries(t) {
      var c :| c in t.buckets && e in c;
      var b :| 0 <= b < |t.buckets| && t.buckets[b] == c;
      SlotInRange(hash(e.key), |t.buckets|);
    }
  }

  lemma {:induction false} FindInFinds(c: Chain, e: Entry)
    requires Distinct(c) && e in c
    ensures FindIn(c, e.key) < |c| && c[FindIn(c, e.key)] == e
  {
    var i :| 0 <= i < |c| && c[i] == e;
    var j := FindIn(c, e.key);
    assert j <= i;
  }

  /** The search ends at an entry exactly when the table holds one with the key. */
  lemma LocateIs(hash: Key -> Word, t: Table, key: Key)
    requires TableOk(hash, t)
    ensures match Locate(hash, t, key)
            case Some(p) => t.buckets[p.0][p.1] in Entries(t)
            case None => forall e :: e in Entries(t) ==> e.key != key
  {
    if Locate(hash, t, key).Some? {
      var p := Locate(hash, t, key).value;
      var c := t.buckets[p.0];
      assert c in t.buckets && c[p.1] in c;
    } else {
      forall e | e in Entries(t) ensures e.key != key {
        LocatesMember(hash, t, e);
      }
    }
  }

  lemma LocatesMember(hash: Key -> Word, t: Table, e: Entry)
    requires TableOk(hash, t) && e in Entries(t)
    ensures Locate(hash, t, e.key).Some?
  {
    InIsMember(hash, t, e);
    FindInFinds(t.buckets[Slot(hash(e.key), |t.buckets|)], e);
  }

  lemma OneEntryPerKey(hash: Key -> Word, t: Table, x: Entry, y: Entry)
    requires TableOk(hash, t) && x in Entries(t) && y in Entries(t) && x.key == y.key
    ensures x == y
  {
    InIsMember(hash, t, x);
    InIsMember(hash, t, y);
    FindInFinds(t.buckets[Slot(hash(x.key), |t.buckets|)], x);
    FindInFinds(t.buckets[Slot(hash(x.key), |t.buckets|)], y);
  }

  // ---------------------------------------------------------------------------
  // One bucket changes

  lemma {:induction false} TotalUpdate(bs: seq<Chain>, b: nat, c: Chain)
    requires b < |bs|
    ensures Total(bs[b := c]) == Total(bs) - |bs[b]| + |c|
  {
    if b == 0 {
      assert bs[b := c][1..] == bs[1..];
    } else {
      TotalUpdate(bs[1..], b - 1, c);
      assert bs[b := c][1..] == bs[1..][b - 1 := c];
    }
  }

  // A table whose bucket b is replaced by a chain of entries that belong there.
  lemma BucketReplaced(hash: Key -> Word, t: Table, b: nat, c: Chain)
    requires TableOk(hash, t) && b < |t.buckets| && Distinct(c)
    requires forall e :: e in c ==> Slot(hash(e.key), |t.buckets|) == b
    ensures TableOk(hash, Table(t.buckets[b := c], t.used - |t.buckets[b]| + |c|))
    ensures forall e :: e in Entries(Table(t.buckets[b := c], t.used - |t.buckets[b]| + |c|)) <==>
      e in c || (e in Entries(t) && e !in t.buckets[b])
  {
    var t' := Table(t.buckets[b := c], t.used - |t.buckets[b]| + |c|);
    TotalUpdate(t.buckets, b, c);
    assert TableOk(hash, t');
    forall e ensures e in Entries(t') <==> e in c || (e in Entries(t) && e !in t.buckets[b]) {
      InIsMember(hash, t, e);
      InIsMember(hash, t', e);
    }
  }

  lemma InsertAdds(hash: Key -> Word, t: Table, e: Entry)
    requires TableOk(hash, t) && |t.buckets| > 0
    requires forall x :: x in Entries(t) ==> x.key != e.key
    ensures TableOk(hash, Insert(hash, t, e)) && |Insert(hash, t, e).buckets| == |t.buckets|
    ensures Entries(Insert(hash, t, e)) == Entries(t) + {e}
    ensures Insert(hash, t, e).used == t.used + 1
  {
    var b := Slot(hash(e.key), |t.buckets|);
    SlotInRange(hash(e.key), |t.buckets|);
    var c := [e] + t.buckets[b];
    forall x | x in t.buckets[b] ensures x in Entries(t) {}
    BucketReplaced(hash, t, b, c);
  }

  lemma RemoveAtRemoves(hash: Key -> Word, t: Table, b: nat, i: nat)
    requires TableOk(hash, t) && b < |t.buckets| && i < |t.buckets[b]|
    ensures TableOk(hash, RemoveAt(t, b, i)) && |RemoveAt(t, b, i).buckets| == |t.buckets|
    ensures Entries(RemoveAt(t, b, i)) == Entries(t) - {t.buckets[b][i]}
  {
    var c := t.buckets[b];
    var c' := Without(c, i);
    assert forall e :: e in c' <==> e in c && e != c[i] by {
      forall e | e in c && e != c[i] ensures e in c' {
        var j :| 0 <= j < |c| && c[j] == e;
        assert if j < i then c'[j] == e else c'[j - 1] == e;
      }
    }
    BucketReplaced(hash, t, b, c');
    forall x | x in c ensures x in Entries(t) {}
  }

  lemma SetValueSets(hash: Key -> Word, t: Table, b: nat, i: nat, val: Val)
    requires TableOk(hash, t) && b < |t.buckets| && i < |t.buckets[b]|
    ensures TableOk(hash, SetValueAt(t, b, i, val)) && |SetValueAt(t, b, i, val).buckets| == |t.buckets|
    ensures Entries(SetValueAt(t, b, i, val)) == Entries(t) - {t.buckets[b][i]} + {t.buckets[b][i].(val := val)}
  {
    var c := t.buckets[b];
    var e' := c[i].(val := val);
    var c' := c[i := e'];
    assert c[i] in c;
    assert forall e :: e in c' <==> (e in c && e != c[i]) || e == e' by {
      forall e | e in c && e != c[i] ensures e in c' {
        var j :| 0 <= j < |c| && c[j] == e;
        assert c'[j] == e;
      }
      assert c'[i] == e';
    }
    BucketReplaced(hash, t, b, c');
    forall x | x in c ensures x in Entries(t) {}
  }

  // ---------------------------------------------------------------------------
  // Growing

  lemma {:induction false} PowerFromIsSize(i: nat, size: int, k: nat)
    requires i == Pow2(k) && 2 <= k <= 63 && size <= Pow2(63)
    ensures IsSize(PowerFrom(i, size)) && PowerFrom(i, size) >= size
    decreases 63 - k
  {
    if i < size {
      assert k < 63;
      PowerFromIsSize(2 * i, size, k + 1);
    }
  }

  lemma NextPowerIsSize(size: int)
    ensures IsSize(NextPower(size))
    ensures size <= SIZE_CAP ==> NextPower(size) >= size
  {
    assert INITIAL_SIZE == Pow2(2);
    if size < SIZE_CAP - 1 {
      PowerFromIsSize(INITIAL_SIZE, size, 2);
    } else {
      assert Pow2(63) == SIZE_CAP;
    }
  }

  lemma {:induction false} TotalOfEmpty(bs: seq<Chain>)
    requires forall b :: 0 <= b < |bs| ==> bs[b] == []
    ensures Total(bs) == 0
  {
    if bs != [] {
      TotalOfEmpty(bs[1..]);
    }
  }

  lemma NewTableOk(hash: Key -> Word, n: nat)
    requires IsSize(n)
    ensures TableOk(hash, Table(seq(n, _ => []), 0)) && Entries(Table(seq(n, _ => []), 0)) == {}
  {
    TotalOfEmpty(seq(n, _ => []));
  }

  lemma ExpandKeeps(d: Dict, size: int)
    requires Inv(d)
    ensures Inv(Expand(d, size).0) && AllEntries(Expand(d, size).0) == AllEntries(d)
  {
    NextPowerIsSize(size);
    NewTableOk(d.hash, NextPower(size));
    if d.ht0.buckets == [] {
      assert Entries(d.ht0) == {};
    }
  }

  lemma ExpandIfNeededKeeps(d: Dict)
    requires Inv(d)
    ensures var (d', ok) := ExpandIfNeeded(d);
      Inv(d') && AllEntries(d') == AllEntries(d) && (ok ==> |d'.ht0.buckets| > 0)
  {
    ExpandKeeps(d, INITIAL_SIZE);
    ExpandKeeps(d, d.ht0.used * 2);
    NextPowerIsSize(INITIAL_SIZE);
  }

  // ---------------------------------------------------------------------------
  // Rehashing

  ghost function AllEntries(d: Dict): set<Entry> {
    Entries(d.ht0) + Entries(d.ht1)
  }

  lemma {:induction false} MoveChainMoves(hash: Key -> Word, c: Chain, t: Table)
    requires TableOk(hash, t) && |t.buckets| > 0 && Distinct(c)
    requires forall x, y :: x in c && y in Entries(t) ==> x.key != y.key
    ensures var t' := MoveChain(hash, c, t);
      && TableOk(hash, t') && |t'.buckets| == |t.buckets| && t'.used == t.used + |c|
      && forall e :: e in Entries(t') <==> e in Entries(t) || e in c
    decreases |c|
  {
    if c != [] {
      assert c == [c[0]] + c[1..];
      InsertAdds(hash, t, c[0]);
      MoveChainMoves(hash, c[1..], Insert(hash, t, c[0]));
    }
  }

  // The invariant while buckets are on the move: rehashidx may already be past the end.
  ghost predicate Moving(d: Dict) {
    && TableOk(d.hash, d.ht0)
    && TableOk(d.hash, d.ht1)
    && KeysApart(Entries(d.ht0), Entries(d.ht1))
    && 0 <= d.rehashidx <= |d.ht0.buckets|
    && |d.ht1.buckets| > 0
    && |d.ht1.buckets| != |d.ht0.buckets|
    && forall b :: 0 <= b < d.rehashidx ==> d.ht0.buckets[b] == []
  }

  ghost predicate SameFrame(d: Dict, d': Dict) {
    d'.hash == d.hash && d'.iterators == d.iterators && d'.canResize == d.canResize
  }

  // What moving buckets keeps, and that it does not go back.
  ghost predicate Moved(d: Dict, d': Dict) {
    && Moving(d') && AllEntries(d') == AllEntries(d) && Size(d') == Size(d) && SameFrame(d, d')
    && |d'.ht0.buckets| == |d.ht0.buckets| && |d'.ht1.buckets| == |d.ht1.buckets|
    && d'.rehashidx >= d.rehashidx
  }

  lemma MovingAtEnd(d: Dict)
    requires Moving(d) && d.rehashidx == |d.ht0.buckets|
    ensures d.ht0.used == 0
  {
    TotalOfEmpty(d.ht0.buckets);
  }

  lemma {:induction false} SkipEmptySkips(bs: seq<Chain>, i: nat, visits: nat)
    requires visits > 0 && i <= |bs|
    ensures var (j, left) := SkipEmpty(bs, i, visits);
      && i <= j <= |bs|
      && (forall b :: i <= b < j ==> bs[b] == [])
      && (left > 0 && j < |bs| ==> bs[j] != [])
      && (left == 0 ==> j > i)
    decreases |bs| - i
  {
    if i < |bs| && bs[i] == [] && visits > 1 {
      SkipEmptySkips(bs, i + 1, visits - 1);
    }
  }

  lemma MoveBucketMoves(d: Dict)
    requires Moving(d) && d.rehashidx < |d.ht0.buckets|
    ensures Moved(d, MoveBucket(d)) && MoveBucket(d).rehashidx == d.rehashidx + 1
  {
    var c := d.ht0.buckets[d.rehashidx];
    BucketReplaced(d.hash, d.ht0, d.rehashidx, []);
    forall e | e in c ensures e in Entries(d.ht0) {}
    forall x, y | x in c && y in Entries(d.ht1) ensures x.key != y.key {
      assert !SameKey(x, y);
    }
    MoveChainMoves(d.hash, c, d.ht1);
    var d' := MoveBucket(d);
    forall x, y | x in Entries(d'.ht0) && y in Entries(d'.ht1) ensures !SameKey(x, y) {
      if y in c && x.key == y.key {
        OneEntryPerKey(d.hash, d.ht0, x, y);
      }
    }
  }

  // One round: on to a non-empty bucket, unless no visits are left, and its move.
  lemma RoundMoved(d: Dict, visits: nat)
    requires Moving(d) && d.ht0.used != 0 && visits > 0
    ensures var (i, left) := SkipEmpty(d.ht0.buckets, d.rehashidx, visits);
      && i < |d.ht0.buckets|
      && var d1 := d.(rehashidx := i);
      if left == 0 then Moved(d, d1) && i > d.rehashidx
      else Moved(d, MoveBucket(d1)) && MoveBucket(d1).rehashidx == i + 1
  {
    var (i, left) := SkipEmpty(d.ht0.buckets, d.rehashidx, visits);
    SkipEmptySkips(d.ht0.buckets, d.rehashidx, visits);
    if i == |d.ht0.buckets| {
      MovingAtEnd(d.(rehashidx := i));
    } else if left > 0 {
      MoveBucketMoves(d.(rehashidx := i));
    }
  }

  lemma MovedTwice(d: Dict, d1: Dict, d2: Dict)
    requires Moved(d, d1) && Moved(d1, d2)
    ensures Moved(d, d2)
  {}

  ghost predicate MovesOn(d: Dict, n: nat, r: (Dict, bool)) {
    Moved(d, r.0) && (n > 0 && d.ht0.used != 0 ==> r.0.rehashidx > d.rehashidx) && (r.1 ==> r.0.ht0.used != 0)
  }

  lemma {:induction false} MoveBucketsMoves(d: Dict, n: nat, visits: nat)
    requires Moving(d) && (n > 0 ==> visits > 0)
    ensures MovesOn(d, n, MoveBuckets(d, n, visits))
    decreases n
  {
    if n > 0 && d.ht0.used != 0 {
      RoundMoved(d, visits);
      var (i, left) := SkipEmpty(d.ht0.buckets, d.rehashidx, visits);
      if left > 0 {
        var d1 := MoveBucket(d.(rehashidx := i));
        MoveBucketsMoves(d1, n - 1, left);
        MovedTwice(d, d1, MoveBuckets(d1, n - 1, left).0);
      }
    }
  }

  lemma MovingCompletes(d: Dict)
    requires Moving(d) && d.ht0.used == 0
    ensures var d' := d.(ht0 := d.ht1, ht1 := NO_TABLE, rehashidx := -1);
      Inv(d') && AllEntries(d') == AllEntries(d)
  {
    EmptyByCount(d.hash, d.ht0);
  }

  lemma MovingContinues(d: Dict)
    requires Moving(d) && d.ht0.used != 0
    ensures Inv(d)
  {
    if d.rehashidx == |d.ht0.buckets| {
      MovingAtEnd(d);
    }
  }

  /** A rehash of any number of buckets keeps the entries; unless it completes, it gets further. */
  lemma RehashKeeps(d: Dict, n: nat)
    requires Inv(d)
    ensures var d' := Rehash(d, n).0;
      Inv(d') && AllEntries(d') == AllEntries(d) && Size(d') == Size(d) && SameFrame(d, d')
    ensures RehashAdvances(d, Rehash(d, n).0, n)
  {
    if IsRehashing(d) {
      MoveBucketsMoves(d, n, n * 10);
      var (d1, early) := MoveBuckets(d, n, n * 10);
      if d1.ht0.used == 0 {
        MovingCompletes(d1);
      } else {
        MovingContinues(d1);
      }
    }
  }

  ghost predicate RehashAdvances(d: Dict, d': Dict, n: nat) {
    if !IsRehashing(d) then d' == d
    else if IsRehashing(d') then
      && |d'.ht0.buckets| == |d.ht0.buckets| && |d'.ht1.buckets| == |d.ht1.buckets|
      && (n > 0 ==> d'.rehashidx > d.rehashidx)
    else |d'.ht0.buckets| == |d.ht1.buckets|
  }

  lemma RehashStepKeeps(d: Dict)
    requires Inv(d)
    ensures var d' := RehashStep(d);
      Inv(d') && AllEntries(d') == AllEntries(d) && Size(d') == Size(d) && SameFrame(d, d')
    ensures d.ht0.buckets != [] ==> RehashStep(d).ht0.buckets != []
  {
    RehashKeeps(d, 1);
  }

  // ---------------------------------------------------------------------------
  // Counting

  ghost function EntriesOf(bs: seq<Chain>): set<Entry> {
    set c, e | c in bs && e in c :: e
  }

  ghost function SetOf(c: Chain): set<Entry> {
    set e | e in c
  }

  lemma {:induction false} ChainCount(c: Chain)
    requires Distinct(c)
    ensures |SetOf(c)| == |c|
  {
    if c != [] {
      ChainCount(c[1..]);
      assert SetOf(c) == {c[0]} + SetOf(c[1..]);
    } else {
      assert SetOf(c) == {};
    }
  }

  lemma {:induction false} BucketsCount(bs: seq<Chain>)
    requires forall b :: 0 <= b < |bs| ==> Distinct(bs[b])
    requires forall a, b, e :: 0 <= a < b < |bs| && e in bs[a] ==> e !in bs[b]
    ensures |EntriesOf(bs)| == Total(bs)
  {
    if bs == [] {
      assert EntriesOf(bs) == {};
    } else {
      BucketsCount(bs[1..]);
      ChainCount(bs[0]);
      assert bs == [bs[0]] + bs[1..];
      assert EntriesOf(bs) == SetOf(bs[0]) + EntriesOf(bs[1..]);
      assert SetOf(bs[0]) !! EntriesOf(bs[1..]);
    }
  }

  lemma TableCount(hash: Key -> Word, t: Table)
    requires TableOk(hash, t)
    ensures |Entries(t)| == t.used
  {
    forall a, b, e | 0 <= a < b < |t.buckets| && e in t.buckets[a] ensures e !in t.buckets[b] {
      assert Slot(hash(e.key), |t.buckets|) == a;
    }
    BucketsCount(t.buckets);
    assert Entries(t) == EntriesOf(t.buckets);
  }

  lemma EmptyByCount(hash: Key -> Word, t: Table)
    requires TableOk(hash, t) && t.used == 0
    ensures Entries(t) == {}
  {
    TableCount(hash, t);
  }

  // ---------------------------------------------------------------------------
  // The finite map a state stands for

  ghost predicate OnePerKey(s: set<Entry>) {
    forall x, y :: x in s && y in s && x.key == y.key ==> x == y
  }

  ghost function AsMap(s: set<Entry>): map<Key, Val>
    requires OnePerKey(s)
  {
    map e | e in s :: e.key := e.val
  }

  lemma InvOnePerKey(d: Dict)
    requires Inv(d)
    ensures OnePerKey(AllEntries(d))
  {
    Apart(Entries(d.ht0), Entries(d.ht1));
    forall x, y | x in AllEntries(d) && y in AllEntries(d) && x.key == y.key ensures x == y {
      if x in Entries(d.ht0) && y in Entries(d.ht0) {
        OneEntryPerKey(d.hash, d.ht0, x, y);
      } else if x in Entries(d.ht1) && y in Entries(d.ht1) {
        OneEntryPerKey(d.hash, d.ht1, x, y);
      }
    }
  }

  ghost function Contents(d: Dict): map<Key, Val>
    requires Inv(d)
  {
    InvOnePerKey(d);
    AsMap(AllEntries(d))
  }

  lemma {:induction false} MapCount(s: set<Entry>)
    requires OnePerKey(s)
    ensures |AsMap(s)| == |s|
  {
    if s == {} {
      assert AsMap(s) == map[];
    } else {
      var e :| e in s;
      MapCount(s - {e});
      assert AsMap(s).Keys == AsMap(s - {e}).Keys + {e.key};
      assert |AsMap(s)| == |AsMap(s).Keys| && |AsMap(s - {e})| == |AsMap(s - {e}).Keys|;
    }
  }

  /** used[0] + used[1] counts the keys of the map. */
  lemma SizeCounts(d: Dict)
    requires Inv(d)
    ensures |Contents(d)| == Size(d)
  {
    InvOnePerKey(d);
    Apart(Entries(d.ht0), Entries(d.ht1));
    TableCount(d.hash, d.ht0);
    TableCount(d.hash, d.ht1);
    MapCount(AllEntries(d));
  }

  lemma LookupIs(d: Dict, key: Key)
    requires Inv(d)
    ensures match Lookup(d, key)
            case Some(e) => e in AllEntries(d) && e.key == key
            case None => forall e :: e in AllEntries(d) ==> e.key != key
  {
    LocateIs(d.hash, d.ht0, key);
    LocateIs(d.hash, d.ht1, key);
    assert !IsRehashing(d) ==> Entries(d.ht1) == {};
  }

  lemma LookupReads(d: Dict, key: Key)
    requires Inv(d)
    ensures match Lookup(d, key)
            case Some(e) => key in Contents(d) && e == Entry(key, Contents(d)[key])
            case None => key !in Contents(d)
  {
    InvOnePerKey(d);
    LookupIs(d, key);
  }

  // ---------------------------------------------------------------------------
  // The operations on the entries

  lemma InsertKeeps(d: Dict, e: Entry)
    requires Inv(d) && d.ht0.buckets != [] && Lookup(d, e.key) == None
    ensures var d' := InsertNewest(d, e);
      Inv(d') && AllEntries(d') == AllEntries(d) + {e} && Size(d') == Size(d) + 1
  {
    LookupIs(d, e.key);
    InsertAdds(d.hash, if IsRehashing(d) then d.ht1 else d.ht0, e);
  }

  // The table an insertion finds, after its rehash step and growth.
  function Ready(d: Dict): (Dict, bool) {
    ExpandIfNeeded(RehashStep(d))
  }

  lemma ReadyKeeps(d: Dict)
    requires Inv(d)
    ensures var (d', ok) := Ready(d);
      Inv(d') && AllEntries(d') == AllEntries(d) && Size(d') == Size(d) && SameFrame(d, d') &&
        (ok ==> d'.ht0.buckets != [])
  {
    RehashStepKeeps(d);
    ExpandIfNeededKeeps(RehashStep(d));
  }

  lemma AddKeeps(d: Dict, key: Key, val: Val)
    requires Inv(d)
    ensures var (d', r) := AddRaw(d, key, val);
      && Inv(d')
      && AllEntries(d') == AllEntries(d) + (if r.Added? then {Entry(key, val)} else {})
      && (r.Added? ==> forall e :: e in AllEntries(d) ==> e.key != key)
      && (r.Existing? ==> r.entry in AllEntries(d) && r.entry.key == key)
  {
    ReadyKeeps(d);
    var (d2, ok) := Ready(d);
    LookupIs(d2, key);
    if ok && Lookup(d2, key) == None {
      InsertKeeps(d2, Entry(key, val));
    }
  }

  // The table in which the search for the key ends, when it ends at an entry.
  function Holder(d: Dict, key: Key): Table {
    if Locate(d.hash, d.ht0, key).Some? then d.ht0 else d.ht1
  }

  lemma HolderHolds(d: Dict, key: Key)
    requires Inv(d) && Lookup(d, key).Some?
    ensures var t := Holder(d, key);
      && TableOk(d.hash, t)
      && Locate(d.hash, t, key).Some?
      && var p := Locate(d.hash, t, key).value;
         t.buckets[p.0][p.1] == Lookup(d, key).value
    ensures var e := Lookup(d, key).value;
      if Locate(d.hash, d.ht0, key).Some? then e in Entries(d.ht0) && e !in Entries(d.ht1)
      else e in Entries(d.ht1) && e !in Entries(d.ht0)
    ensures forall x :: x in AllEntries(d) && x.key == key ==> x == Lookup(d, key).value
  {
    LocateIs(d.hash, d.ht0, key);
    LocateIs(d.hash, d.ht1, key);
    Apart(Entries(d.ht0), Entries(d.ht1));
    InvOnePerKey(d);
  }

  lemma SetValueKeeps(d: Dict, key: Key, val: Val)
    requires Inv(d) && Lookup(d, key).Some?
    ensures var d' := SetValue(d, key, val);
      && Inv(d') && Size(d') == Size(d)
      && AllEntries(d') == AllEntries(d) - {Lookup(d, key).value} + {Entry(key, val)}
  {
    HolderHolds(d, key);
    var t := Holder(d, key);
    var p := Locate(d.hash, t, key).value;
    SetValueSets(d.hash, t, p.0, p.1, val);
  }

  lemma RemoveKeeps(d: Dict, key: Key)
    requires Inv(d) && Lookup(d, key).Some?
    ensures var (d', r) := Remove(d, key);
      && Inv(d') && r == Lookup(d, key) && Size(d') == Size(d) - 1
      && AllEntries(d') == AllEntries(d) - {r.value}
  {
    HolderHolds(d, key);
    var t := Holder(d, key);
    var p := Locate(d.hash, t, key).value;
    RemoveAtRemoves(d.hash, t, p.0, p.1);
  }

  // ---------------------------------------------------------------------------
  // The operations on the map

  lemma CreateRefines(hash: Key -> Word)
    ensures Inv(Create(hash)) && Contents(Create(hash)) == map[]
  {}

  lemma FindRefines(d: Dict, key: Key)
    requires Inv(d)
    ensures var (d', r) := Find(d, key);
      && Inv(d') && Contents(d') == Contents(d)
      && (r.Some? <==> key in Contents(d))
      && (r.Some? ==> r.value == Entry(key, Contents(d)[key]))
  {
    SizeCounts(d);
    RehashStepKeeps(d);
    LookupReads(RehashStep(d), key);
  }

  lemma AddRefines(d: Dict, key: Key, val: Val)
    requires Inv(d)
    ensures var (d', r) := AddRaw(d, key, val);
      && Inv(d')
      && (r.Added? ==> key !in Contents(d) && Contents(d') == Contents(d)[key := val])
      && (r.Existing? ==> key in Contents(d) && Contents(d') == Contents(d) && r.entry == Entry(key, Contents(d)[key]))
      && (r.Refused? ==> Contents(d') == Contents(d))
  {
    AddKeeps(d, key, val);
    InvOnePerKey(d);
    var (d', r) := AddRaw(d, key, val);
    if r.Added? {
      MapAfterAdd(AllEntries(d), AllEntries(d'), Entry(key, val));
    }
  }

  lemma MapAfterAdd(s: set<Entry>, s': set<Entry>, e: Entry)
    requires s' == s + {e} && OnePerKey(s) && forall x :: x in s ==> x.key != e.key
    ensures OnePerKey(s') && AsMap(s') == AsMap(s)[e.key := e.val]
  {
    assert e in s';
    assert AsMap(s').Keys == AsMap(s).Keys + {e.key};
  }

  lemma MapAfterRemove(s: set<Entry>, s': set<Entry>, e: Entry)
    requires s' == s - {e} && OnePerKey(s) && e in s
    ensures OnePerKey(s') && AsMap(s') == AsMap(s) - {e.key}
  {
    assert AsMap(s').Keys == AsMap(s).Keys - {e.key};
  }

  // The one table in use cannot grow any more and is due to.
  predicate AtTheCap(d: Dict) {
    && !IsRehashing(d) && |d.ht0.buckets| == SIZE_CAP
    && d.ht0.used >= SIZE_CAP && (d.canResize || d.ht0.used / SIZE_CAP > FORCE_RESIZE_RATIO)
  }

  /** Adding is refused exactly when the one table in use has 2^63 buckets and is due to grow. */
  lemma AddRefusedWhen(d: Dict, key: Key, val: Val)
    requires Inv(d)
    ensures AddRaw(d, key, val).1.Refused? <==> AtTheCap(RehashStep(d))
  {
    RehashStepKeeps(d);
    var d1 := RehashStep(d);
    var size, used := |d1.ht0.buckets|, d1.ht0.used;
    NextPowerIsSize(INITIAL_SIZE);
    if size == 0 {
      TotalOfEmpty(d1.ht0.buckets);
    } else if !IsRehashing(d1) && used >= size {
      GrowthWorks(size, used * 2);
    }
  }

  // Doubling gives a larger table unless the table is at the cap.
  lemma GrowthWorks(size: nat, wanted: int)
    requires IsSize(size) && wanted >= 2 * size
    ensures NextPower(wanted) == size <==> size == SIZE_CAP
  {
    var k :| 2 <= k <= 63 && size == Pow2(k);
    NextPowerIsSize(wanted);
    if k < 63 {
      Pow2Grows(k, 63);
    }
  }

  /** A replacement reads through the null pointer exactly when adding is refused, whether the key is there or not. */
  lemma ReplaceReadsNullWhen(d: Dict, key: Key, val: Val)
    requires Inv(d)
    ensures Replace(d, key, val).1.NullRead? <==> AtTheCap(RehashStep(d))
  {
    AddRefusedWhen(d, key, val);
  }

  /** Otherwise it sets the key's value and tells whether the key is new. */
  lemma ReplaceRefines(d: Dict, key: Key, val: Val)
    requires Inv(d)
    ensures var (d', r) := Replace(d, key, val);
      && Inv(d')
      && Contents(d') == (if r.NullRead? then Contents(d) else Contents(d)[key := val])
      && (r.New? ==> key !in Contents(d)) && (r.Updated? ==> key in Contents(d))
  {
    AddRefines(d, key, val);
    var (d1, r) := AddRaw(d, key, val);
    if r.Existing? {
      SetValueRefines(d1, key, val);
    }
  }

  lemma SetValueRefines(d: Dict, key: Key, val: Val)
    requires Inv(d) && key in Contents(d)
    ensures Inv(SetValue(d, key, val)) && Contents(SetValue(d, key, val)) == Contents(d)[key := val]
  {
    LookupReads(d, key);
    LookupIs(d, key);
    SetValueKeeps(d, key, val);
    InvOnePerKey(d);
    var s, e := AllEntries(d), Lookup(d, key).value;
    MapAfterRemove(s, s - {e}, e);
    MapAfterAdd(s - {e}, AllEntries(SetValue(d, key, val)), Entry(key, val));
  }

  lemma DeleteKeeps(d: Dict, key: Key)
    requires Inv(d)
    ensures var (d', r) := Delete(d, key);
      && Inv(d')
      && AllEntries(d') == (if r.Some? then AllEntries(d) - {r.value} else AllEntries(d))
      && match r
         case Some(e) => e in AllEntries(d) && e.key == key
         case None => forall e :: e in AllEntries(d) ==> e.key != key
  {
    RehashStepKeeps(d);
    var d1 := RehashStep(d);
    LookupIs(d1, key);
    if d.ht0.used == 0 && d.ht1.used == 0 {
      EmptyByCount(d.hash, d.ht0);
      EmptyByCount(d.hash, d.ht1);
    } else if Lookup(d1, key).Some? {
      RemoveKeeps(d1, key);
    }
  }

  lemma DeleteRefines(d: Dict, key: Key)
    requires Inv(d)
    ensures var (d', r) := Delete(d, key);
      && Inv(d') && Contents(d') == Contents(d) - {key}
      && (r.Some? <==> key in Contents(d))
      && (r.Some? ==> r.value == Entry(key, Contents(d)[key]))
  {
    DeleteKeeps(d, key);
    InvOnePerKey(d);
    var (d', r) := Delete(d, key);
    if r.Some? {
      MapAfterRemove(AllEntries(d), AllEntries(d'), r.value);
    }
  }
}
