/** Safe iterators: dictNext with finds, additions, and deletions of the entry just returned in
    between, even when an addition starts a rehash. */
module DictIteration {
  import opened Bits
  import opened DictRefinement
  import opened DictRuns
  import opened DictState
  import opened Options

  // The entry pointers of the C structure, as the keys of the entries they point to.
  datatype Iterator = Iterator(second: bool, index: int, entry: Option<Key>, nextEntry: Option<Key>)

  const FRESH := Iterator(false, -1, None, None)

  function TableOf(d: Dict, second: bool): Table { if second then d.ht1 else d.ht0 }

  // The next non-empty bucket after bucket index, going on to the second table when rehashing.
  function NextBucket(d: Dict, second: bool, index: int): (r: Option<(bool, nat)>)
    requires index >= -1
    ensures r.Some? ==> r.value.1 < |TableOf(d, r.value.0).buckets| && TableOf(d, r.value.0).buckets[r.value.1] != []
    decreases !second, |TableOf(d, second).buckets| - index
  {
    var i := index + 1;
    if i < |TableOf(d, second).buckets| then
      if TableOf(d, second).buckets[i] != [] then Some((second, i)) else NextBucket(d, second, i)
    else if IsRehashing(d) && !second then NextBucket(d, true, -1)
    else None
  }

  // The key of the entry after position i of a chain.
  function KeyAfter(c: Chain, i: nat): Option<Key> {
    if i + 1 < |c| then Some(c[i + 1].key) else None
  }

  function Next(d: Dict, it: Iterator): (r: (Dict, Iterator, Option<Entry>))
    requires it.index >= -1
    ensures r.1.index >= -1
  {
    var d1 := if it.entry == None && it.index == -1 && !it.second then d.(iterators := d.iterators + 1) else d;
    var t := TableOf(d, it.second);
    if it.entry.Some? && it.nextEntry.Some? && 0 <= it.index < |t.buckets|
       && FindIn(t.buckets[it.index], it.nextEntry.value) < |t.buckets[it.index]| then
      var c := t.buckets[it.index];
      var i := FindIn(c, it.nextEntry.value);
      (d1, it.(entry := Some(c[i].key), nextEntry := KeyAfter(c, i)), Some(c[i]))
    else
      match NextBucket(d, it.second, it.index)
      case Some(p) =>
        var c := TableOf(d, p.0).buckets[p.1];
        (d1, Iterator(p.0, p.1, Some(c[0].key), KeyAfter(c, 0)), Some(c[0]))
      case None =>
        (d1, Iterator(IsRehashing(d), |(if IsRehashing(d) then d.ht1 else d.ht0).buckets|, None, None), None)
  }

  // ---------------------------------------------------------------------------
  // What the iterator has still to return

  // The iterator points into the table as it stands.
  ghost predicate Positioned(d: Dict, it: Iterator) {
    && it.index >= -1
    && (it.second ==> IsRehashing(d))
    && (it != FRESH ==> d.iterators > 0)
    && (it.entry.Some? && it.nextEntry.Some? ==>
      && it.entry != it.nextEntry
      && 0 <= it.index < |TableOf(d, it.second).buckets|
      && var c := TableOf(d, it.second).buckets[it.index]; FindIn(c, it.nextEntry.value) < |c|)
  }

  ghost predicate Valid(d: Dict, it: Iterator) {
    Inv(d) && Positioned(d, it)
  }

  // Place p of a table is ahead of the iterator.
  ghost predicate Ahead(t: Table, it: Iterator, p: (nat, nat)) {
    || p.0 > it.index
    || (p.0 == it.index && p.0 < |t.buckets| && it.entry.Some? && it.nextEntry.Some?
        && p.1 >= FindIn(t.buckets[p.0], it.nextEntry.value))
  }

  datatype Place = Place(second: bool, bucket: nat, pos: nat)

  function PlaceOf(d: Dict, key: Key): Option<Place> {
    match Locate(d.hash, d.ht0, key)
    case Some(p) => Some(Place(false, p.0, p.1))
    case None =>
      match Locate(d.hash, d.ht1, key)
      case Some(p) => Some(Place(true, p.0, p.1))
      case None => None
  }

  ghost predicate PlacePending(d: Dict, it: Iterator, p: Place) {
    if p.second == it.second then Ahead(TableOf(d, p.second), it, (p.bucket, p.pos)) else p.second
  }

  /** The key's entry is still to be returned. */
  ghost predicate Pending(d: Dict, it: Iterator, key: Key) {
    PlaceOf(d, key).Some? && PlacePending(d, it, PlaceOf(d, key).value)
  }

  lemma {:induction false} NextBucketSkips(d: Dict, second: bool, index: int)
    requires index >= -1 && (second ==> IsRehashing(d))
    ensures match NextBucket(d, second, index)
      case Some(p) =>
        && (second ==> p.0) && (p.0 ==> IsRehashing(d))
        && (p.0 == second ==> p.1 > index)
        && (forall b :: index < b < |TableOf(d, second).buckets| && (p.0 != second || b < p.1) ==>
          TableOf(d, second).buckets[b] == [])
        && (p.0 != second ==> forall b :: 0 <= b < p.1 ==> d.ht1.buckets[b] == [])
      case None =>
        && (forall b :: index < b < |TableOf(d, second).buckets| ==> TableOf(d, second).buckets[b] == [])
        && (!second && IsRehashing(d) ==> forall b :: 0 <= b < |d.ht1.buckets| ==> d.ht1.buckets[b] == [])
    decreases !second, |TableOf(d, second).buckets| - index
  {
    var i := index + 1;
    if i < |TableOf(d, second).buckets| {
      if TableOf(d, second).buckets[i] == [] {
        NextBucketSkips(d, second, i);
      }
    } else if IsRehashing(d) && !second {
      NextBucketSkips(d, true, -1);
    }
  }

  lemma FindInAt(c: Chain, i: nat)
    requires Distinct(c) && i < |c|
    ensures FindIn(c, c[i].key) == i
  {
    FindInFinds(c, c[i]);
  }

  predicate IsPlace(d: Dict, p: Place) {
    p.bucket < |TableOf(d, p.second).buckets| && p.pos < |TableOf(d, p.second).buckets[p.bucket]|
  }

  function EntryAt(d: Dict, p: Place): Entry
    requires IsPlace(d, p)
  {
    TableOf(d, p.second).buckets[p.bucket][p.pos]
  }

  lemma EntryAtIs(d: Dict, p: Place)
    requires Inv(d) && IsPlace(d, p)
    ensures EntryAt(d, p) in AllEntries(d) && PlaceOf(d, EntryAt(d, p).key) == Some(p)
  {
    var t := TableOf(d, p.second);
    var e := EntryAt(d, p);
    assert t.buckets[p.bucket] in t.buckets && e in t.buckets[p.bucket];
    FindInAt(t.buckets[p.bucket], p.pos);
    LocateIs(d.hash, d.ht0, e.key);
    Apart(Entries(d.ht0), Entries(d.ht1));
  }

  lemma PlaceOfIs(d: Dict, key: Key)
    ensures PlaceOf(d, key).Some? ==> IsPlace(d, PlaceOf(d, key).value) && EntryAt(d, PlaceOf(d, key).value).key == key
  {}

  // The iterator after returning the entry at place p.
  function After(d: Dict, p: Place): Iterator
    requires IsPlace(d, p)
  {
    var c := TableOf(d, p.second).buckets[p.bucket];
    Iterator(p.second, p.bucket, Some(c[p.pos].key), KeyAfter(c, p.pos))
  }

  lemma AfterIsAhead(d: Dict, p: Place, q: Place)
    requires Inv(d) && IsPlace(d, p) && IsPlace(d, q)
    ensures PlacePending(d, After(d, p), q) <==>
      if q.second == p.second then q.bucket > p.bucket || (q.bucket == p.bucket && q.pos > p.pos) else q.second
  {
    var c := TableOf(d, p.second).buckets[p.bucket];
    if p.pos + 1 < |c| {
      FindInAt(c, p.pos + 1);
    }
  }

  lemma AfterValid(d: Dict, p: Place)
    requires Inv(d) && IsPlace(d, p) && d.iterators > 0
    ensures Valid(d, After(d, p))
  {
    var c := TableOf(d, p.second).buckets[p.bucket];
    FindInAt(c, p.pos);
    if p.pos + 1 < |c| {
      FindInAt(c, p.pos + 1);
    }
  }

  // The place a call returns the entry of.
  function Target(d: Dict, it: Iterator): Option<Place>
    requires it.index >= -1
  {
    var t := TableOf(d, it.second);
    if it.entry.Some? && it.nextEntry.Some? && 0 <= it.index < |t.buckets|
       && FindIn(t.buckets[it.index], it.nextEntry.value) < |t.buckets[it.index]| then
      Some(Place(it.second, it.index, FindIn(t.buckets[it.index], it.nextEntry.value)))
    else
      match NextBucket(d, it.second, it.index)
      case Some(p) => Some(Place(p.0, p.1, 0))
      case None => None
  }

  /** The target is the first pending place; with no target, no place is pending. */
  lemma TargetIsFirst(d: Dict, it: Iterator, q: Place)
    requires Valid(d, it) && IsPlace(d, q)
    ensures match Target(d, it)
            case Some(p) =>
              && IsPlace(d, p) && PlacePending(d, it, p)
              && (PlacePending(d, it, q) <==> q == p || PlacePending(d, After(d, p), q))
            case None => !PlacePending(d, it, q)
  {
    NextBucketSkips(d, it.second, it.index);
    match Target(d, it)
    case Some(p) => AfterIsAhead(d, p, q);
    case None =>
  }

  function Opened(d: Dict, it: Iterator): Dict {
    if it.entry == None && it.index == -1 && !it.second then d.(iterators := d.iterators + 1) else d
  }

  lemma NextIs(d: Dict, it: Iterator)
    requires it.index >= -1
    ensures Next(d, it).0 == Opened(d, it)
    ensures match Target(d, it)
            case Some(p) => IsPlace(d, p) && Next(d, it).1 == After(d, p) && Next(d, it).2 == Some(EntryAt(d, p))
            case None => Next(d, it).2 == None
  {}

  lemma OpenedKeeps(d: Dict, it: Iterator)
    requires Inv(d)
    ensures Inv(Opened(d, it)) && Contents(Opened(d, it)) == Contents(d)
    ensures forall key :: PlaceOf(Opened(d, it), key) == PlaceOf(d, key)
  {}

  /** A call returns a pending entry and leaves exactly the others pending, or finds none pending. */
  lemma NextReturns(d: Dict, it: Iterator, key: Key)
    requires Valid(d, it) && (it == FRESH || it.entry.Some?)
    ensures var (d', it', r) := Next(d, it);
      && Inv(d') && Contents(d') == Contents(d)
      && match r
         case Some(e) =>
           && Valid(d', it') && it'.entry == Some(e.key)
           && e.key in Contents(d) && Contents(d)[e.key] == e.val
           && (Pending(d, it, key) <==> key == e.key || Pending(d', it', key))
           && !Pending(d', it', e.key)
         case None => !Pending(d, it, key)
  {
    OpenedKeeps(d, it);
    NextIs(d, it);
    PlaceOfIs(d, key);
    var d' := Opened(d, it);
    var place := PlaceOf(d, key);
    if Target(d, it).Some? {
      var p := Target(d, it).value;
      TargetIsFirst(d, it, p);
      EntryAtIs(d, p);
      AfterValid(d', p);
      AfterIsAhead(d, p, p);
      InvOnePerKey(d);
      if place.Some? {
        TargetIsFirst(d, it, place.value);
      }
    } else if place.Some? {
      TargetIsFirst(d, it, place.value);
    }
  }

  // ---------------------------------------------------------------------------
  // What the caller may do between two calls

  /** Finds, additions and value changes are allowed, and deleting the entry just returned. */
  predicate Allowed(it: Iterator, op: Op) {
    op.Get? || op.Add? || op.Set? || (op.Del? && it.entry == Some(op.key))
  }

  lemma {:induction false} FindInWithout(c: Chain, i: nat, key: Key)
    requires i < |c| && c[i].key != key
    ensures FindIn(Without(c, i), key) == if FindIn(c, key) > i then FindIn(c, key) - 1 else FindIn(c, key)
  {
    if i > 0 {
      assert Without(c, i) == [c[0]] + Without(c[1..], i - 1);
      FindInWithout(c[1..], i - 1, key);
    } else {
      assert Without(c, 0) == c[1..];
    }
  }

  lemma {:induction false} FindInSet(c: Chain, i: nat, val: Val, key: Key)
    requires i < |c|
    ensures FindIn(c[i := c[i].(val := val)], key) == FindIn(c, key)
  {
    if i > 0 {
      FindInSet(c[1..], i - 1, val, key);
      assert c[i := c[i].(val := val)][1..] == c[1..][i - 1 := c[i].(val := val)];
    }
  }

  // An iterator in a bucket whose chain changed from c to c' by a shift that keeps its order.
  ghost predicate SameOrder(c: Chain, c': Chain, it: Iterator, key: Key) {
    && (FindIn(c, key) < |c| <==> FindIn(c', key) < |c'|)
    && (it.nextEntry.Some? && FindIn(c, it.nextEntry.value) < |c| ==>
      && FindIn(c', it.nextEntry.value) < |c'|
      && (FindIn(c, key) < |c| ==>
        (FindIn(c, key) >= FindIn(c, it.nextEntry.value) <==> FindIn(c', key) >= FindIn(c', it.nextEntry.value))))
  }

  ghost predicate BucketChanged(t: Table, t': Table, b: nat) {
    && b < |t.buckets| && |t'.buckets| == |t.buckets|
    && forall i :: 0 <= i < |t.buckets| && i != b ==> t'.buckets[i] == t.buckets[i]
  }

  lemma AheadChange(hash: Key -> Word, t: Table, t': Table, b: nat, it: Iterator, key: Key)
    requires BucketChanged(t, t', b) && SameOrder(t.buckets[b], t'.buckets[b], it, key)
    requires it.entry.Some? && it.nextEntry.Some? && 0 <= it.index < |t.buckets| ==>
      FindIn(t.buckets[it.index], it.nextEntry.value) < |t.buckets[it.index]|
    ensures match Locate(hash, t, key)
            case Some(p) => Locate(hash, t', key).Some? &&
              (Ahead(t', it, Locate(hash, t', key).value) <==> Ahead(t, it, p))
            case None => Locate(hash, t', key) == None
  {}

  // The same when another table is the one iterated.
  lemma LocateChange(hash: Key -> Word, t: Table, t': Table, b: nat, it: Iterator, key: Key)
    requires BucketChanged(t, t', b) && SameOrder(t.buckets[b], t'.buckets[b], it, key)
    ensures Locate(hash, t', key).Some? <==> Locate(hash, t, key).Some?
  {}

  // The states differ in one table.
  ghost predicate TableChanged(d: Dict, d': Dict, second: bool, b: nat) {
    && d'.hash == d.hash && d'.rehashidx == d.rehashidx && d'.iterators == d.iterators
    && TableOf(d', !second) == TableOf(d, !second)
    && BucketChanged(TableOf(d, second), TableOf(d', second), b)
  }

  lemma PositionedChange(d: Dict, d': Dict, it: Iterator, second: bool, b: nat, key: Key)
    requires Positioned(d, it) && TableChanged(d, d', second, b)
    requires SameOrder(TableOf(d, second).buckets[b], TableOf(d', second).buckets[b], it, key)
    ensures Positioned(d', it)
  {}

  /** A change of one bucket that keeps the order of what the iterator looks at changes nothing for it. */
  lemma BucketChange(d: Dict, d': Dict, it: Iterator, second: bool, b: nat, key: Key)
    requires Positioned(d, it) && it.entry.Some? && TableChanged(d, d', second, b)
    requires SameOrder(TableOf(d, second).buckets[b], TableOf(d', second).buckets[b], it, key)
    ensures Positioned(d', it) && (Pending(d', it, key) <==> Pending(d, it, key))
  {
    PositionedChange(d, d', it, second, b, key);
    LocateChange(d.hash, TableOf(d, second), TableOf(d', second), b, it, key);
    if second == it.second {
      AheadChange(d.hash, TableOf(d, second), TableOf(d', second), b, it, key);
    }
  }

  lemma InsertSameOrder(c: Chain, e: Entry, it: Iterator, key: Key)
    requires (forall x :: x in c ==> x.key != e.key) && key != e.key
    ensures SameOrder(c, [e] + c, it, key)
  {
    assert ([e] + c)[1..] == c;
    if it.nextEntry.Some? && FindIn(c, it.nextEntry.value) < |c| {
      assert c[FindIn(c, it.nextEntry.value)] in c;
    }
  }

  lemma SetSameOrder(c: Chain, i: nat, val: Val, it: Iterator, key: Key)
    requires i < |c|
    ensures SameOrder(c, c[i := c[i].(val := val)], it, key)
  {
    FindInSet(c, i, val, key);
    if it.nextEntry.Some? {
      FindInSet(c, i, val, it.nextEntry.value);
    }
  }

  lemma WithoutSameOrder(c: Chain, i: nat, it: Iterator, key: Key)
    requires i < |c| && Distinct(c) && key != c[i].key && it.nextEntry != Some(c[i].key)
    ensures SameOrder(c, Without(c, i), it, key)
  {
    FindInWithout(c, i, key);
    FindInAt(c, i);
    if it.nextEntry.Some? {
      FindInWithout(c, i, it.nextEntry.value);
      SamePlaceSameKey(c, key, it.nextEntry.value);
      SamePlaceSameKey(c, key, c[i].key);
      SamePlaceSameKey(c, it.nextEntry.value, c[i].key);
    }
  }

  lemma SamePlaceSameKey(c: Chain, k: Key, k': Key)
    ensures FindIn(c, k) == FindIn(c, k') < |c| ==> k == k'
  {}

  lemma InsertPending(d: Dict, it: Iterator, e: Entry, key: Key)
    requires Valid(d, it) && it.entry.Some? && d.ht0.buckets != [] && Lookup(d, e.key) == None && key != e.key
    ensures var d' := InsertNewest(d, e);
      Valid(d', it) && (Pending(d', it, key) <==> Pending(d, it, key))
  {
    InsertKeeps(d, e);
    LookupIs(d, e.key);
    var second := IsRehashing(d);
    var t := TableOf(d, second);
    var b := Slot(d.hash(e.key), |t.buckets|);
    SlotInRange(d.hash(e.key), |t.buckets|);
    assert t.buckets[b] in t.buckets;
    InsertSameOrder(t.buckets[b], e, it, key);
    BucketChange(d, InsertNewest(d, e), it, second, b, key);
  }

  lemma GrowPending(d: Dict, it: Iterator, key: Key)
    requires Valid(d, it) && it.entry.Some? && d.ht0.buckets != []
    ensures var d' := ExpandIfNeeded(d).0;
      Valid(d', it) && d'.ht0 == d.ht0 && (Pending(d', it, key) <==> Pending(d, it, key)) && SameFrame(d, d')
  {
    ExpandIfNeededKeeps(d);
    var n := NextPower(d.ht0.used * 2);
    if ExpandIfNeeded(d).0 != d {
      assert ExpandIfNeeded(d).0 == Growing(d, n);
      NewTablePending(d, it, n, key);
    }
  }

  function Growing(d: Dict, n: nat): Dict {
    d.(ht1 := Table(seq(n, _ => []), 0), rehashidx := 0)
  }

  // A new second table takes nothing from the iterator and brings it nothing.
  lemma NewTablePending(d: Dict, it: Iterator, n: nat, key: Key)
    requires Positioned(d, it) && !IsRehashing(d) && d.ht1 == NO_TABLE
    ensures Positioned(Growing(d, n), it) && (Pending(Growing(d, n), it, key) <==> Pending(d, it, key))
  {
    assert Locate(d.hash, Growing(d, n).ht1, key) == None;
  }

  // While an iterator is open the entries stay where they are but for the change asked for.
  lemma AddPending(d: Dict, it: Iterator, k: Key, val: Val, key: Key)
    requires Valid(d, it) && it.entry.Some? && d.iterators > 0 && d.ht0.buckets != [] && Lookup(d, key).Some?
    ensures var d' := AddRaw(d, k, val).0;
      Valid(d', it) && SameFrame(d, d') && d'.ht0.buckets != [] && (Pending(d', it, key) <==> Pending(d, it, key))
  {
    GrowPending(d, it, key);
    var (d2, ok) := ExpandIfNeeded(d);
    ExpandIfNeededKeeps(d);
    LookupIs(d, key);
    LookupIs(d2, key);
    if ok && Lookup(d2, k) == None {
      InsertPending(d2, it, Entry(k, val), key);
      InsertSize(d2, Entry(k, val));
    }
  }

  lemma SetPending(d: Dict, it: Iterator, k: Key, val: Val, key: Key)
    requires Valid(d, it) && it.entry.Some? && Lookup(d, k).Some?
    ensures var d' := SetValue(d, k, val);
      Valid(d', it) && SameFrame(d, d') && |d'.ht0.buckets| == |d.ht0.buckets| &&
        (Pending(d', it, key) <==> Pending(d, it, key))
  {
    SetValueKeeps(d, k, val);
    var second, b, i := SetChanges(d, k, val);
    SetSameOrder(TableOf(d, second).buckets[b], i, val, it, key);
    BucketChange(d, SetValue(d, k, val), it, second, b, key);
  }

  // What a new value changes: one entry of the key's chain.
  lemma SetChanges(d: Dict, k: Key, val: Val) returns (second: bool, b: nat, i: nat)
    requires Inv(d) && Lookup(d, k).Some?
    ensures var (t, d') := (TableOf(d, second), SetValue(d, k, val));
      && TableChanged(d, d', second, b) && |d'.ht0.buckets| == |d.ht0.buckets| && SameFrame(d, d')
      && i < |t.buckets[b]| && TableOf(d', second).buckets[b] == t.buckets[b][i := t.buckets[b][i].(val := val)]
  {
    HolderHolds(d, k);
    second := Locate(d.hash, d.ht0, k).None?;
    var p := Locate(d.hash, TableOf(d, second), k).value;
    b, i := p.0, p.1;
  }

  lemma RemovePending(d: Dict, it: Iterator, k: Key, key: Key)
    requires Valid(d, it) && it.entry.Some? && it.nextEntry != Some(k) && key != k && Lookup(d, k).Some?
    ensures var d' := Remove(d, k).0;
      Positioned(d', it) && |d'.ht0.buckets| == |d.ht0.buckets| && (Pending(d', it, key) <==> Pending(d, it, key))
  {
    var second, b, i := RemoveChanges(d, k);
    WithoutSameOrder(TableOf(d, second).buckets[b], i, it, key);
    BucketChange(d, Remove(d, k).0, it, second, b, key);
  }

  // What a removal changes: the key's chain loses its entry.
  lemma RemoveChanges(d: Dict, k: Key) returns (second: bool, b: nat, i: nat)
    requires Inv(d) && Lookup(d, k).Some?
    ensures var (t, d') := (TableOf(d, second), Remove(d, k).0);
      && TableChanged(d, d', second, b) && |d'.ht0.buckets| == |d.ht0.buckets|
      && i < |t.buckets[b]| && t.buckets[b][i].key == k && Distinct(t.buckets[b])
      && TableOf(d', second).buckets[b] == Without(t.buckets[b], i)
  {
    HolderHolds(d, k);
    second := Locate(d.hash, d.ht0, k).None?;
    var p := Locate(d.hash, TableOf(d, second), k).value;
    b, i := p.0, p.1;
  }

  lemma DeletePending(d: Dict, it: Iterator, k: Key, key: Key)
    requires Valid(d, it) && d.iterators > 0 && it.entry == Some(k) && key != k
    ensures var d' := Delete(d, k).0;
      Valid(d', it) && SameFrame(d, d') && |d'.ht0.buckets| == |d.ht0.buckets| &&
        (Pending(d', it, key) <==> Pending(d, it, key))
  {
    if !(d.ht0.used == 0 && d.ht1.used == 0) && Lookup(d, k).Some? {
      RemoveKeeps(d, k);
      RemovePending(d, it, k, key);
    }
  }

  // ---------------------------------------------------------------------------
  // Whole iterations

  lemma LookupContents(d: Dict, key: Key)
    requires Inv(d)
    ensures Lookup(d, key).Some? <==> key in Contents(d)
  {
    LookupReads(d, key);
  }

  lemma HasBuckets(d: Dict, key: Key)
    requires Inv(d) && Lookup(d, key).Some?
    ensures d.ht0.buckets != []
  {}

  /** An allowed operation keeps the iterator in step, and pending what was pending. */
  lemma OpPending(d: Dict, it: Iterator, op: Op, key: Key)
    requires Valid(d, it) && it.entry.Some? && d.iterators > 0 && Allowed(it, op)
    requires key in Contents(d) && op != Del(key)
    ensures var d' := Apply(d, op);
      Valid(d', it) && d'.iterators == d.iterators && (Pending(d', it, key) <==> Pending(d, it, key))
  {
    LookupContents(d, key);
    HasBuckets(d, key);
    match op
    case Add(k, val) => AddPending(d, it, k, val, key);
    case Set(k, val) =>
      AddPending(d, it, k, val, key);
      var (d1, r) := AddRaw(d, k, val);
      if r.Existing? {
        LookupContents(d1, k);
        ReplaceRefines(d, k, val);
        AddRefines(d, k, val);
        SetPending(d1, it, k, val, key);
      }
    case Get(k) =>
    case Del(k) => DeletePending(d, it, k, key);
  }

  // A call's result, and what the caller does after it.
  datatype Call = Call(out: Option<Entry>, after: seq<Op>)

  /** A safe iteration from state d: calls until one returns nothing, allowed operations between them. */
  ghost predicate IsIteration(d: Dict, it: Iterator, calls: seq<Call>)
    requires it.index >= -1
    decreases |calls|
  {
    var (d', it', r) := Next(d, it);
    && calls != [] && calls[0].out == r
    && if r == None then |calls| == 1 else
         && (forall op :: op in calls[0].after ==> Allowed(it', op))
         && IsIteration(Run(d', calls[0].after), it', calls[1..])
  }

  ghost predicate NeverDeleted(calls: seq<Call>, key: Key) {
    forall i, op :: 0 <= i < |calls| && op in calls[i].after ==> op != Del(key)
  }

  // From d to d' the iterator stays in step, and the key in the table, and pending if it was.
  ghost predicate Kept(d: Dict, d': Dict, it: Iterator, key: Key) {
    && Valid(d', it) && d'.iterators == d.iterators && key in Contents(d')
    && (Pending(d', it, key) <==> Pending(d, it, key))
  }

  lemma RunPending(d: Dict, it: Iterator, ops: seq<Op>, key: Key)
    requires Valid(d, it) && it.entry.Some? && d.iterators > 0 && key in Contents(d)
    requires forall op :: op in ops ==> Allowed(it, op) && op != Del(key)
    ensures Kept(d, Run(d, ops), it, key)
  {
    var p := (d': Dict) => Kept(d, d', it, key);
    forall d', op | op in ops && p(d') ensures p(Apply(d', op)) {
      OpKeeps(d', it, op, key);
      KeptTwice(d, d', Apply(d', op), it, key);
    }
    RunInduction(d, ops, p);
  }

  lemma KeptTwice(d: Dict, d1: Dict, d2: Dict, it: Iterator, key: Key)
    requires Kept(d, d1, it, key) && Kept(d1, d2, it, key)
    ensures Kept(d, d2, it, key)
  {}

  lemma OpKeeps(d: Dict, it: Iterator, op: Op, key: Key)
    requires Valid(d, it) && it.entry.Some? && d.iterators > 0 && Allowed(it, op)
    requires key in Contents(d) && op != Del(key)
    ensures Kept(d, Apply(d, op), it, key)
  {
    OpPending(d, it, op, key);
    StillThere(d, op, key);
  }

  // Only its deletion, or emptying the table, takes a key away.
  lemma StillThere(d: Dict, op: Op, key: Key)
    requires Inv(d) && key in Contents(d) && op != Del(key) && !op.Clear?
    ensures Inv(Apply(d, op)) && key in Contents(Apply(d, op))
  {
    ApplyKeeps(d, op);
    match op
    case Add(k, val) => AddRefines(d, k, val);
    case Set(k, val) => ReplaceRefines(d, k, val);
    case Del(k) => DeleteRefines(d, k);
    case Get(k) => FindRefines(d, k);
    case Grow(size) => ExpandKeeps(d, size);
    case Shrink => ResizeKeeps(d);
    case Migrate(n) => RehashKeeps(d, n);
    case _ =>
  }

  // One call and what the caller does after it.
  lemma CallPending(d: Dict, it: Iterator, ops: seq<Op>, key: Key)
    requires Valid(d, it) && (it == FRESH || (it.entry.Some? && d.iterators > 0)) && key in Contents(d)
    requires Next(d, it).2.Some?
    requires forall op :: op in ops ==> Allowed(Next(d, it).1, op) && op != Del(key)
    ensures var (d', it', r) := Next(d, it);
      var d2 := Run(d', ops);
      && Valid(d2, it') && it'.entry.Some? && d2.iterators > 0 && key in Contents(d2)
      && (if key == r.value.key then Pending(d, it, key) && !Pending(d2, it', key)
          else Pending(d, it, key) <==> Pending(d2, it', key))
  {
    NextReturns(d, it, key);
    NextIs(d, it);
    var (d', it', r) := Next(d, it);
    RunPending(d', it', ops, key);
  }

  predicate Returns(c: Call, key: Key) {
    c.out.Some? && c.out.value.key == key
  }

  ghost function TimesReturned(calls: seq<Call>, key: Key): nat {
    if calls == [] then 0 else (if Returns(calls[0], key) then 1 else 0) + TimesReturned(calls[1..], key)
  }

  // Call i, and no other, returned the key.
  ghost predicate ReturnedOnlyBy(calls: seq<Call>, key: Key, i: nat) {
    i < |calls| && forall j :: 0 <= j < |calls| ==> (Returns(calls[j], key) <==> j == i)
  }

  lemma {:induction false} ReturnedNever(calls: seq<Call>, key: Key)
    requires TimesReturned(calls, key) == 0
    ensures forall j :: 0 <= j < |calls| ==> !Returns(calls[j], key)
  {
    if calls != [] {
      ReturnedNever(calls[1..], key);
      assert calls == [calls[0]] + calls[1..];
    }
  }

  lemma {:induction false} TimesIsOnce(calls: seq<Call>, key: Key) returns (i: nat)
    requires TimesReturned(calls, key) == 1
    ensures ReturnedOnlyBy(calls, key, i)
  {
    var rest := calls[1..];
    assert forall j :: 0 < j < |calls| ==> calls[j] == rest[j - 1];
    if Returns(calls[0], key) {
      ReturnedNever(rest, key);
      i := 0;
    } else {
      i := TimesIsOnce(rest, key);
      i := i + 1;
    }
  }

  lemma NothingLeft(d: Dict, it: Iterator, key: Key)
    requires Valid(d, it) && (it == FRESH || it.entry.Some?) && Next(d, it).2 == None
    ensures !Pending(d, it, key)
  {
    NextReturns(d, it, key);
  }

  /** From any point of an iteration on, a key is returned once if it is pending and else not at all. */
  lemma {:induction false} IterationReturns(d: Dict, it: Iterator, calls: seq<Call>, key: Key)
    requires Valid(d, it) && (it == FRESH || (it.entry.Some? && d.iterators > 0)) && key in Contents(d)
    requires IsIteration(d, it, calls) && NeverDeleted(calls, key)
    ensures TimesReturned(calls, key) == if Pending(d, it, key) then 1 else 0
    decreases |calls|
  {
    var (d', it', r) := Next(d, it);
    if r == None {
      NothingLeft(d, it, key);
      assert TimesReturned(calls[1..], key) == 0;
    } else {
      NeverAfter(calls, key);
      CallPending(d, it, calls[0].after, key);
      IterationReturns(Run(d', calls[0].after), it', calls[1..], key);
    }
  }

  lemma NeverAfter(calls: seq<Call>, key: Key)
    requires calls != [] && NeverDeleted(calls, key)
    ensures NeverDeleted(calls[1..], key) && forall op :: op in calls[0].after ==> op != Del(key)
  {
    assert calls == [calls[0]] + calls[1..];
  }

  /** Each key in the table at the first call and not deleted since is returned exactly once. */
  lemma IterationComplete(d: Dict, calls: seq<Call>, key: Key)
    requires Inv(d) && IsIteration(d, FRESH, calls)
    requires key in Contents(d) && NeverDeleted(calls, key)
    ensures exists i: nat :: ReturnedOnlyBy(calls, key, i)
  {
    LookupContents(d, key);
    PlaceOfIs(d, key);
    IterationReturns(d, FRESH, calls, key);
    var i := TimesIsOnce(calls, key);
  }
}
