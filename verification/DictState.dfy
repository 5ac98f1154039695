/** The state of the incrementally rehashed table and what each operation of src/core/sis_dict.c
    does to it, as functions of the state. Class Dictionary carries the operations out in place. */
module DictState {
  import opened Bits
  import opened Options

  // Keys up to the table's key comparison, and values, are any types at all.
  type Key(==, !new)
  type Val(==, !new)

  const INITIAL_SIZE := 4
  const SIZE_CAP := Pow2(63)
  const FORCE_RESIZE_RATIO := 5

  datatype Entry = Entry(key: Key, val: Val)

  // A bucket's chain, the entry the bucket points to first.
  type Chain = seq<Entry>

  datatype Table = Table(buckets: seq<Chain>, used: int)

  const NO_TABLE := Table([], 0)

  // -1 when no rehashing is in progress
  type RehashIndex = i: int | i >= -1 witness -1

  datatype Dict =
    Dict(hash: Key -> Word, ht0: Table, ht1: Table, rehashidx: RehashIndex, iterators: nat, canResize: bool)

  function Create(hash: Key -> Word): Dict {
    Dict(hash, NO_TABLE, NO_TABLE, -1, 0, true)
  }

  predicate IsRehashing(d: Dict) { d.rehashidx != -1 }

  function Size(d: Dict): int { d.ht0.used + d.ht1.used }

  /** hash & sizemask, as a bucket index. */
  function Slot(h: Word, size: nat): nat
    requires size > 0
  {
    Value(And(h, Digits(size - 1, WORD_BITS)))
  }

  // ---------------------------------------------------------------------------
  // Chains

  // Where a chain search for the key stops: the first entry with it, or the end.
  function FindIn(c: Chain, key: Key): (i: nat)
    ensures i <= |c|
    ensures forall j :: 0 <= j < i ==> c[j].key != key
    ensures i < |c| ==> c[i].key == key
  {
    if c == [] || c[0].key == key then 0 else 1 + FindIn(c[1..], key)
  }

  function Without(c: Chain, i: nat): Chain
    requires i < |c|
  {
    c[..i] + c[i + 1..]
  }

  // Place of the key in a table: its bucket and its position in the chain there.
  function Locate(hash: Key -> Word, t: Table, key: Key): (r: Option<(nat, nat)>)
    ensures r.Some? ==> r.value.0 < |t.buckets| && r.value.1 < |t.buckets[r.value.0]|
    ensures r.Some? ==> t.buckets[r.value.0][r.value.1].key == key
  {
    if |t.buckets| == 0 then None else
      var b := Slot(hash(key), |t.buckets|);
      if b < |t.buckets| && FindIn(t.buckets[b], key) < |t.buckets[b]| then Some((b, FindIn(t.buckets[b], key)))
        else None
  }

  // Prepend an entry to its chain.
  function Insert(hash: Key -> Word, t: Table, e: Entry): Table {
    if |t.buckets| == 0 then t else
      var b := Slot(hash(e.key), |t.buckets|);
      if b < |t.buckets| then Table(t.buckets[b := [e] + t.buckets[b]], t.used + 1) else t
  }

  function RemoveAt(t: Table, b: nat, i: nat): Table
    requires b < |t.buckets| && i < |t.buckets[b]|
  {
    Table(t.buckets[b := Without(t.buckets[b], i)], t.used - 1)
  }

  function SetValueAt(t: Table, b: nat, i: nat, val: Val): Table
    requires b < |t.buckets| && i < |t.buckets[b]|
  {
    Table(t.buckets[b := t.buckets[b][i := t.buckets[b][i].(val := val)]], t.used)
  }

  // ---------------------------------------------------------------------------
  // Growing and shrinking

  // The smallest power of two from i on that is at least size, capped.
  function PowerFrom(i: nat, size: int): (r: nat)
    requires i > 0
    decreases size - i
  {
    if i >= size then i else PowerFrom(2 * i, size)
  }

  function NextPower(size: int): nat {
    if size >= SIZE_CAP - 1 then SIZE_CAP else PowerFrom(INITIAL_SIZE, size)
  }

  function Expand(d: Dict, size: int): (r: (Dict, bool)) {
    if IsRehashing(d) || d.ht0.used > size then (d, false) else
      var realsize := NextPower(size);
      if realsize == |d.ht0.buckets| then (d, false) else
        var n := Table(seq(realsize, _ => []), 0);
        if d.ht0.buckets == [] then (d.(ht0 := n), true) else (d.(ht1 := n, rehashidx := 0), true)
  }

  function Resize(d: Dict): (Dict, bool) {
    if !d.canResize || IsRehashing(d) then (d, false) else
      Expand(d, if d.ht0.used < INITIAL_SIZE then INITIAL_SIZE else d.ht0.used)
  }

  function ExpandIfNeeded(d: Dict): (Dict, bool) {
    if IsRehashing(d) then (d, true)
    else if |d.ht0.buckets| == 0 then Expand(d, INITIAL_SIZE)
    else if d.ht0.used >= |d.ht0.buckets| && (d.canResize || d.ht0.used / |d.ht0.buckets| > FORCE_RESIZE_RATIO) then
      Expand(d, d.ht0.used * 2)
    else (d, true)
  }

  // ---------------------------------------------------------------------------
  // Incremental rehashing

  // Move the entries of a chain, first to last, to the front of their new chains.
  function MoveChain(hash: Key -> Word, c: Chain, t: Table): Table
    decreases |c|
  {
    if c == [] then t else MoveChain(hash, c[1..], Insert(hash, t, c[0]))
  }

  // The next non-empty bucket from i, or where the allowance of empty visits ends (allowance 0 left).
  function SkipEmpty(buckets: seq<Chain>, i: nat, visits: nat): (r: (nat, nat))
    requires visits > 0
    ensures r.0 >= i
    decreases |buckets| - i
  {
    if i >= |buckets| || buckets[i] != [] then (i, visits)
    else if visits == 1 then (i + 1, 0)
    else SkipEmpty(buckets, i + 1, visits - 1)
  }

  // Empty the bucket at rehashidx and step past it.
  function MoveBucket(d: Dict): Dict
    requires 0 <= d.rehashidx < |d.ht0.buckets|
  {
    var c := d.ht0.buckets[d.rehashidx];
    d.(ht0 := Table(d.ht0.buckets[d.rehashidx := []], d.ht0.used - |c|),
       ht1 := MoveChain(d.hash, c, d.ht1),
       rehashidx := d.rehashidx + 1)
  }

  // n bucket moves; the flag says that the allowance of empty visits ran out first.
  function MoveBuckets(d: Dict, n: nat, visits: nat): (Dict, bool)
    requires d.rehashidx >= 0 && (n > 0 ==> visits > 0)
    decreases n
  {
    if n == 0 || d.ht0.used == 0 then (d, false) else
      var (i, left) := SkipEmpty(d.ht0.buckets, d.rehashidx, visits);
      var d1 := d.(rehashidx := i);
      if left == 0 then (d1, true)
      else if i >= |d.ht0.buckets| then (d1, false)
      else MoveBuckets(MoveBucket(d1), n - 1, left)
  }

  function Rehash(d: Dict, n: nat): (Dict, bool) {
    if !IsRehashing(d) then (d, false) else
      var (d1, early) := MoveBuckets(d, n, n * 10);
      if early then (d1, true)
      else if d1.ht0.used == 0 then (d1.(ht0 := d1.ht1, ht1 := NO_TABLE, rehashidx := -1), false)
      else (d1, true)
  }

  function RehashStep(d: Dict): Dict {
    if IsRehashing(d) && d.iterators == 0 then Rehash(d, 1).0 else d
  }

  // ---------------------------------------------------------------------------
  // Find, add, replace, delete

  function Lookup(d: Dict, key: Key): Option<Entry> {
    match Locate(d.hash, d.ht0, key)
    case Some(p) => Some(d.ht0.buckets[p.0][p.1])
    case None =>
      if !IsRehashing(d) then None else
        match Locate(d.hash, d.ht1, key)
        case Some(p) => Some(d.ht1.buckets[p.0][p.1])
        case None => None
  }

  function Find(d: Dict, key: Key): (Dict, Option<Entry>) {
    if Size(d) == 0 then (d, None) else
      var d1 := RehashStep(d);
      (d1, Lookup(d1, key))
  }

  datatype AddResult = Added | Existing(entry: Entry) | Refused

  // While rehashing, new entries go to the second table.
  function InsertNewest(d: Dict, e: Entry): Dict {
    if IsRehashing(d) then d.(ht1 := Insert(d.hash, d.ht1, e)) else d.(ht0 := Insert(d.hash, d.ht0, e))
  }

  function AddRaw(d: Dict, key: Key, val: Val): (Dict, AddResult) {
    var d1 := RehashStep(d);
    var (d2, ok) := ExpandIfNeeded(d1);
    if !ok then (d2, Refused) else
      match Lookup(d2, key)
      case Some(e) => (d2, Existing(e))
      case None => (InsertNewest(d2, Entry(key, val)), Added)
  }

  function SetValue(d: Dict, key: Key, val: Val): Dict {
    match Locate(d.hash, d.ht0, key)
    case Some(p) => d.(ht0 := SetValueAt(d.ht0, p.0, p.1, val))
    case None =>
      match Locate(d.hash, d.ht1, key)
      case Some(p) => d.(ht1 := SetValueAt(d.ht1, p.0, p.1, val))
      case None => d
  }

  // NullRead: the add is refused without an entry, and the old value is read through a null pointer.
  datatype ReplaceResult = New | Updated | NullRead

  function Replace(d: Dict, key: Key, val: Val): (Dict, ReplaceResult) {
    var (d1, r) := AddRaw(d, key, val);
    if r.Existing? then (SetValue(d1, key, val), Updated) else (d1, if r.Added? then New else NullRead)
  }

  function Remove(d: Dict, key: Key): (Dict, Option<Entry>) {
    match Locate(d.hash, d.ht0, key)
    case Some(p) => (d.(ht0 := RemoveAt(d.ht0, p.0, p.1)), Some(d.ht0.buckets[p.0][p.1]))
    case None =>
      if !IsRehashing(d) then (d, None) else
        match Locate(d.hash, d.ht1, key)
        case Some(p) => (d.(ht1 := RemoveAt(d.ht1, p.0, p.1)), Some(d.ht1.buckets[p.0][p.1]))
        case None => (d, None)
  }

  function Delete(d: Dict, key: Key): (Dict, Option<Entry>) {
    if d.ht0.used == 0 && d.ht1.used == 0 then (d, None) else Remove(RehashStep(d), key)
  }

  function Empty(d: Dict): Dict {
    d.(ht0 := NO_TABLE, ht1 := NO_TABLE, rehashidx := -1, iterators := 0)
  }
}
