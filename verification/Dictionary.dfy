/** The table as src/core/sis_dict.c keeps it, changed in place. A bucket array holds the chains; each
    method is proved to make exactly the change of state DictState gives for it. */
module Dictionary {
  import opened Bits
  import opened DictRefinement
  import opened DictState
  import opened Options
  import Scans = DictScan
  import Iteration = DictIteration

  // _dictNextPower
  method PowerOfTwoFor(size: int) returns (i: nat)
    ensures i == NextPower(size)
  {
    if size >= SIZE_CAP - 1 {
      return SIZE_CAP;
    }
    i := INITIAL_SIZE;
    while i < size
      invariant i > 0 && PowerFrom(i, size) == PowerFrom(INITIAL_SIZE, size)
      decreases size - i
    {
      i := i * 2;
    }
  }

  // What the rehash loop rests on.
  ghost predicate Movable(d: Dict) {
    && d.ht0.used == Total(d.ht0.buckets)
    && 0 <= d.rehashidx <= |d.ht0.buckets|
    && IsSize(|d.ht1.buckets|)
    && forall b :: 0 <= b < d.rehashidx ==> d.ht0.buckets[b] == []
  }

  // One bucket move of MoveBuckets, in a state with entries left in the first table.
  function MoveRound(d: Dict, visits: nat): (Dict, nat)
    requires Movable(d) && d.ht0.used != 0 && visits > 0
  {
    RoundStays(d, visits);
    var (i, left) := SkipEmpty(d.ht0.buckets, d.rehashidx, visits);
    if left == 0 then (d.(rehashidx := i), 0) else (MoveBucket(d.(rehashidx := i)), left)
  }

  lemma RoundStays(d: Dict, visits: nat)
    requires Movable(d) && d.ht0.used != 0 && visits > 0
    ensures SkipEmpty(d.ht0.buckets, d.rehashidx, visits).0 < |d.ht0.buckets| ||
      SkipEmpty(d.ht0.buckets, d.rehashidx, visits).1 == 0
  {
    SkipEmptySkips(d.ht0.buckets, d.rehashidx, visits);
    if SkipEmpty(d.ht0.buckets, d.rehashidx, visits).0 == |d.ht0.buckets| {
      TotalOfEmpty(d.ht0.buckets);
    }
  }

  lemma RoundMoves(d: Dict, n: nat, visits: nat)
    requires Movable(d) && d.ht0.used != 0 && visits > 0 && n > 0
    ensures var (d', left) := MoveRound(d, visits);
      Movable(d') && MoveBuckets(d, n, visits) == if left == 0 then (d', true) else MoveBuckets(d', n - 1, left)
  {
    RoundStays(d, visits);
    SkipEmptySkips(d.ht0.buckets, d.rehashidx, visits);
    var (i, left) := SkipEmpty(d.ht0.buckets, d.rehashidx, visits);
    if left > 0 {
      TotalUpdate(d.ht0.buckets, i, []);
      MoveChainLength(d.hash, d.ht0.buckets[i], d.ht1);
    }
  }

  lemma {:induction false} MoveChainLength(hash: Key -> Word, c: Chain, t: Table)
    ensures |MoveChain(hash, c, t).buckets| == |t.buckets|
    decreases |c|
  {
    if c != [] {
      MoveChainLength(hash, c[1..], Insert(hash, t, c[0]));
    }
  }

  // A search of the chain has come to position i without finding the key.
  ghost predicate NotBefore(chain: Chain, key: Key, i: nat) {
    i <= FindIn(chain, key)
  }

  lemma NotBeforeNext(chain: Chain, key: Key, i: nat)
    requires i < |chain| && NotBefore(chain, key, i)
    ensures chain[i].key == key <==> FindIn(chain, key) == i
    ensures chain[i].key != key ==> NotBefore(chain, key, i + 1)
  {}

  // What is left to do comes to the outcome.
  ghost predicate Leads(d: Dict, n: nat, visits: nat, outcome: (Dict, bool)) {
    d.rehashidx >= 0 && (n > 0 ==> visits > 0) && MoveBuckets(d, n, visits) == outcome
  }

  class HashTable {
    const hash: Key -> Word
    var table0: array<Chain>
    var used0: int
    var table1: array<Chain>
    var used1: int
    var rehashidx: RehashIndex
    var iterators: nat
    var canResize: bool

    ghost function State(): Dict
      reads this, table0, table1
    {
      Dict(hash, Table(table0[..], used0), Table(table1[..], used1), rehashidx, iterators, canResize)
    }

    ghost predicate Valid()
      reads this, table0, table1
    {
      Inv(State()) && table0 != table1
    }

    constructor (hash: Key -> Word)
      ensures Valid() && State() == Create(hash) && fresh(table0) && fresh(table1)
    {
      this.hash := hash;
      table0, used0 := new Chain[0], 0;
      table1, used1 := new Chain[0], 0;
      rehashidx, iterators, canResize := -1, 0, true;
    }

    method ExpandTo(size: int) returns (ok: bool)
      requires Valid()
      modifies this
      ensures Valid() && fresh({table0, table1} - old({table0, table1}))
      ensures (State(), ok) == Expand(old(State()), size)
    {
      ExpandKeeps(State(), size);
      if rehashidx != -1 || used0 > size {
        return false;
      }
      var realsize := PowerOfTwoFor(size);
      if realsize == table0.Length {
        return false;
      }
      var table := new Chain[realsize](_ => []);
      assert table[..] == seq(realsize, _ => []);
      if table0.Length == 0 {
        table0, used0 := table, 0;
      } else {
        table1, used1 := table, 0;
        rehashidx := 0;
      }
      return true;
    }

    method ExpandWhenFull() returns (ok: bool)
      requires Valid()
      modifies this
      ensures Valid() && fresh({table0, table1} - old({table0, table1}))
      ensures (State(), ok) == ExpandIfNeeded(old(State()))
    {
      if rehashidx != -1 {
        return true;
      }
      if table0.Length == 0 {
        ok := ExpandTo(INITIAL_SIZE);
        return;
      }
      if used0 >= table0.Length && (canResize || used0 / table0.Length > FORCE_RESIZE_RATIO) {
        ok := ExpandTo(used0 * 2);
        return;
      }
      return true;
    }

    method ResizeToFit() returns (ok: bool)
      requires Valid()
      modifies this
      ensures Valid() && fresh({table0, table1} - old({table0, table1}))
      ensures (State(), ok) == Resize(old(State()))
    {
      if !canResize || rehashidx != -1 {
        return false;
      }
      var minimal := used0;
      if minimal < INITIAL_SIZE {
        minimal := INITIAL_SIZE;
      }
      ok := ExpandTo(minimal);
    }

    // de->next = table[h]; table[h] = de; used++, in the second table
    method PushToSecond(e: Entry)
      requires IsSize(table1.Length)
      modifies this`used1, table1
      ensures Table(table1[..], used1) == Insert(hash, old(Table(table1[..], used1)), e)
    {
      SlotInRange(hash(e.key), table1.Length);
      var h := Slot(hash(e.key), table1.Length);
      table1[h] := [e] + table1[h];
      used1 := used1 + 1;
    }

    // The inner loop of dictRehash: one chain goes over to the second table, entry by entry.
    method MoveOneBucket()
      requires IsSize(table1.Length) && table0 != table1 && 0 <= rehashidx < table0.Length
      modifies this`used0, this`used1, this`rehashidx, table0, table1
      ensures State() == MoveBucket(old(State()))
    {
      var chain := table0[rehashidx];
      var i := 0;
      while i < |chain|
        invariant rehashidx == old(rehashidx) && table0 == old(table0) && table1 == old(table1)
        invariant 0 <= i <= |chain| && table0[..] == old(table0[..]) && used0 == old(used0) - i
        invariant MoveChain(hash, chain[i..], Table(table1[..], used1)) ==
          MoveChain(hash, chain, old(Table(table1[..], used1)))
      {
        PushToSecond(chain[i]);
        used0 := used0 - 1;
        assert chain[i..][0] == chain[i] && chain[i..][1..] == chain[i + 1..];
        i := i + 1;
      }
      table0[rehashidx] := [];
      rehashidx := rehashidx + 1;
      assert table0[..] == old(table0[..])[old(rehashidx) := []];
    }

    // Empty buckets are passed over while the allowance lasts.
    method PassEmpty(visits0: nat) returns (visits: nat)
      requires visits0 > 0 && 0 <= rehashidx <= table0.Length
      modifies this`rehashidx
      ensures 0 <= rehashidx && (rehashidx, visits) == SkipEmpty(table0[..], old(rehashidx), visits0)
    {
      visits := visits0;
      while rehashidx < table0.Length && table0[rehashidx] == []
        invariant visits > 0 && 0 <= rehashidx <= table0.Length
        invariant SkipEmpty(table0[..], rehashidx, visits) == SkipEmpty(table0[..], old(rehashidx), visits0)
        decreases table0.Length - rehashidx
      {
        rehashidx := rehashidx + 1;
        visits := visits - 1;
        if visits == 0 {
          return;
        }
      }
    }

    // One round of the outer loop: on to a non-empty bucket, which is moved, unless no visits are left.
    method MoveOnce(ghost n: nat, visits0: nat, ghost outcome: (Dict, bool)) returns (visits: nat)
      requires Movable(State()) && used0 != 0 && n > 0 && visits0 > 0 && table0 != table1
      requires Leads(State(), n, visits0, outcome)
      modifies this`used0, this`used1, this`rehashidx, table0, table1
      ensures rehashidx >= 0
      ensures if visits == 0 then (State(), true) == outcome
              else Movable(State()) && visits > 0 && Leads(State(), n - 1, visits, outcome)
    {
      ghost var d := State();
      RoundStays(d, visits0);
      RoundMoves(d, n, visits0);
      visits := PassEmpty(visits0);
      assert State() == d.(rehashidx := rehashidx);
      if visits == 0 {
        return;
      }
      MoveOneBucket();
    }

    // The outer loop of dictRehash; early tells that the allowance of empty visits ran out.
    method MoveLoop(n0: nat) returns (early: bool)
      requires Movable(State()) && table0 != table1
      modifies this`used0, this`used1, this`rehashidx, table0, table1
      ensures rehashidx >= 0 && (State(), early) == MoveBuckets(old(State()), n0, n0 * 10)
    {
      var n: nat, visits: nat := n0, n0 * 10;
      ghost var outcome := MoveBuckets(State(), n, visits);
      while n > 0 && used0 != 0
        invariant Movable(State()) && (n > 0 ==> visits > 0)
        invariant Leads(State(), n, visits, outcome)
        decreases n
      {
        visits := MoveOnce(n, visits, outcome);
        if visits == 0 {
          return true;
        }
        n := n - 1;
      }
      return false;
    }

    /** dictRehash: true when there is more to move. */
    method RehashBuckets(n: nat) returns (more: bool)
      requires Valid()
      modifies this, table0, table1
      ensures Valid() && fresh({table0, table1} - old({table0, table1}))
      ensures (State(), more) == Rehash(old(State()), n)
    {
      RehashKeeps(State(), n);
      if rehashidx == -1 {
        return false;
      }
      var early := MoveLoop(n);
      if early {
        return true;
      }
      if used0 == 0 {
        table0, used0 := table1, used1;
        table1, used1 := new Chain[0], 0;
        rehashidx := -1;
        return false;
      }
      return true;
    }

    method Step()
      requires Valid()
      modifies this, table0, table1
      ensures Valid() && fresh({table0, table1} - old({table0, table1}))
      ensures State() == RehashStep(old(State()))
    {
      if rehashidx != -1 && iterators == 0 {
        var more := RehashBuckets(1);
      }
    }

    // Walk the key's chain in one of the tables.
    method SearchTable(second: bool, key: Key) returns (r: Option<(nat, nat)>)
      requires Valid() && (if second then table1 else table0).Length > 0
      ensures r == Locate(hash, if second then State().ht1 else State().ht0, key)
    {
      var table := if second then table1 else table0;
      SlotInRange(hash(key), table.Length);
      var b := Slot(hash(key), table.Length);
      var chain := table[b];
      var i := 0;
      while i < |chain|
        invariant 0 <= i <= |chain| && NotBefore(chain, key, i)
      {
        NotBeforeNext(chain, key, i);
        if chain[i].key == key {
          return Some((b, i));
        }
        i := i + 1;
      }
      return None;
    }

    // The search of both tables, the first one first: table, bucket and position.
    method Search(key: Key) returns (r: Option<(bool, nat, nat)>)
      requires Valid() && table0.Length > 0
      ensures match Locate(hash, State().ht0, key)
              case Some(p) => r == Some((false, p.0, p.1))
              case None =>
                if !IsRehashing(State()) then r == None else
                  match Locate(hash, State().ht1, key)
                  case Some(p) => r == Some((true, p.0, p.1))
                  case None => r == None
    {
      var p := SearchTable(false, key);
      if p.Some? {
        return Some((false, p.value.0, p.value.1));
      }
      if rehashidx == -1 {
        return None;
      }
      p := SearchTable(true, key);
      if p.Some? {
        return Some((true, p.value.0, p.value.1));
      }
      return None;
    }

    /** dictFind */
    method FindEntry(key: Key) returns (r: Option<Entry>)
      requires Valid()
      modifies this, table0, table1
      ensures Valid() && fresh({table0, table1} - old({table0, table1}))
      ensures (State(), r) == Find(old(State()), key)
      ensures Contents(State()) == old(Contents(State()))
      ensures r.Some? <==> key in old(Contents(State()))
      ensures r.Some? ==> r.value == Entry(key, old(Contents(State()))[key])
    {
      FindRefines(State(), key);
      if used0 + used1 == 0 {
        return None;
      }
      Scans.NotEmptyHasBuckets(State());
      RehashStepKeeps(State());
      Step();
      var p := Search(key);
      if p == None {
        return None;
      }
      return Some((if p.value.0 then table1 else table0)[p.value.1][p.value.2]);
    }

    // New entries go to the front of their chain, in the newest table.
    method PushEntry(e: Entry)
      requires Valid() && table0.Length > 0
      modifies this`used0, this`used1, table0, table1
      ensures State() == InsertNewest(old(State()), e)
    {
      if rehashidx != -1 {
        PushToSecond(e);
      } else {
        SlotInRange(hash(e.key), table0.Length);
        var h := Slot(hash(e.key), table0.Length);
        table0[h] := [e] + table0[h];
        used0 := used0 + 1;
        assert Table(table0[..], used0) == Insert(hash, old(State()).ht0, e);
      }
    }

    // The step and the growth an insertion starts with.
    method MakeReady() returns (ok: bool)
      requires Valid()
      modifies this, table0, table1
      ensures Valid() && fresh({table0, table1} - old({table0, table1}))
      ensures (State(), ok) == Ready(old(State()))
    {
      RehashStepKeeps(State());
      Step();
      ok := ExpandWhenFull();
    }

    /** dictAddRaw */
    method AddEntry(key: Key, val: Val) returns (r: AddResult)
      requires Valid()
      modifies this, table0, table1
      ensures table0 != table1 && fresh({table0, table1} - old({table0, table1}))
      ensures (State(), r) == AddRaw(old(State()), key, val) && Inv(State())
    {
      ghost var d := State();
      ReadyKeeps(d);
      var ok := MakeReady();
      if !ok {
        return Refused;
      }
      var p := Search(key);
      if p.Some? {
        r := Existing((if p.value.0 then table1 else table0)[p.value.1][p.value.2]);
      } else {
        PushEntry(Entry(key, val));
        r := Added;
      }
      assert (State(), r) == AddRaw(d, key, val);
      AddKeeps(d, key, val);
    }

    /** dictReplace; NullRead is where the program comes to its end. */
    method ReplaceEntry(key: Key, val: Val) returns (r: ReplaceResult)
      requires Valid()
      modifies this, table0, table1
      ensures table0 != table1 && fresh({table0, table1} - old({table0, table1}))
      ensures (State(), r) == Replace(old(State()), key, val) && Inv(State())
    {
      ghost var d := State();
      var added := AddEntry(key, val);
      match added {
        case Added => r := New;
        case Refused => r := NullRead;
        case Existing(_) =>
          ExistingFound(d, key, val);
          SetEntry(key, val);
          r := Updated;
      }
      assert Inv(State()) by {
        ReplaceRefines(d, key, val);
      }
    }

    static lemma ExistingFound(d: Dict, key: Key, val: Val)
      requires Inv(d) && AddRaw(d, key, val).1.Existing?
      ensures Lookup(AddRaw(d, key, val).0, key).Some?
    {
      ReadyKeeps(d);
    }

    method SetEntry(key: Key, val: Val)
      requires Valid() && Lookup(State(), key).Some?
      modifies table0, table1
      ensures State() == SetValue(old(State()), key, val)
    {
      var p := Search(key);
      var (second, b, i) := p.value;
      var table := if second then table1 else table0;
      var e: Entry := table[b][i];
      table[b] := table[b][i := e.(val := val)];
      assert table[..] == old(table[..])[b := table[b]];
    }

    /** dictGenericDelete */
    method DeleteEntry(key: Key) returns (r: Option<Entry>)
      requires Valid()
      modifies this, table0, table1
      ensures Valid() && fresh({table0, table1} - old({table0, table1}))
      ensures (State(), r) == Delete(old(State()), key)
      ensures Contents(State()) == old(Contents(State())) - {key}
      ensures r.Some? <==> key in old(Contents(State()))
    {
      DeleteRefines(State(), key);
      if used0 == 0 && used1 == 0 {
        return None;
      }
      Scans.NotEmptyHasBuckets(State());
      RehashStepKeeps(State());
      Step();
      r := Unlink(key);
    }

    method RemoveFrom(second: bool, b: nat, i: nat)
      requires table0 != table1
      requires b < (if second then table1 else table0).Length && i < |(if second then table1 else table0)[b]|
      modifies this`used0, this`used1, table0, table1
      ensures State() == if second then old(State()).(ht1 := RemoveAt(old(State().ht1), b, i))
                         else old(State()).(ht0 := RemoveAt(old(State().ht0), b, i))
    {
      if second {
        table1[b] := table1[b][..i] + table1[b][i + 1..];
        used1 := used1 - 1;
        assert State().ht1 == RemoveAt(old(State().ht1), b, i);
      } else {
        table0[b] := table0[b][..i] + table0[b][i + 1..];
        used0 := used0 - 1;
        assert State().ht0 == RemoveAt(old(State().ht0), b, i);
      }
    }

    method Unlink(key: Key) returns (r: Option<Entry>)
      requires Valid() && table0.Length > 0
      modifies this`used0, this`used1, table0, table1
      ensures (State(), r) == Remove(old(State()), key)
    {
      var p := Search(key);
      if p == None {
        return None;
      }
      var (second, b, i) := p.value;
      r := Some((if second then table1 else table0)[b][i]);
      RemoveFrom(second, b, i);
    }

    // v |= ~mask; v = rev(v); v++; v = rev(v)
    static method AdvanceCursor(v0: Word, size: nat) returns (v: Word)
      requires size > 0
      ensures v == Scans.Advance(v0, size)
    {
      v := Or(v0, Not(Digits(size - 1, WORD_BITS)));
      v := Rev(v);
      v := Increment(v);
      v := Rev(v);
    }

    // The do-while loop over the larger table.
    static method ScanLargerTable(large: array<Chain>, v0: Word, size0: nat) returns (out: seq<Entry>, v: Word)
      requires IsSize(large.Length) && size0 > 0
      ensures (out, v) == Scans.ScanLarger(Table(large[..], 0), v0, size0)
    {
      ghost var t := Table(large[..], 0);
      out, v := [], v0;
      var going := true;
      while going
        invariant going ==> Scans.ScanLarger(t, v0, size0).0 == out + Scans.ScanLarger(t, v, size0).0
        invariant going ==> Scans.ScanLarger(t, v0, size0).1 == Scans.ScanLarger(t, v, size0).1
        invariant !going ==> Scans.ScanLarger(t, v0, size0) == (out, v)
        decreases going, Pow2(WORD_BITS) - Position(v)
      {
        SlotInRange(v, large.Length);
        Scans.AdvanceMoves(v, large.Length);
        var bucket := large[Slot(v, large.Length)];
        ghost var rest := Scans.ScanLarger(t, v, size0).0;
        v := AdvanceCursor(v, large.Length);
        going := Scans.Between(v, size0, large.Length) != Scans.START;
        assert rest == if going then bucket + Scans.ScanLarger(t, v, size0).0 else bucket;
        assert going ==> out + rest == out + bucket + Scans.ScanLarger(t, v, size0).0;
        out := out + bucket;
      }
    }

    /** dictScan */
    method ScanStep(v0: Word) returns (out: seq<Entry>, v: Word)
      requires Valid()
      ensures (out, v) == Scans.Scan(State(), v0)
    {
      if used0 + used1 == 0 {
        return [], Scans.START;
      }
      Scans.NotEmptyHasBuckets(State());
      SlotInRange(v0, table0.Length);
      if rehashidx == -1 {
        out := table0[Slot(v0, table0.Length)];
        v := AdvanceCursor(v0, table0.Length);
        return;
      }
      var small, large := table0, table1;
      if table0.Length > table1.Length {
        small, large := table1, table0;
      }
      SlotInRange(v0, small.Length);
      out, v := ScanLargerTable(large, v0, small.Length);
      SameBuckets(Table(large[..], 0), Scans.Larger(State()), v0, small.Length);
      out := small[Slot(v0, small.Length)] + out;
    }

    // The scan looks at the buckets of a table only.
    static lemma {:induction false} SameBuckets(t: Table, t': Table, v: Word, size0: nat)
      requires t.buckets == t'.buckets && IsSize(|t.buckets|) && size0 > 0
      ensures Scans.ScanLarger(t, v, size0) == Scans.ScanLarger(t', v, size0)
      decreases Pow2(WORD_BITS) - Position(v)
    {
      var v' := Scans.Advance(v, |t.buckets|);
      if Scans.Between(v', size0, |t.buckets|) != Scans.START {
        Scans.AdvanceMoves(v, |t.buckets|);
        SameBuckets(t, t', v', size0);
      }
    }
  }

  /** A safe iterator. */
  class SafeIterator {
    const table: HashTable
    var second: bool
    var index: int
    var entry: Option<Key>
    var nextEntry: Option<Key>

    ghost function Cursor(): Iteration.Iterator
      reads this
    {
      Iteration.Iterator(second, index, entry, nextEntry)
    }

    constructor (table: HashTable)
      ensures this.table == table && Cursor() == Iteration.FRESH
    {
      this.table := table;
      second, index, entry, nextEntry := false, -1, None, None;
    }

    // The loop of dictNext over the buckets: it stops at a non-empty one, or past the last table.
    method SeekBucket() returns (found: bool)
      requires index >= -1 && (second ==> table.rehashidx != -1) && (table.rehashidx != -1 ==> table.table1.Length > 0)
      modifies this`second, this`index
      ensures match Iteration.NextBucket(table.State(), old(second), old(index))
              case Some(p) => found && (second, index) == p
              case None =>
                && !found && second == IsRehashing(table.State())
                && index == |Iteration.TableOf(table.State(), second).buckets|
    {
      ghost var d := table.State();
      while true
        invariant index >= -1 && (second ==> table.rehashidx != -1)
        invariant Iteration.NextBucket(d, second, index) == Iteration.NextBucket(d, old(second), old(index))
        decreases !second, |Iteration.TableOf(d, second).buckets| - index
      {
        index := index + 1;
        if index >= (if second then table.table1 else table.table0).Length {
          if table.rehashidx == -1 || second {
            index := (if second then table.table1 else table.table0).Length;
            return false;
          }
          second, index := true, 0;
        }
        if (if second then table.table1 else table.table0)[index] != [] {
          return true;
        }
      }
    }

    // On to the first entry of the next non-empty bucket.
    method NextInBuckets() returns (r: Option<Entry>)
      requires index >= -1 && (second ==> table.rehashidx != -1) && (table.rehashidx != -1 ==> table.table1.Length > 0)
      modifies this
      ensures match Iteration.NextBucket(table.State(), old(second), old(index))
              case Some(p) =>
                var c := Iteration.TableOf(table.State(), p.0).buckets[p.1];
                r == Some(c[0]) && Cursor() == Iteration.Iterator(p.0, p.1, Some(c[0].key), Iteration.KeyAfter(c, 0))
              case None =>
                && r == None && second == IsRehashing(table.State()) && entry == None && nextEntry == None
                && index == |Iteration.TableOf(table.State(), second).buckets|
    {
      entry, nextEntry := None, None;
      var found := SeekBucket();
      if !found {
        return None;
      }
      var chain := (if second then table.table1 else table.table0)[index];
      entry, nextEntry := Some(chain[0].key), Iteration.KeyAfter(chain, 0);
      return Some(chain[0]);
    }

    // On to the next entry of the chain.
    method NextInChain() returns (r: Option<Entry>)
      requires nextEntry.Some? && 0 <= index < |Iteration.TableOf(table.State(), second).buckets|
      requires var c := Iteration.TableOf(table.State(), second).buckets[index]; FindIn(c, nextEntry.value) < |c|
      modifies this`entry, this`nextEntry
      ensures var c := Iteration.TableOf(table.State(), second).buckets[index];
        var i := FindIn(c, old(nextEntry.value));
        r == Some(c[i]) && entry == Some(c[i].key) && nextEntry == Iteration.KeyAfter(c, i)
    {
      var chain := (if second then table.table1 else table.table0)[index];
      var i := PositionOf(chain, nextEntry.value);
      entry, nextEntry := nextEntry, Iteration.KeyAfter(chain, i);
      return Some(chain[i]);
    }

    /** dictNext */
    method Next() returns (r: Option<Entry>)
      requires Iteration.Positioned(table.State(), Cursor()) && (table.rehashidx != -1 ==> table.table1.Length > 0)
      modifies this, table`iterators
      ensures (table.State(), Cursor(), r) == Iteration.Next(old(table.State()), old(Cursor()))
    {
      if entry.Some? && nextEntry.Some? {
        r := NextInChain();
        return;
      }
      if entry == None && index == -1 && !second {
        table.iterators := table.iterators + 1;
      }
      SameBuckets(old(table.State()), table.State(), second, index);
      r := NextInBuckets();
    }

    // Counting the iterator does not move the buckets.
    static lemma {:induction false} SameBuckets(d: Dict, d': Dict, second: bool, index: int)
      requires d' == d.(iterators := d'.iterators) && index >= -1
      ensures Iteration.NextBucket(d', second, index) == Iteration.NextBucket(d, second, index)
      decreases !second, |Iteration.TableOf(d, second).buckets| - index
    {
      var i := index + 1;
      if i < |Iteration.TableOf(d, second).buckets| {
        if Iteration.TableOf(d, second).buckets[i] == [] {
          SameBuckets(d, d', second, i);
        }
      } else if IsRehashing(d) && !second {
        SameBuckets(d, d', true, -1);
      }
    }

    static method PositionOf(chain: Chain, key: Key) returns (i: nat)
      requires FindIn(chain, key) < |chain|
      ensures i == FindIn(chain, key)
    {
      i := 0;
      while chain[i].key != key
        invariant i < |chain| && NotBefore(chain, key, i)
        decreases |chain| - i
      {
        NotBeforeNext(chain, key, i);
        i := i + 1;
      }
    }
  }
}
