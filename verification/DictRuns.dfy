/** Whole runs of the table: every run acts as the same run on a finite map, and with automatic
    growth alone the entries never outnumber the newest table's buckets. */
module DictRuns {
  import opened Bits
  import opened DictRefinement
  import opened DictState
  import opened Options

  datatype Op =
    | Add(key: Key, val: Val)
    | Set(key: Key, val: Val)
    | Del(key: Key)
    | Get(key: Key)
    | Grow(size: int)
    | Shrink
    | Migrate(n: nat)
    | Clear
    | AllowResize(on: bool)
    | OpenIterator
    | CloseIterator

  function Apply(d: Dict, op: Op): Dict {
    match op
    case Add(key, val) => AddRaw(d, key, val).0
    case Set(key, val) => Replace(d, key, val).0
    case Del(key) => Delete(d, key).0
    case Get(key) => Find(d, key).0
    case Grow(size) => Expand(d, size).0
    case Shrink => Resize(d).0
    case Migrate(n) => Rehash(d, n).0
    case Clear => Empty(d)
    case AllowResize(on) => d.(canResize := on)
    case OpenIterator => d.(iterators := d.iterators + 1)
    case CloseIterator => if d.iterators > 0 then d.(iterators := d.iterators - 1) else d
  }

  function Run(d: Dict, ops: seq<Op>): Dict
    decreases |ops|
  {
    if ops == [] then d else Run(Apply(d, ops[0]), ops[1..])
  }

  // The same operation on the finite map.
  ghost function ApplyToMap(m: map<Key, Val>, op: Op): map<Key, Val> {
    match op
    case Add(key, val) => if key in m then m else m[key := val]
    case Set(key, val) => m[key := val]
    case Del(key) => m - {key}
    case Clear => map[]
    case _ => m
  }

  ghost function RunOnMap(m: map<Key, Val>, ops: seq<Op>): map<Key, Val>
    decreases |ops|
  {
    if ops == [] then m else RunOnMap(ApplyToMap(m, ops[0]), ops[1..])
  }

  lemma EmptyKeeps(d: Dict)
    ensures Inv(Empty(d)) && Contents(Empty(d)) == map[]
  {}

  lemma FindKeeps(d: Dict, key: Key)
    requires Inv(d)
    ensures Inv(Find(d, key).0) && Find(d, key).0.hash == d.hash
  {
    RehashStepKeeps(d);
  }

  lemma AddKeepsHash(d: Dict, key: Key, val: Val)
    requires Inv(d)
    ensures Inv(AddRaw(d, key, val).0) && AddRaw(d, key, val).0.hash == d.hash
  {
    AddKeeps(d, key, val);
    ReadyKeeps(d);
  }

  lemma ReplaceKeepsHash(d: Dict, key: Key, val: Val)
    requires Inv(d)
    ensures Inv(Replace(d, key, val).0) && Replace(d, key, val).0.hash == d.hash
  {
    ReplaceRefines(d, key, val);
    AddKeepsHash(d, key, val);
  }

  lemma DeleteKeepsHash(d: Dict, key: Key)
    requires Inv(d)
    ensures Inv(Delete(d, key).0) && Delete(d, key).0.hash == d.hash
  {
    DeleteKeeps(d, key);
    RehashStepKeeps(d);
  }

  lemma ResizeKeeps(d: Dict)
    requires Inv(d)
    ensures Inv(Resize(d).0) && Resize(d).0.hash == d.hash && AllEntries(Resize(d).0) == AllEntries(d)
  {
    ExpandKeeps(d, if d.ht0.used < INITIAL_SIZE then INITIAL_SIZE else d.ht0.used);
  }

  /** Every operation keeps the invariant. */
  lemma ApplyKeeps(d: Dict, op: Op)
    requires Inv(d)
    ensures Inv(Apply(d, op)) && Apply(d, op).hash == d.hash
  {
    match op
    case Add(key, val) => AddKeepsHash(d, key, val);
    case Set(key, val) => ReplaceKeepsHash(d, key, val);
    case Del(key) => DeleteKeepsHash(d, key);
    case Get(key) => FindKeeps(d, key);
    case Grow(size) => ExpandKeeps(d, size);
    case Shrink => ResizeKeeps(d);
    case Migrate(n) => RehashKeeps(d, n);
    case Clear => EmptyKeeps(d);
    case _ =>
  }

  /** What every one of a run's operations keeps, the run keeps. */
  lemma {:induction false} RunInduction(d: Dict, ops: seq<Op>, p: Dict -> bool)
    requires p(d) && forall d', op :: op in ops && p(d') ==> p(Apply(d', op))
    ensures p(Run(d, ops))
    decreases |ops|
  {
    if ops != [] {
      assert ops[0] in ops;
      RunInduction(Apply(d, ops[0]), ops[1..], p);
    }
  }

  lemma RunKeeps(d: Dict, ops: seq<Op>)
    requires Inv(d)
    ensures Inv(Run(d, ops)) && Run(d, ops).hash == d.hash
  {
    var p := (d': Dict) => Inv(d') && d'.hash == d.hash;
    forall d', op | op in ops && p(d') ensures p(Apply(d', op)) {
      ApplyKeeps(d', op);
    }
    RunInduction(d, ops, p);
  }

  lemma NotRefused(d: Dict, key: Key, val: Val)
    requires Inv(d) && |Contents(d)| < SIZE_CAP
    ensures !AddRaw(d, key, val).1.Refused?
  {
    SizeCounts(d);
    AddRefusedWhen(d, key, val);
    RehashStepKeeps(d);
  }

  lemma AddOnMap(d: Dict, key: Key, val: Val)
    requires Inv(d) && |Contents(d)| < SIZE_CAP
    ensures var d' := AddRaw(d, key, val).0;
      Inv(d') && Contents(d') == ApplyToMap(Contents(d), Add(key, val))
  {
    AddRefines(d, key, val);
    NotRefused(d, key, val);
  }

  lemma SetOnMap(d: Dict, key: Key, val: Val)
    requires Inv(d) && |Contents(d)| < SIZE_CAP
    ensures var d' := Replace(d, key, val).0;
      Inv(d') && Contents(d') == ApplyToMap(Contents(d), Set(key, val))
  {
    ReplaceRefines(d, key, val);
    NotRefused(d, key, val);
  }

  lemma UpkeepOnMap(d: Dict, op: Op)
    requires Inv(d) && !op.Add? && !op.Set? && !op.Del? && !op.Clear?
    ensures Inv(Apply(d, op)) && Contents(Apply(d, op)) == Contents(d)
  {
    match op
    case Get(key) => FindRefines(d, key);
    case Grow(size) => ExpandKeeps(d, size);
    case Shrink => ResizeKeeps(d);
    case Migrate(n) => RehashKeeps(d, n);
    case _ =>
  }

  /** One operation on the state is that operation on the map. */
  lemma ApplyRefines(d: Dict, op: Op)
    requires Inv(d) && |Contents(d)| < SIZE_CAP
    ensures Inv(Apply(d, op)) && Contents(Apply(d, op)) == ApplyToMap(Contents(d), op)
  {
    match op
    case Add(key, val) => AddOnMap(d, key, val);
    case Set(key, val) => SetOnMap(d, key, val);
    case Del(key) => DeleteRefines(d, key);
    case Clear => EmptyKeeps(d);
    case _ => UpkeepOnMap(d, op);
  }

  lemma MapGrowsByOne(m: map<Key, Val>, op: Op)
    ensures |ApplyToMap(m, op)| <= |m| + 1
  {
    match op
    case Add(key, val) => GrowsByOne(m, key, val);
    case Set(key, val) => GrowsByOne(m, key, val);
    case Del(key) => KeysShrink(m.Keys - {key}, m.Keys); assert (m - {key}).Keys == m.Keys - {key};
    case _ =>
  }

  lemma GrowsByOne(m: map<Key, Val>, key: Key, val: Val)
    ensures |m[key := val]| <= |m| + 1
  {
    assert m[key := val].Keys == m.Keys + {key};
    assert |m[key := val]| == |m[key := val].Keys|;
  }

  lemma KeysShrink(a: set<Key>, b: set<Key>)
    requires a <= b
    ensures |a| <= |b|
  {
    assert b == a + (b - a);
  }

  /** Any run of fewer than 2^63 operations leaves the state standing for the map the same run gives. */
  lemma RunRefines(hash: Key -> Word, ops: seq<Op>)
    requires |ops| < SIZE_CAP
    ensures Inv(Run(Create(hash), ops)) && Contents(Run(Create(hash), ops)) == RunOnMap(map[], ops)
  {
    CreateRefines(hash);
    RunRefinesFrom(Create(hash), ops);
  }

  lemma {:induction false} RunRefinesFrom(d: Dict, ops: seq<Op>)
    requires Inv(d) && |Contents(d)| + |ops| < SIZE_CAP
    ensures Inv(Run(d, ops)) && Contents(Run(d, ops)) == RunOnMap(Contents(d), ops)
    decreases |ops|
  {
    if ops != [] {
      ApplyRefines(d, ops[0]);
      MapGrowsByOne(Contents(d), ops[0]);
      RunRefinesFrom(Apply(d, ops[0]), ops[1..]);
    }
  }

  // ---------------------------------------------------------------------------
  // Load

  function Newest(d: Dict): Table { if IsRehashing(d) then d.ht1 else d.ht0 }

  // What the load bound rests on: a rehash in progress goes to twice the size, and every entry added
  // since it began was paid for by a bucket passed.
  ghost predicate Loaded(d: Dict) {
    && Inv(d) && d.canResize && d.iterators == 0
    && if IsRehashing(d) then
         |d.ht1.buckets| == 2 * |d.ht0.buckets| && Size(d) <= |d.ht0.buckets| + 1 + d.rehashidx
       else d.ht0.used <= |d.ht0.buckets|
  }

  predicate Automatic(op: Op) { op.Add? || op.Set? || op.Del? || op.Get? || op.Migrate? }

  lemma {:induction false} PowerFromExact(i: nat, k: nat, n: nat)
    requires i == Pow2(k) && k <= n
    ensures PowerFrom(i, Pow2(n)) == Pow2(n)
    decreases n - k
  {
    if k < n {
      Pow2Grows(k, n);
      PowerFromExact(2 * i, k + 1, n);
    }
  }

  lemma DoublingIsExact(size: nat)
    requires IsSize(size)
    ensures size < SIZE_CAP ==> NextPower(2 * size) == 2 * size
    ensures size >= SIZE_CAP ==> NextPower(2 * size) == size
  {
    var k :| 2 <= k <= 63 && size == Pow2(k);
    if k < 63 {
      Pow2Grows(k, 63);
      assert Pow2(2) == INITIAL_SIZE && Pow2(k + 1) == 2 * size;
      PowerFromExact(INITIAL_SIZE, 2, k + 1);
      if k == 62 {
        assert 2 * size == SIZE_CAP;
      } else {
        Pow2Grows(k + 1, 63);
      }
    }
  }

  lemma RehashLoaded(d: Dict, n: nat)
    requires Loaded(d)
    ensures Loaded(Rehash(d, n).0) && Size(Rehash(d, n).0) == Size(d)
    ensures n > 0 && IsRehashing(Rehash(d, n).0) ==> Size(d) <= |d.ht0.buckets| + Rehash(d, n).0.rehashidx
  {
    RehashKeeps(d, n);
    MoveBucketsNeverBack(d, n);
  }

  lemma MoveBucketsNeverBack(d: Dict, n: nat)
    requires Inv(d)
    ensures IsRehashing(Rehash(d, n).0) ==> Rehash(d, n).0.rehashidx >= d.rehashidx
  {
    if IsRehashing(d) {
      MoveBucketsMoves(d, n, n * 10);
    }
  }

  // Growth when no rehash is going on.
  lemma GrowthLoaded(d: Dict)
    requires Loaded(d) && !IsRehashing(d)
    ensures var (d', ok) := ExpandIfNeeded(d);
      && Loaded(d') && Size(d') == Size(d)
      && (ok && IsRehashing(d') ==> Size(d') <= |d'.ht0.buckets| + d'.rehashidx)
      && (ok && !IsRehashing(d') ==> Size(d') < |d'.ht0.buckets|)
  {
    ExpandIfNeededKeeps(d);
    if |d.ht0.buckets| == 0 {
      assert PowerFrom(INITIAL_SIZE, INITIAL_SIZE) == INITIAL_SIZE;
    } else {
      DoublingIsExact(|d.ht0.buckets|);
    }
  }

  lemma ReadyLoaded(d: Dict)
    requires Loaded(d)
    ensures var (d', ok) := Ready(d);
      && Loaded(d') && Size(d') == Size(d)
      && (ok && IsRehashing(d') ==> Size(d') <= |d'.ht0.buckets| + d'.rehashidx)
      && (ok && !IsRehashing(d') ==> Size(d') < |d'.ht0.buckets|)
  {
    RehashLoaded(d, 1);
    RehashKeeps(d, 1);
    var d1 := RehashStep(d);
    if !IsRehashing(d1) {
      GrowthLoaded(d1);
    }
  }

  lemma AddLoaded(d: Dict, key: Key, val: Val)
    requires Loaded(d)
    ensures Loaded(AddRaw(d, key, val).0)
  {
    ReadyLoaded(d);
    ReadyKeeps(d);
    AddKeeps(d, key, val);
    var (d2, ok) := Ready(d);
    if ok && Lookup(d2, key) == None {
      InsertKeeps(d2, Entry(key, val));
      InsertSize(d2, Entry(key, val));
    }
  }

  lemma InsertSize(d: Dict, e: Entry)
    ensures |Insert(d.hash, d.ht0, e).buckets| == |d.ht0.buckets|
    ensures |Insert(d.hash, d.ht1, e).buckets| == |d.ht1.buckets|
  {}

  lemma ReplaceLoaded(d: Dict, key: Key, val: Val)
    requires Loaded(d)
    ensures Loaded(Replace(d, key, val).0)
  {
    AddLoaded(d, key, val);
    AddKeeps(d, key, val);
    var (d1, r) := AddRaw(d, key, val);
    if r.Existing? {
      LookupIs(d1, key);
      SetValueKeeps(d1, key, val);
    }
  }

  lemma DeleteLoaded(d: Dict, key: Key)
    requires Loaded(d)
    ensures Loaded(Delete(d, key).0)
  {
    RehashLoaded(d, 1);
    var d1 := RehashStep(d);
    if Lookup(d1, key).Some? {
      RemoveKeeps(d1, key);
    }
  }

  lemma ApplyLoaded(d: Dict, op: Op)
    requires Loaded(d) && Automatic(op)
    ensures Loaded(Apply(d, op))
  {
    match op
    case Add(key, val) => AddLoaded(d, key, val);
    case Set(key, val) => ReplaceLoaded(d, key, val);
    case Del(key) => DeleteLoaded(d, key);
    case Get(key) => RehashLoaded(d, 1);
    case Migrate(n) => RehashLoaded(d, n);
  }

  /** With resizing allowed, no safe iterator open and growth left to the table, no reachable state
      holds more entries than its newest table has buckets. */
  lemma {:induction false} LoadBound(hash: Key -> Word, ops: seq<Op>)
    requires forall op :: op in ops ==> Automatic(op)
    ensures Loaded(Run(Create(hash), ops)) && Size(Run(Create(hash), ops)) <= |Newest(Run(Create(hash), ops)).buckets|
  {
    CreateRefines(hash);
    RunLoaded(Create(hash), ops);
  }

  lemma RunLoaded(d: Dict, ops: seq<Op>)
    requires Loaded(d) && forall op :: op in ops ==> Automatic(op)
    ensures Loaded(Run(d, ops))
  {
    forall d', op | op in ops && Loaded(d') ensures Loaded(Apply(d', op)) {
      ApplyLoaded(d', op);
    }
    RunInduction(d, ops, (d': Dict) => Loaded(d'));
  }
}
