/** Exactly when the shared list is safe (src/core/sis_list.lock.c): from any state that a run can be in, no run
    whose readers are ahead of the watcher when they store their first cursors crashes if and only if every reader
    with a cursor is among the users and the watcher has not passed it. A reader that is not covered, or that has
    looked its first node up and not stored it yet, can always be led to freed memory: the other readers go, enough
    is pushed, and the watcher goes on. */
module LockListExact {
  import opened LockList
  import opened Options
  import opened Sequences

  // A reader that can be led to freed memory: behind the watcher, or with a first node that is not stored yet
  ghost predicate Doomed(s: State, r: nat) {
    && !s.mode.SaveAll? && r in s.readers
    && if s.readers[r].cursor.Some? then !Covered(s.users, s.watch, s.pc, r, s.readers[r]) else s.readers[r].seen.Some?
  }

  predicate Stored(s: State, r: nat) { r in s.readers && s.readers[r].cursor.Some? }

  // Whatever is asked of the readers; with kept even that they be ahead of the watcher when they store
  ghost predicate Crashes(s: State, schedule: seq<Action>, kept: bool) {
    && Run(s, schedule, Free) == Crash && Run(s, schedule, ReadyFirst) == Crash
    && (kept ==> Run(s, schedule, AheadAtStore) == Crash)
  }

  lemma CrashesNow(s: State, a: Action, kept: bool)
    requires Step(s, a) == Crash && !a.Look? && (kept ==> !a.Store?)
    ensures Crashes(s, [a], kept)
  {}

  lemma CrashesThen(s: State, a: Action, s': State, rest: seq<Action>, kept: bool)
    requires Step(s, a) == Ok(s') && !a.Look? && (kept ==> !a.Store?) && Crashes(s', rest, kept)
    ensures Crashes(s, [a] + rest, kept)
  {
    assert ([a] + rest)[1..] == rest;
  }

  // The reader's thread goes on when its node has been freed, and the next one too.
  lemma Finish(s: State, r: nat) returns (schedule: seq<Action>)
    requires Base(s) && r in s.readers && s.readers[r].cursor.Some? && s.readers[r].cursor.value + 2 <= s.head
    ensures Crashes(s, schedule, true)
  {
    var a := ReaderStep(r);
    assert CursorOk(s.objs, s.readers[r]);
    if Step(s, a) == Crash {
      CrashesNow(s, a, true);
      schedule := [a];
    } else {
      var s' := Step(s, a).state;
      assert Step(s', a) == Crash;
      CrashesNow(s', a, true);
      CrashesThen(s, a, s', [a], true);
      schedule := [a] + [a];
    }
  }

  // ---------------------------------------------------------------------------
  // The watcher alone with the reader

  function End(s: State): nat {
    match s.watch
    case None => 0
    case Some(w) => if Done(s.pc) || w == 0 then w else w - 1
  }

  // The objects queued before the watcher's cursor
  function Span(s: State): int { End(s) - s.head }

  ghost predicate Costly(cost: Obj -> nat) { forall x :: cost(x) > 0 }

  lemma {:induction false} TotalCounts(cost: Obj -> nat, xs: seq<Obj>)
    requires Costly(cost)
    ensures Total(cost, xs) >= |xs|
  {
    if xs != [] {
      TotalCounts(cost, xs[1..]);
    }
  }

  // Where the reader is or is to be
  function Aim(u: Reader): nat {
    if u.cursor.Some? then u.cursor.value else if u.seen.Some? then u.seen.value else 0
  }

  // Enough has been pushed for the reader at c to fall behind, when at most q objects are kept.
  ghost predicate Driving(s: State, r: nat, q: nat) {
    && Base(s) && Doomed(s, r) && s.users <= {r} && Costly(s.cost)
    && (s.mode.SaveSize? ==> s.mode.max <= q)
    && Span(s) <= q && |s.objs| >= Aim(s.readers[r]) + 3 + q
  }

  function Rank(pc: WatchPc): nat {
    match pc
    case Resting => 7
    case Looping => 6
    case Checking(left) => if left == {} then 4 else 5
    case Clear => 3
    case Dropping(_) => 2
    case Stepping => 1
  }

  function Place(watch: Option<nat>): nat { if watch == None then 0 else watch.value }

  function Next(s: State, r: nat): Action {
    if s.pc.Checking? && r in s.pc.left then CheckUser(r) else Watch
  }

  // What a step of the watcher has to bring about
  ghost predicate DrivesOn(s: State, r: nat, q: nat) {
    var o := Step(s, Next(s, r));
    && o.Ok? && Driving(o.state, r, q) && |o.state.objs| == |s.objs| && Place(o.state.watch) <= |s.objs|
    && (Place(s.watch) < Place(o.state.watch) || (s.watch == o.state.watch && Rank(o.state.pc) < Rank(s.pc)))
  }

  // A state that differs where the watcher works
  lemma StillDriving(s: State, r: nat, q: nat, s': State)
    requires Driving(s, r, q) && Base(s') && Span(s') <= q
    requires s'.mode == s.mode && s'.cost == s.cost && s'.objs == s.objs && s'.readers == s.readers &&
      s'.users == s.users
    requires Stored(s, r) ==> !Covered(s'.users, s'.watch, s'.pc, r, s'.readers[r])
    ensures Driving(s', r, q)
  {}

  lemma DriveRest(s: State, r: nat, q: nat)
    requires Driving(s, r, q) && s.head < Aim(s.readers[r]) + 2 && s.pc.Resting?
    ensures DrivesOn(s, r, q)
  {
    StepKeeps(s, Watch);
    StillDriving(s, r, q, BeginPass(s).state);
  }

  lemma DriveLoop(s: State, r: nat, q: nat)
    requires Driving(s, r, q) && s.head < Aim(s.readers[r]) + 2 && s.pc.Looping?
    ensures DrivesOn(s, r, q)
  {
    StepKeeps(s, Watch);
    StillDriving(s, r, q, s.(pc := Checking(s.users)));
  }

  // The check meets nobody at the cursor: a user that is not covered is behind it.
  lemma DriveCheck(s: State, r: nat, q: nat)
    requires Driving(s, r, q) && s.pc.Checking?
    ensures DrivesOn(s, r, q)
  {
    StepKeeps(s, Next(s, r));
    if r in s.pc.left {
      assert s.pc.left - {r} == {};
      StillDriving(s, r, q, s.(pc := Checking({})));
    } else {
      assert s.pc.left == {};
      StillDriving(s, r, q, s.(pc := Clear));
    }
  }

  lemma DriveMove(s: State, r: nat, q: nat)
    requires Driving(s, r, q) && (s.pc.Dropping? || s.pc.Stepping?)
    ensures DrivesOn(s, r, q)
  {
    var o := Step(s, Watch);
    StepKeeps(s, Watch);
    StillDriving(s, r, q, o.state);
  }

  // One object at most is more before the cursor, and none when that would be too many.
  lemma ClearSpan(s: State, w: nat, q: nat)
    requires Base(s) && Costly(s.cost) && s.pc.Clear? && s.watch == Some(w) && !s.mode.SaveAll?
    requires Span(s) <= q && (s.mode.SaveSize? ==> s.mode.max <= q)
    requires Reclaim(s, w).Ok?
    ensures Span(Reclaim(s, w).state) <= q
  {
    if s.mode.SaveSize? {
      Reaccounted(s.mode, s.cost, s.objs, s.head, w, s.cursize);
      TotalCounts(s.cost, s.objs[s.head..w]);
    }
  }

  lemma ReclaimKeeps(s: State, w: nat)
    requires Reclaim(s, w).Ok?
    ensures var s' := Reclaim(s, w).state;
      && s'.mode == s.mode && s'.cost == s.cost && s'.objs == s.objs && s'.readers == s.readers &&
        s'.users == s.users && s'.watch == s.watch
      && (s'.pc.Dropping? || s'.pc.Stepping?)
  {}

  lemma DriveClear(s: State, r: nat, q: nat)
    requires Driving(s, r, q) && s.pc.Clear?
    ensures DrivesOn(s, r, q)
  {
    var w := s.watch.value;
    StepKeeps(s, Watch);
    ReclaimMoves(s, w);
    ReclaimKeeps(s, w);
    ClearSpan(s, w, q);
    var s' := Reclaim(s, w).state;
    assert Step(s, Watch) == Ok(s');
    NotCovered(s.users, s.watch, s'.pc, r, s.readers[r]);
    StillDriving(s, r, q, s');
    AfterClear(s, r, q, s');
  }

  lemma NotCovered(users: set<nat>, watch: Option<nat>, pc: WatchPc, r: nat, u: Reader)
    requires Passed(pc)
    ensures !Covered(users, watch, Clear, r, u) ==> !Covered(users, watch, pc, r, u)
  {}

  lemma AfterClear(s: State, r: nat, q: nat, s': State)
    requires Step(s, Watch) == Ok(s') && s.pc.Clear? && Driving(s', r, q) && s'.objs == s.objs && s'.watch == s.watch
    requires s'.pc.Dropping? || s'.pc.Stepping?
    ensures DrivesOn(s, r, q)
  {}

  lemma ReclaimMoves(s: State, w: nat)
    requires Base(s) && s.pc.Clear? && s.watch == Some(w) && !s.mode.SaveAll?
    ensures Reclaim(s, w).Ok?
  {}

  // The watcher has passed the node the reader looked up: the reader stores it now.
  lemma DriveStore(s: State, r: nat, q: nat)
    requires Driving(s, r, q) && !Stored(s, r) && !AheadOf(s.users, s.watch, s.pc, r, s.readers[r].seen.value)
    ensures var o := Step(s, Store(r)); o.Ok? && Stored(o.state, r) && Driving(o.state, r, q)
  {
    StepKeeps(s, Store(r));
  }

  lemma DriveWatch(s: State, r: nat, q: nat)
    requires Driving(s, r, q) && s.head < Aim(s.readers[r]) + 2
    ensures DrivesOn(s, r, q) && Stored(Step(s, Next(s, r)).state, r) == Stored(s, r)
  {
    match s.pc {
      case Clear => DriveClear(s, r, q);
      case Dropping(_) => DriveMove(s, r, q);
      case Stepping => DriveMove(s, r, q);
      case Resting => DriveRest(s, r, q);
      case Looping => DriveLoop(s, r, q);
      case Checking(_) => DriveCheck(s, r, q);
    }
    SameReaders(s, Next(s, r));
  }

  lemma {:induction false} Drive(s: State, r: nat, q: nat) returns (schedule: seq<Action>)
    requires Driving(s, r, q)
    ensures Crashes(s, schedule, Stored(s, r))
    decreases if Stored(s, r) then 0 else 1, |s.objs| - Place(s.watch), Rank(s.pc)
  {
    if Stored(s, r) && s.head >= s.readers[r].cursor.value + 2 {
      schedule := Finish(s, r);
    } else if !Stored(s, r) && !AheadOf(s.users, s.watch, s.pc, r, s.readers[r].seen.value) {
      DriveStore(s, r, q);
      var s' := Step(s, Store(r)).state;
      var rest := Drive(s', r, q);
      CrashesThen(s, Store(r), s', rest, false);
      schedule := [Store(r)] + rest;
    } else {
      DriveWatch(s, r, q);
      var s' := Step(s, Next(s, r)).state;
      var rest := Drive(s', r, q);
      CrashesThen(s, Next(s, r), s', rest, Stored(s, r));
      schedule := [Next(s, r)] + rest;
    }
  }

  // ---------------------------------------------------------------------------
  // Getting there

  // Enough is pushed.
  lemma {:induction false} PushUp(s: State, r: nat, q: nat, n: nat, x: Obj) returns (schedule: seq<Action>)
    requires Base(s) && Doomed(s, r) && s.users <= {r} && Costly(s.cost)
    requires (s.mode.SaveSize? ==> s.mode.max <= q) && Span(s) <= q && n >= Aim(s.readers[r]) + 3 + q
    ensures Crashes(s, schedule, Stored(s, r))
    decreases n - |s.objs|
  {
    if |s.objs| >= n {
      schedule := Drive(s, r, q);
      return;
    }
    StepKeeps(s, Share(x));
    var s1 := Step(s, Share(x)).state;
    StepKeeps(s1, Push(x));
    var s2 := Step(s1, Push(x)).state;
    var rest := PushUp(s2, r, q, n, x);
    CrashesThen(s1, Push(x), s2, rest, Stored(s, r));
    CrashesThen(s, Share(x), s1, [Push(x)] + rest, Stored(s, r));
    schedule := [Share(x)] + ([Push(x)] + rest);
  }

  // Every other reader joins, if it has not, and is closed.
  lemma {:induction false} CloseOthers(s: State, r: nat, x: Obj) returns (schedule: seq<Action>)
    requires Base(s) && Doomed(s, r) && Costly(s.cost) && !s.pc.Checking?
    ensures Crashes(s, schedule, Stored(s, r))
    decreases |s.users - {r}|
  {
    if u :| u in s.users && u != r {
      StepKeeps(s, Close(u));
      var s' := Step(s, Close(u)).state;
      FewerUsers(s.users, r, u);
      var rest := CloseOthers(s', r, x);
      CrashesThen(s, Close(u), s', rest, Stored(s, r));
      schedule := [Close(u)] + rest;
    } else {
      var max := if s.mode.SaveSize? then s.mode.max else 0;
      var q: nat := if Span(s) > max then Span(s) else max;
      schedule := PushUp(s, r, q, Aim(s.readers[r]) + 3 + q, x);
    }
  }

  lemma FewerUsers(users: set<nat>, r: nat, u: nat)
    requires u in users && u != r
    ensures |users - {u} - {r}| < |users - {r}|
  {
    assert u in users - {r} && u !in users - {u} - {r} && users - {u} - {r} <= users - {r};
    SmallerSet(users - {u} - {r}, users - {r});
  }

  lemma SmallerSet(a: set<nat>, b: set<nat>)
    requires a < b
    ensures |a| < |b|
  {
    var x :| x in b && x !in a;
    assert a + (b - a - {x}) + {x} == b;
    assert |a + (b - a - {x}) + {x}| == |a| + |b - a - {x}| + 1;
  }

  // What is left of another reader's step, when it stands at the watcher's cursor
  function Pending(s: State, u: nat): nat {
    if u !in s.readers || s.readers[u].cursor != s.watch then 0
    else match s.readers[u].pc case Looking => 3 case Found => 2 case Handing => 1
  }

  // A check under way is brought to its end: whoever stands at the cursor moves on first.
  lemma {:induction false} EndCheck(s: State, r: nat, x: Obj) returns (schedule: seq<Action>)
    requires Base(s) && Doomed(s, r) && Costly(s.cost) && s.pc.Checking?
    ensures Crashes(s, schedule, Stored(s, r))
    decreases |s.pc.left|, if exists u :: u in s.pc.left && u != r then 1 else 0, 0
  {
    if u :| u in s.pc.left && u != r {
      schedule := CheckOther(s, r, u, x);
    } else if r in s.pc.left {
      var s' := s.(pc := Checking(s.pc.left - {r}));
      StepKeeps(s, CheckUser(r));
      assert Step(s, CheckUser(r)) == Ok(s');
      SmallerSet(s.pc.left - {r}, s.pc.left);
      var rest := EndCheck(s', r, x);
      CrashesThen(s, CheckUser(r), s', rest, Stored(s, r));
      schedule := [CheckUser(r)] + rest;
    } else {
      assert s.pc.left == {};
      var s' := s.(pc := Clear);
      StepKeeps(s, Watch);
      assert Step(s, Watch) == Ok(s');
      var rest := CloseOthers(s', r, x);
      CrashesThen(s, Watch, s', rest, Stored(s, r));
      schedule := [Watch] + rest;
    }
  }

  // What a step of a check under way keeps
  ghost predicate ChecksOn(s: State, r: nat, s': State) {
    Base(s') && Doomed(s', r) && Stored(s', r) == Stored(s, r) && s'.cost == s.cost && s'.pc.Checking?
  }

  lemma {:induction false} CheckOther(s: State, r: nat, u: nat, x: Obj) returns (schedule: seq<Action>)
    requires Base(s) && Doomed(s, r) && Costly(s.cost) && s.pc.Checking? && u in s.pc.left && u != r
    ensures Crashes(s, schedule, Stored(s, r))
    decreases |s.pc.left|, 0, Pending(s, u)
  {
    if s.readers[u].cursor != s.watch {
      LooksOn(s, r, u);
      var s' := s.(pc := Checking(s.pc.left - {u}));
      var rest := EndCheck(s', r, x);
      CrashesThen(s, CheckUser(u), s', rest, Stored(s, r));
      schedule := [CheckUser(u)] + rest;
    } else {
      MovesOn(s, r, u);
      if Step(s, ReaderStep(u)) == Crash {
        CrashesNow(s, ReaderStep(u), Stored(s, r));
        schedule := [ReaderStep(u)];
      } else {
        var s' := Step(s, ReaderStep(u)).state;
        var rest := CheckOther(s', r, u, x);
        CrashesThen(s, ReaderStep(u), s', rest, Stored(s, r));
        schedule := [ReaderStep(u)] + rest;
      }
    }
  }

  lemma LooksOn(s: State, r: nat, u: nat)
    requires Base(s) && Doomed(s, r) && s.pc.Checking? && u in s.pc.left && u != r && s.readers[u].cursor != s.watch
    ensures var s' := s.(pc := Checking(s.pc.left - {u}));
      Step(s, CheckUser(u)) == Ok(s') && ChecksOn(s, r, s') && |s'.pc.left| < |s.pc.left|
  {
    StepKeeps(s, CheckUser(u));
    SmallerSet(s.pc.left - {u}, s.pc.left);
  }

  // Another reader at the watcher's cursor has a next node to go on to.
  lemma MovesOn(s: State, r: nat, u: nat)
    requires Base(s) && Doomed(s, r) && s.pc.Checking? && u in s.pc.left && u != r && s.readers[u].cursor == s.watch
    ensures Step(s, ReaderStep(u)) != Blocked
    ensures Step(s, ReaderStep(u)).Ok? ==> var s' := Step(s, ReaderStep(u)).state;
      ChecksOn(s, r, s') && s'.pc == s.pc && u in s'.readers && Pending(s', u) < Pending(s, u)
  {
    assert CursorOk(s.objs, s.readers[u]);
    var o := ReaderSteps(s, u);
    if o.Ok? {
      ReaderStepKeeps(s, u);
      OtherReader(s, r, u, o.state.readers[u]);
      LessPending(s, u);
    }
  }

  lemma OtherReader(s: State, r: nat, u: nat, v: Reader)
    requires Doomed(s, r) && s.pc.Checking? && u != r && Base(s.(readers := s.readers[u := v]))
    ensures ChecksOn(s, r, s.(readers := s.readers[u := v]))
  {}

  lemma LessPending(s: State, u: nat)
    requires u in s.readers && s.watch.Some? && s.readers[u].cursor == s.watch && ReaderSteps(s, u).Ok?
    requires s.readers[u].pc.Found? ==> s.watch.value + 1 != s.head
    ensures Pending(ReaderSteps(s, u).state, u) < Pending(s, u)
  {}

  /** A reader that is not covered can be led to freed memory, by a schedule that keeps the rule from then on; so can
      one that has looked its first node up and not stored it, by a schedule in which nobody looks any more. */
  lemma DoomedCrashes(s: State, r: nat, x: Obj) returns (schedule: seq<Action>)
    requires Base(s) && Doomed(s, r) && Costly(s.cost)
    ensures Crashes(s, schedule, Stored(s, r))
  {
    if s.pc.Checking? {
      schedule := EndCheck(s, r, x);
    } else {
      schedule := CloseOthers(s, r, x);
    }
  }

  /** Every state of a run that has not crashed is such a state, whether the rule is kept or not. */
  lemma {:induction false} RunBase(s: State, schedule: seq<Action>, rule: Rule)
    requires Base(s)
    ensures Run(s, schedule, rule).Ok? ==> Base(Run(s, schedule, rule).state)
    decreases |schedule|
  {
    if schedule != [] {
      StepKeeps(s, schedule[0]);
      if !Allowed(rule, s, schedule[0]) {
        RunBase(s, schedule[1..], rule);
      } else {
        match Step(s, schedule[0])
        case Blocked => RunBase(s, schedule[1..], rule);
        case Crash =>
        case Ok(s') => RunBase(s', schedule[1..], rule);
      }
    }
  }

  // ---------------------------------------------------------------------------
  // Both directions

  /** From any state a run can be in, no run whose readers are ahead of the watcher when they store crashes if and
      only if every reader with a cursor is among the users and the watcher has not passed it. */
  lemma SafeExactly(s: State, x: Obj)
    requires Base(s) && Costly(s.cost)
    ensures (forall schedule :: Run(s, schedule, AheadAtStore) != Crash) <==> Shielded(s)
  {
    if Shielded(s) {
      forall schedule ensures Run(s, schedule, AheadAtStore) != Crash {
        RunSafe(s, schedule);
      }
    } else {
      var r :| r in s.readers && !Covered(s.users, s.watch, s.pc, r, s.readers[r]);
      var schedule := DoomedCrashes(s, r, x);
      assert Run(s, schedule, AheadAtStore) == Crash;
    }
  }

  /** At such a state, storing the node it looked up leaves a reader safe from every run that keeps the rule
      afterwards if and only if it is among the users and the watcher has not passed that node, or all is kept. */
  lemma StoreSafeExactly(s: State, r: nat, x: Obj)
    requires Inv(s) && Costly(s.cost) && r in s.readers && s.readers[r].seen.Some?
    ensures StoreCursor(s, r).Ok?
    ensures (forall schedule :: Run(StoreCursor(s, r).state, schedule, AheadAtStore) != Crash) <==>
      s.mode.SaveAll? || AheadOf(s.users, s.watch, s.pc, r, s.readers[r].seen.value)
  {
    StepKeeps(s, Store(r));
    var s' := StoreCursor(s, r).state;
    SafeExactly(s', x);
    if s.mode.SaveAll? || AheadOf(s.users, s.watch, s.pc, r, s.readers[r].seen.value) {
      StoreCovers(s, r);
    } else {
      assert !Covered(s'.users, s'.watch, s'.pc, r, s'.readers[r]);
    }
  }

  /** Storing it at once, a reader is safe from every run that keeps the rule afterwards if and only if it was ready
      when it looked, or all is kept. */
  lemma TakeSafeExactly(s: State, r: nat, x: Obj)
    requires Inv(s) && Costly(s.cost) && r in s.readers && s.readers[r].cursor == None && s.readers[r].seen == None
    ensures (forall schedule :: Run(AtOnce(s, r), schedule, AheadAtStore) != Crash) <==> s.mode.SaveAll? || Ready(s, r)
  {
    TakeExact(s, r);
    StepKeeps(s, Look(r));
    StepKeeps(LookUp(s, r).state, Store(r));
    SafeExactly(AtOnce(s, r), x);
  }

  /** But being ready does not help a reader when the watcher comes between: with nothing asked of the readers, and
      with no more asked than to be ready when they look, a list is safe if and only if it keeps everything. */
  lemma AlwaysSafe(mode: Mode, cost: Obj -> nat, others: multiset<Obj>, rule: Rule, x: Obj)
    requires Costly(cost) && !rule.AheadAtStore?
    ensures (forall schedule :: Run(Created(mode, cost, others), schedule, rule) != Crash) <==> mode.SaveAll?
  {
    var s := Created(mode, cost, others);
    CreatedInv(mode, cost, others);
    if mode.SaveAll? {
      forall schedule ensures Run(s, schedule, rule) != Crash {
        SaveAllSafe(s, schedule, rule);
      }
    } else {
      var rest := ReadyReaderCrashes(mode, cost, others, rule, x);
      assert Run(s, Opening(x) + ([Join(0), Look(0)] + rest), rule) == Crash;
    }
  }

  lemma {:induction false} SaveAllSafe(s: State, schedule: seq<Action>, rule: Rule)
    requires Inv(s) && s.mode.SaveAll?
    ensures Run(s, schedule, rule) != Crash
    decreases |schedule|
  {
    if schedule != [] {
      if Allowed(rule, s, schedule[0]) {
        StepSafe(s, schedule[0]);
        match Step(s, schedule[0])
        case Blocked => SaveAllSafe(s, schedule[1..], rule);
        case Ok(s') => SaveAllSafe(s', schedule[1..], rule);
      } else {
        SaveAllSafe(s, schedule[1..], rule);
      }
    }
  }

  // An object is pushed and a reader opened.
  function Opening(x: Obj): seq<Action> { [Share(x), Push(x), Open(0, false)] }

  function Opened(mode: Mode, cost: Obj -> nat, others: multiset<Obj>, x: Obj): State {
    Created(mode, cost, others).(
      objs := [x], rnums := 1, refs := others + multiset{x} + multiset{x}, others := others + multiset{x},
        readers := map[0 := NewReader(false)])
  }

  lemma OpeningRuns(mode: Mode, cost: Obj -> nat, others: multiset<Obj>, x: Obj, rest: seq<Action>, rule: Rule)
    ensures Base(Opened(mode, cost, others, x))
    ensures Run(Created(mode, cost, others), Opening(x) + rest, rule) == Run(Opened(mode, cost, others, x), rest, rule)
  {
    var s := Created(mode, cost, others);
    CreatedInv(mode, cost, others);
    var s1 := Step(s, Share(x)).state;
    StepKeeps(s, Share(x));
    EmptyLeft([x]);
    var s2 := Step(s1, Push(x)).state;
    StepKeeps(s1, Push(x));
    StepKeeps(s2, Open(0, false));
    RunFirst(s2, Open(0, false), Opened(mode, cost, others, x), rest, rule);
    RunFirst(s1, Push(x), s2, [Open(0, false)] + rest, rule);
    RunFirst(s, Share(x), s1, [Push(x)] + ([Open(0, false)] + rest), rule);
    assert [Share(x)] + ([Push(x)] + ([Open(0, false)] + rest)) == Opening(x) + rest;
  }

  /** A list that does not keep everything: a reader among the users looks up the tail after something has been
      pushed, and can still be led to freed memory before it stores it. */
  lemma ReadyReaderCrashes(mode: Mode, cost: Obj -> nat, others: multiset<Obj>, rule: Rule, x: Obj)
    returns (rest: seq<Action>)
    requires Costly(cost) && !mode.SaveAll? && !rule.AheadAtStore?
    ensures Run(Created(mode, cost, others), Opening(x) + ([Join(0), Look(0)] + rest), rule) == Crash
  {
    var s := Opened(mode, cost, others, x);
    OpeningRuns(mode, cost, others, x, [], rule);
    rest := TwoThenCrash(s, Join(0), Look(0), rule, x);
    OpeningRuns(mode, cost, others, x, [Join(0), Look(0)] + rest, rule);
  }

  // Two actions after which the reader is doomed
  lemma TwoThenCrash(s: State, a: Action, b: Action, rule: Rule, x: Obj) returns (rest: seq<Action>)
    requires Base(s) && Costly(s.cost) && Step(s, a).Ok? && Allowed(rule, s, a) && !rule.AheadAtStore?
    requires var s1 := Step(s, a).state;
      Step(s1, b).Ok? && Allowed(rule, s1, b) && Doomed(Step(s1, b).state, 0) && Step(s1, b).state.cost == s.cost
    ensures Run(s, [a, b] + rest, rule) == Crash
  {
    var s1 := Step(s, a).state;
    var s2 := Step(s1, b).state;
    StepKeeps(s, a);
    StepKeeps(s1, b);
    rest := DoomedCrashes(s2, 0, x);
    RunFirst(s1, b, s2, rest, rule);
    RunFirst(s, a, s1, [b] + rest, rule);
    assert [a] + ([b] + rest) == [a, b] + rest;
  }

  /** And so can one whose thread has stored it at once, before it is among the users. */
  lemma EarlyReaderCrashes(mode: Mode, cost: Obj -> nat, others: multiset<Obj>, x: Obj) returns (rest: seq<Action>)
    requires Costly(cost) && !mode.SaveAll?
    ensures Run(Created(mode, cost, others), Opening(x) + ([Look(0), Store(0)] + rest), Free) == Crash
  {
    var s := Opened(mode, cost, others, x);
    OpeningRuns(mode, cost, others, x, [], Free);
    rest := TwoThenCrash(s, Look(0), Store(0), Free, x);
    OpeningRuns(mode, cost, others, x, [Look(0), Store(0)] + rest, Free);
  }

  lemma RunFirst(s: State, a: Action, s': State, rest: seq<Action>, rule: Rule)
    requires Step(s, a) == Ok(s') && Allowed(rule, s, a)
    ensures Run(s, [a] + rest, rule) == Run(s', rest, rule)
  {
    assert ([a] + rest)[1..] == rest;
  }
}
