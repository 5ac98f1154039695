/** What the watcher of a shared list gives up: with a size limit one object for each it passes, and only when those it
    has passed and not given up amount to more than the limit. */
module LockListSize {
  import opened LockList
  import opened LockListExact
  import opened Options
  import opened Sequences

  // How many of the first n objects are given up: one more whenever what is left of them is more than the limit.
  function GivenUp(cost: Obj -> nat, max: nat, objs: seq<Obj>, n: nat): (r: nat)
    requires n <= |objs|
    ensures r <= n
  {
    if n == 0 then 0 else
      var h := GivenUp(cost, max, objs, n - 1);
      if Total(cost, objs[h..n]) > max then h + 1 else h
  }

  // How many objects the watcher has counted.
  function Passes(watch: Option<nat>, pc: WatchPc): nat {
    match watch
    case None => 0
    case Some(w) => if Done(pc) || w == 0 then w else w - 1
  }

  ghost predicate Trimmed(mode: Mode, cost: Obj -> nat, objs: seq<Obj>, head: nat, watch: Option<nat>, pc: WatchPc) {
    mode.SaveSize? ==> Passes(watch, pc) <= |objs| && head == GivenUp(cost, mode.max, objs, Passes(watch, pc))
  }

  ghost predicate TrimmedState(s: State) { Trimmed(s.mode, s.cost, s.objs, s.head, s.watch, s.pc) }

  // ---------------------------------------------------------------------------
  // One round

  // Whether the round of a watcher at w gives up an object
  predicate Over(s: State, w: nat)
    requires s.head <= w <= |s.objs|
  {
    s.mode.SaveNone? || (s.mode.SaveSize? && Total(s.cost, s.objs[s.head..w]) > s.mode.max)
  }

  // The state when that is done, and when the watcher has moved on
  function Cleared(s: State, w: nat): State
    requires s.head < w < |s.objs|
  {
    var h := if Over(s, w) then s.head + 1 else s.head;
    s.(head := h, rnums := |s.objs| - h, pc := if Over(s, w) then Dropping(s.objs[s.head]) else Stepping,
       cursize := if s.mode.SaveSize? then Total(s.cost, s.objs[h..w]) else s.cursize + s.cost(s.objs[s.head]))
  }

  function Rounded(s: State, w: nat): State
    requires s.head < w < |s.objs|
  {
    Cleared(s, w).(watch := Some(w + 1), pc := Looping,
      refs := if Over(s, w) then s.refs - multiset{s.objs[s.head]} else s.refs)
  }

  ghost predicate Watches(s: State, s': State) { Step(s, Watch) == Ok(s') }

  ghost predicate Reaches(s: State, schedule: seq<Action>, rule: Rule, s': State) {
    Run(s, schedule, rule) == Ok(s')
  }

  function Turns(n: nat): seq<Action> { seq(n, _ => Watch) }

  lemma OneTurn(s: State, s': State, n: nat, rule: Rule, last: State)
    requires n > 0 && Watches(s, s') && Reaches(s', Turns(n - 1), rule, last)
    ensures Reaches(s, Turns(n), rule, last)
  {
    assert Turns(n)[1..] == Turns(n - 1);
  }

  lemma NoTurn(s: State, rule: Rule)
    ensures Reaches(s, Turns(0), rule, s)
  {}

  lemma GoesClear(s: State, w: nat)
    requires Base(s) && s.pc == Checking({}) && s.watch == Some(w)
    ensures Watches(s, s.(pc := Clear)) && Base(s.(pc := Clear))
  {
    StepKeeps(s, Watch);
  }

  lemma GoesOn(s: State, w: nat)
    requires Base(s) && s.pc.Clear? && s.watch == Some(w)
    ensures s.head < w < |s.objs| && Watches(s, Cleared(s, w)) && Base(Cleared(s, w))
  {
    ClearSteps(s, w);
    StepKeeps(s, Watch);
  }

  lemma RoundHead(s: State, w: nat)
    requires s.head < w < |s.objs|
    ensures s.mode.SaveSize? ==>
      Rounded(s, w).head == s.head + if Total(s.cost, s.objs[s.head..w]) > s.mode.max then 1 else 0
  {}

  /** No reader was found at the watcher's cursor w: it moves on, and gives the head's next object up exactly when
      nothing is kept, or what is queued up to w is more than the limit. */
  lemma Round(s: State, w: nat, rule: Rule)
    requires Base(s) && s.pc == Checking({}) && s.watch == Some(w)
    ensures s.head < w < |s.objs| && Reaches(s, Turns(if Over(s, w) then 4 else 3), rule, Rounded(s, w))
    ensures s.mode.SaveSize? ==>
      Rounded(s, w).head == s.head + if Total(s.cost, s.objs[s.head..w]) > s.mode.max then 1 else 0
  {
    var s1 := s.(pc := Clear);
    GoesClear(s, w);
    GoesOn(s1, w);
    RoundHead(s, w);
    SameRound(s, w);
    FromClear(s1, w, rule);
    OneTurn(s, s1, if Over(s, w) then 4 else 3, rule, Rounded(s, w));
  }

  lemma SameRound(s: State, w: nat)
    requires s.head < w < |s.objs|
    ensures Rounded(s.(pc := Clear), w) == Rounded(s, w) && Over(s.(pc := Clear), w) == Over(s, w)
  {}

  lemma FromClear(s: State, w: nat, rule: Rule)
    requires s.pc.Clear? && s.head < w < |s.objs|
    requires Watches(s, Cleared(s, w)) && Base(Cleared(s, w)) && s.watch == Some(w)
    ensures Reaches(s, Turns(if Over(s, w) then 3 else 2), rule, Rounded(s, w))
  {
    var s2 := Cleared(s, w);
    var s3 := s2.(refs := if Over(s, w) then s.refs - multiset{s.objs[s.head]} else s.refs, pc := Stepping);
    MovesOnTo(s3, w);
    NoTurn(Rounded(s, w), rule);
    OneTurn(s3, Rounded(s, w), 1, rule, Rounded(s, w));
    if Over(s, w) {
      GivesUp(s2, s.objs[s.head]);
      OneTurn(s2, s3, 2, rule, Rounded(s, w));
      OneTurn(s, s2, 3, rule, Rounded(s, w));
    } else {
      OneTurn(s, s2, 2, rule, Rounded(s, w));
    }
  }

  lemma MovesOnTo(s: State, w: nat)
    requires s.pc.Stepping? && s.watch == Some(w)
    ensures Watches(s, s.(watch := Some(w + 1), pc := Looping))
  {}

  lemma GivesUp(s: State, x: Obj)
    requires Base(s) && s.pc == Dropping(x)
    ensures Watches(s, s.(refs := s.refs - multiset{x}, pc := Stepping))
  {
    assert x in s.refs;
  }

  // The one step that frees
  lemma ClearSteps(s: State, w: nat)
    requires Base(s) && s.pc.Clear? && s.watch == Some(w)
    ensures s.head < w < |s.objs| && Watches(s, Cleared(s, w))
  {
    if s.mode.SaveSize? {
      Reaccounted(s.mode, s.cost, s.objs, s.head, w, s.cursize);
      TotalFirst(s.cost, s.objs, s.head, w);
    }
  }

  // ---------------------------------------------------------------------------
  // Whole runs

  // Later objects make no difference.
  lemma {:induction false} GivenUpStays(cost: Obj -> nat, max: nat, objs: seq<Obj>, x: Obj, n: nat)
    requires n <= |objs|
    ensures GivenUp(cost, max, objs + [x], n) == GivenUp(cost, max, objs, n)
  {
    if n > 0 {
      GivenUpStays(cost, max, objs, x, n - 1);
      var h := GivenUp(cost, max, objs, n - 1);
      assert (objs + [x])[h..n] == objs[h..n];
    }
  }

  lemma TrimPush(mode: Mode, cost: Obj -> nat, objs: seq<Obj>, head: nat, watch: Option<nat>, pc: WatchPc, x: Obj)
    requires Trimmed(mode, cost, objs, head, watch, pc)
    ensures Trimmed(mode, cost, objs + [x], head, watch, pc)
  {
    if mode.SaveSize? {
      GivenUpStays(cost, mode.max, objs, x, Passes(watch, pc));
    }
  }

  lemma TrimWatch(s: State)
    requires Base(s) && TrimmedState(s) && WatchStep(s).Ok?
    ensures TrimmedState(WatchStep(s).state)
  {
    if s.pc.Clear? {
      TrimClear(s);
    } else {
      TrimSame(s);
    }
  }

  lemma TrimClear(s: State)
    requires Base(s) && s.pc.Clear? && TrimmedState(s)
    ensures WatchStep(s).Ok? && TrimmedState(WatchStep(s).state)
  {
    var w := s.watch.value;
    GoesOn(s, w);
    assert WatchStep(s) == Ok(Cleared(s, w));
    ClearTrimmed(s, w);
  }

  lemma ClearTrimmed(s: State, w: nat)
    requires s.pc.Clear? && s.watch == Some(w) && TrimmedState(s) && s.head < w < |s.objs|
    ensures TrimmedState(Cleared(s, w))
  {}

  lemma TrimSame(s: State)
    requires Base(s) && !s.pc.Clear? && WatchStep(s).Ok?
    ensures var s' := WatchStep(s).state;
      s'.mode == s.mode && s'.cost == s.cost && s'.objs == s.objs && s'.head == s.head &&
      (s.mode.SaveSize? ==> Passes(s'.watch, s'.pc) == Passes(s.watch, s.pc))
  {}

  // Nobody but the watcher moves these.
  lemma OthersLeave(s: State, a: Action)
    requires Step(s, a).Ok? && !a.Watch? && !a.Push?
    ensures var s' := Step(s, a).state;
      s'.mode == s.mode && s'.cost == s.cost && s'.objs == s.objs && s'.head == s.head && s'.watch == s.watch &&
      (Done(s'.pc) <==> Done(s.pc))
  {}

  lemma TrimStep(s: State, a: Action)
    requires Base(s) && TrimmedState(s) && Step(s, a).Ok?
    ensures TrimmedState(Step(s, a).state)
  {
    if a.Watch? {
      TrimWatch(s);
    } else if a.Push? {
      TrimPush(s.mode, s.cost, s.objs, s.head, s.watch, s.pc, a.obj);
    } else {
      OthersLeave(s, a);
    }
  }

  lemma {:induction false} RunTrims(s: State, schedule: seq<Action>, rule: Rule)
    requires Base(s) && TrimmedState(s)
    ensures var r := Run(s, schedule, rule); r.Ok? ==>
      Base(r.state) && TrimmedState(r.state) && r.state.mode == s.mode && r.state.cost == s.cost
    decreases |schedule|
  {
    if schedule != [] {
      StepKeeps(s, schedule[0]);
      if !Allowed(rule, s, schedule[0]) {
        RunTrims(s, schedule[1..], rule);
      } else {
        match Step(s, schedule[0])
        case Blocked => RunTrims(s, schedule[1..], rule);
        case Crash =>
        case Ok(s') =>
          TrimStep(s, schedule[0]);
          SameList(s, schedule[0]);
          RunTrims(s', schedule[1..], rule);
      }
    }
  }

  lemma SameList(s: State, a: Action)
    requires Step(s, a).Ok?
    ensures Step(s, a).state.mode == s.mode && Step(s, a).state.cost == s.cost
  {}

  lemma {:induction false} NothingGivenUp(cost: Obj -> nat, max: nat, objs: seq<Obj>, n: nat)
    requires n <= |objs| && Total(cost, objs) <= max
    ensures GivenUp(cost, max, objs, n) == 0
  {
    if n > 0 {
      NothingGivenUp(cost, max, objs, n - 1);
      assert objs == objs[0..n] + objs[n..];
      TotalConcat(cost, objs[0..n], objs[n..]);
    }
  }

  /** In every run with a size limit, how far the head has come is told by the objects the watcher has counted;
      nothing is given up as long as all that was ever pushed is within the limit. */
  lemma KeepsWithin(max: nat, cost: Obj -> nat, others: multiset<Obj>, schedule: seq<Action>, rule: Rule)
    ensures var r := Run(Created(SaveSize(max), cost, others), schedule, rule); r.Ok? ==>
      && Passes(r.state.watch, r.state.pc) <= |r.state.objs|
      && r.state.head == GivenUp(cost, max, r.state.objs, Passes(r.state.watch, r.state.pc))
      && (Total(cost, r.state.objs) <= max ==> r.state.head == 0)
  {
    var s := Created(SaveSize(max), cost, others);
    RunTrims(s, schedule, rule);
    var r := Run(s, schedule, rule);
    if r.Ok? && Total(cost, r.state.objs) <= max {
      NothingGivenUp(cost, max, r.state.objs, Passes(r.state.watch, r.state.pc));
    }
  }

  /** In every run of a list that keeps nothing, the head is right behind the watcher. */
  lemma KeepsNone(cost: Obj -> nat, others: multiset<Obj>, schedule: seq<Action>, rule: Rule)
    ensures var r := Run(Created(SaveNone, cost, others), schedule, rule); r.Ok? ==>
      r.state.head == Passes(r.state.watch, r.state.pc)
  {
    RunTrims(Created(SaveNone, cost, others), schedule, rule);
  }

  /** In every run of a list that keeps everything, nothing is given up. */
  lemma KeepsAll(cost: Obj -> nat, others: multiset<Obj>, schedule: seq<Action>, rule: Rule)
    ensures var r := Run(Created(SaveAll, cost, others), schedule, rule); r.Ok? ==> r.state.head == 0
  {
    RunTrims(Created(SaveAll, cost, others), schedule, rule);
  }

  // ---------------------------------------------------------------------------
  // Objects of one size

  ghost predicate AllCost(cost: Obj -> nat, objs: seq<Obj>, c: nat) {
    forall i :: 0 <= i < |objs| ==> cost(objs[i]) == c
  }

  lemma {:induction false} TotalOfEqual(cost: Obj -> nat, objs: seq<Obj>, c: nat)
    requires AllCost(cost, objs, c)
    ensures Total(cost, objs) == |objs| * c
  {
    if objs != [] {
      TotalOfEqual(cost, objs[1..], c);
      assert |objs| * c == c + (|objs| - 1) * c;
    }
  }

  /** Where all objects take the same, as many as fit are kept: all of the first k, and then the last k. */
  lemma {:induction false} KeepsAsManyAsFit(cost: Obj -> nat, max: nat, objs: seq<Obj>, c: nat, k: nat, n: nat)
    requires AllCost(cost, objs, c) && k * c <= max < (k + 1) * c && n <= |objs|
    ensures GivenUp(cost, max, objs, n) == if n <= k then 0 else n - k
  {
    if n > 0 {
      KeepsAsManyAsFit(cost, max, objs, c, k, n - 1);
      var h := GivenUp(cost, max, objs, n - 1);
      TotalOfEqual(cost, objs[h..n], c);
      if n <= k {
        Smaller(n, k, c);
      } else {
        assert n - h == k + 1;
      }
    }
  }

  lemma Smaller(n: nat, k: nat, c: nat)
    requires n <= k
    ensures n * c <= k * c
  {}
}
