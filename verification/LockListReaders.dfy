/** What a reader of a shared list is handed: all that is pushed from the place on where it first looked. */
module LockListReaders {
  import opened LockList
  import opened LockListExact
  import opened Options
  import opened Sequences

  // The reader has looked up that node, and begins there when it has stored it.
  predicate Starts(u: Reader, k: nat) {
    if u.cursor == None then u.seen == Some(k) else u.start == k
  }

  ghost predicate StartsIn(readers: map<nat, Reader>, r: nat, k: nat) { r in readers && Starts(readers[r], k) }

  lemma OwnStep(s: State, r: nat, k: nat)
    requires StartsIn(s.readers, r, k)
    ensures LookUp(s, r) == Blocked
    ensures StoreCursor(s, r).Ok? && CursorOk(s.objs, s.readers[r]) ==> StartsIn(StoreCursor(s, r).state.readers, r, k)
    ensures ReaderSteps(s, r).Ok? ==> StartsIn(ReaderSteps(s, r).state.readers, r, k)
  {}

  lemma StepStarts(s: State, a: Action, r: nat, k: nat)
    requires StartsIn(s.readers, r, k) && Cursors(s.objs, s.readers) && a != Close(r) && Step(s, a).Ok?
    ensures StartsIn(Step(s, a).state.readers, r, k)
  {
    if a.Watch? {
      SameInWatch(s);
    } else {
      OwnStep(s, r, k);
    }
  }

  lemma {:induction false} RunStarts(s: State, schedule: seq<Action>, rule: Rule, r: nat, k: nat)
    requires Base(s) && StartsIn(s.readers, r, k) && Close(r) !in schedule
    ensures Run(s, schedule, rule).Ok? ==> StartsIn(Run(s, schedule, rule).state.readers, r, k)
    decreases |schedule|
  {
    if schedule != [] {
      StepKeeps(s, schedule[0]);
      if !Allowed(rule, s, schedule[0]) {
        RunStarts(s, schedule[1..], rule, r, k);
      } else {
        match Step(s, schedule[0])
        case Blocked => RunStarts(s, schedule[1..], rule, r, k);
        case Crash =>
        case Ok(s') =>
          StepStarts(s, schedule[0], r, k);
          RunStarts(s', schedule[1..], rule, r, k);
      }
    }
  }

  /** From the moment a reader looks, whatever is done in a run that keeps the rule: what it is handed is what comes
      behind the head, or behind the tail as they were then, all of it and in order, up to where it stands. */
  lemma HandedFromLook(s: State, r: nat, schedule: seq<Action>)
    requires History(s) && r in s.readers && Step(s, Look(r)).Ok? && Close(r) !in schedule
    ensures var end := Run(Step(s, Look(r)).state, schedule, AheadAtStore);
      && end.Ok? && r in end.state.readers
      && var u, from := end.state.readers[r], if s.readers[r].fromHead then s.head else |s.objs|;
         u.cursor.Some? && u.pc.Looking? ==>
           from <= u.cursor.value <= |end.state.objs| && u.got == end.state.objs[from..u.cursor.value]
  {
    var from := if s.readers[r].fromHead then s.head else |s.objs|;
    var s1 := Step(s, Look(r)).state;
    StepSafe(s, Look(r));
    StepHistory(s, Look(r));
    assert StartsIn(s1.readers, r, from);
    RunStarts(s1, schedule, AheadAtStore, r, from);
    RunHistory(s1, schedule);
    ReadersAre(Run(s1, schedule, AheadAtStore).state);
  }
}
