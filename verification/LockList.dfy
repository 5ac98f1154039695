/** The shared list of src/core/sis_list.lock.c as a transition system: pushers, readers each with a
    cursor of its own, and the watcher that gives up what no reader needs. Opening a reader starts its
    thread and then enters it among the users; the thread, before or after that, looks its first node
    up under the list's lock and stores it as its cursor afterwards, without one. Nodes are numbered in
    push order: node 0 is the first dummy and node i + 1 holds the object pushed i-th; nodes before the
    head are freed, and the head's own object is given up. A step that would touch a freed node or
    object crashes. */
module LockList {
  import opened Options
  import opened Sequences

  type Obj(==, !new)

  datatype Mode = SaveAll | SaveNone | SaveSize(max: nat)

  // Where the watcher is: between passes; at its loop's test; checking which readers stand at its
  // cursor; free to go on; with an object to give up; about to move on.
  datatype WatchPc = Resting | Looping | Checking(left: set<nat>) | Clear | Dropping(obj: Obj) | Stepping

  // Where a reader is: before asking for the next node; with a next node; in the callback for it.
  datatype ReaderPc = Looking | Found | Handing

  // seen is the first node as the thread has looked it up and not stored yet; start and got are history:
  // where the reader began and what its callback has had.
  datatype Reader = Reader(fromHead: bool, seen: Option<nat>, cursor: Option<nat>, pc: ReaderPc, start: nat,
    got: seq<Obj>)

  datatype State = State(
    mode: Mode, cost: Obj -> nat, objs: seq<Obj>, head: nat, rnums: int,
    watch: Option<nat>, pc: WatchPc, cursize: int,
    readers: map<nat, Reader>, users: set<nat>, refs: multiset<Obj>, others: multiset<Obj>)

  datatype Outcome = Blocked | Crash | Ok(state: State)

  datatype Action =
    | Share(obj: Obj) | Forget(obj: Obj) | Push(obj: Obj)
    | Open(r: nat, fromHead: bool) | Join(r: nat) | Look(r: nat) | Store(r: nat) | ReaderStep(r: nat) | Close(r: nat)
    | Watch | CheckUser(r: nat)

  // The list as created
  function Created(mode: Mode, cost: Obj -> nat, others: multiset<Obj>): State {
    State(mode, cost, [], 0, 0, None, Resting, 0, map[], {}, others, others)
  }

  predicate Live(s: State, n: nat) { s.head <= n <= |s.objs| }

  // ---------------------------------------------------------------------------
  // Steps

  function NewReader(fromHead: bool): Reader { Reader(fromHead, None, None, Looking, 0, []) }

  // The thread's first look: the tail, or for a reader from the head the head.
  function LookUp(s: State, r: nat): Outcome {
    if r !in s.readers || s.readers[r].cursor.Some? || s.readers[r].seen.Some? then Blocked else
      var u := s.readers[r];
      Ok(s.(readers := s.readers[r := u.(seen := Some(if u.fromHead then s.head else |s.objs|))]))
  }

  function StoreCursor(s: State, r: nat): Outcome {
    if r !in s.readers || s.readers[r].seen == None then Blocked else
      var u := s.readers[r];
      Ok(s.(readers := s.readers[r := u.(seen := None, cursor := u.seen, start := u.seen.value)]))
  }

  function ReaderSteps(s: State, r: nat): Outcome {
    if r !in s.readers || s.readers[r].cursor == None then Blocked else
      var u := s.readers[r];
      var c := u.cursor.value;
      match u.pc
      case Looking =>
        if !Live(s, c) then Crash
        else if c == |s.objs| then Blocked
        else Ok(s.(readers := s.readers[r := u.(pc := Found)]))
      case Found =>
        if !Live(s, c + 1) then Crash
        else if c + 1 == s.head then Ok(s.(readers := s.readers[r := u.(cursor := Some(c + 1), pc := Looking)]))
        else if s.objs[c] !in s.refs then Crash
        else Ok(s.(readers := s.readers[r := u.(pc := Handing, got := u.got + [s.objs[c]])]))
      case Handing =>
        if c >= |s.objs| || s.objs[c] !in s.refs then Crash
        else Ok(s.(readers := s.readers[r := u.(cursor := Some(c + 1), pc := Looking)]))
  }

  // sis_lock_queue_pop: the head is freed and the next node's object taken out.
  function Pop(s: State, cursize: int): Outcome {
    if s.head >= |s.objs| then Crash else
      var x := s.objs[s.head];
      Ok(s.(head := s.head + 1, rnums := s.rnums - 1, pc := Dropping(x),
            cursize := if s.mode.SaveNone? then cursize + s.cost(x) else cursize - s.cost(x)))
  }

  // One round of the watcher's loop, when no reader stands at its cursor w.
  function Reclaim(s: State, w: nat): Outcome {
    if s.mode.SaveNone? then Pop(s, s.cursize)
    else if !Live(s, w) || w == 0 then Crash
    else if !s.mode.SaveSize? then Blocked
    else
      var size := if w > s.head then s.cursize + s.cost(s.objs[w - 1]) else s.cursize;
      if size > s.mode.max then Pop(s, size) else Ok(s.(cursize := size, pc := Stepping))
  }

  // A pass begins; the first one sets the cursor on the first node with an object.
  function BeginPass(s: State): Outcome {
    if s.mode.SaveAll? || (s.watch == None && s.head == |s.objs|) then Blocked
    else Ok(s.(watch := Some(if s.watch == None then s.head + 1 else s.watch.value), pc := Looping))
  }

  function PassStep(s: State, w: nat): Outcome {
    match s.pc
    case Resting => Blocked
    case Looping =>
      if !Live(s, w) then Crash
      else Ok(s.(pc := if w < |s.objs| then Checking(s.users) else Resting))
    case Checking(left) => if left == {} then Ok(s.(pc := Clear)) else Blocked
    case Clear => Reclaim(s, w)
    case Dropping(x) => if x !in s.refs then Crash else Ok(s.(refs := s.refs - multiset{x}, pc := Stepping))
    case Stepping => Ok(s.(watch := Some(w + 1), pc := Looping))
  }

  function WatchStep(s: State): Outcome {
    if s.pc.Resting? then BeginPass(s)
    else if s.watch == None then Blocked
    else PassStep(s, s.watch.value)
  }

  // The check holds the users' lock and looks at the users one by one, while their threads go on.
  function CheckStep(s: State, r: nat): Outcome {
    if !s.pc.Checking? || r !in s.pc.left || s.watch == None then Blocked
    else if r in s.readers && s.readers[r].cursor == s.watch then Ok(s.(pc := Resting))
    else Ok(s.(pc := Checking(s.pc.left - {r})))
  }

  function Step(s: State, a: Action): Outcome {
    match a
    case Share(x) => Ok(s.(refs := s.refs + multiset{x}, others := s.others + multiset{x}))
    case Forget(x) =>
      if x !in s.others then Blocked
      else if x !in s.refs then Crash
      else Ok(s.(refs := s.refs - multiset{x}, others := s.others - multiset{x}))
    case Push(x) =>
      if x !in s.others then Blocked
      else Ok(s.(objs := s.objs + [x], rnums := s.rnums + 1, refs := s.refs + multiset{x}))
    case Open(r, fromHead) =>
      if r in s.readers then Blocked else Ok(s.(readers := s.readers[r := NewReader(fromHead)]))
    case Join(r) =>
      if r !in s.readers || r in s.users || s.pc.Checking? then Blocked else Ok(s.(users := s.users + {r}))
    case Look(r) => LookUp(s, r)
    case Store(r) => StoreCursor(s, r)
    case ReaderStep(r) => ReaderSteps(s, r)
    case Close(r) =>
      if r !in s.users || s.pc.Checking? then Blocked else Ok(s.(readers := s.readers - {r}, users := s.users - {r}))
    case Watch => WatchStep(s)
    case CheckUser(r) => CheckStep(s, r)
  }

  // ---------------------------------------------------------------------------
  // The invariant

  function Total(cost: Obj -> nat, xs: seq<Obj>): nat {
    if xs == [] then 0 else cost(xs[0]) + Total(cost, xs[1..])
  }

  // The watcher has passed its check and will move on from its cursor.
  predicate Passed(pc: WatchPc) { pc.Clear? || pc.Dropping? || pc.Stepping? }

  // The object at the cursor counts already.
  predicate Done(pc: WatchPc) { pc.Dropping? || pc.Stepping? }

  ghost predicate WatcherAt(mode: Mode, objs: seq<Obj>, head: nat, watch: Option<nat>, pc: WatchPc) {
    && head <= |objs|
    && (mode.SaveAll? ==> watch == None)
    && match watch
       case None => head == 0 && pc == Resting
       case Some(w) =>
         && 0 < w <= |objs| && head <= w
         && (pc.Checking? || Passed(pc) ==> w < |objs|)
         && (!Done(pc) ==> head < w)
         && (mode.SaveNone? ==> head == if Done(pc) then w else w - 1)
  }

  /** With a size limit, cursize is what the objects still queued before the watcher's cursor amount to. */
  ghost predicate Accounted(mode: Mode, cost: Obj -> nat, objs: seq<Obj>, head: nat, watch: Option<nat>, pc: WatchPc,
      cursize: int)
  {
    mode.SaveSize? ==>
      if watch == None then cursize == 0 else
        var end := if Done(pc) then watch.value else watch.value - 1;
        0 <= head <= end <= |objs| && cursize == Total(cost, objs[head..end])
  }

  // The watcher's cursor, or where its first pass will set it.
  function Front(watch: Option<nat>): nat { if watch == None then 1 else watch.value }

  // The watcher is past its look at a reader, and will move on.
  predicate PassedBy(pc: WatchPc, r: nat) { (pc.Checking? && r !in pc.left) || Passed(pc) }

  // The reader is among the users, and the watcher has not passed that node.
  predicate AheadOf(users: set<nat>, watch: Option<nat>, pc: WatchPc, r: nat, node: nat) {
    r in users && Front(watch) <= node && (PassedBy(pc, r) ==> Front(watch) < node)
  }

  /** A reader with a cursor is among the users, and the watcher has not passed that cursor. */
  predicate Covered(users: set<nat>, watch: Option<nat>, pc: WatchPc, r: nat, u: Reader) {
    u.cursor.Some? ==> AheadOf(users, watch, pc, r, u.cursor.value)
  }

  ghost predicate NoneExposed(mode: Mode, readers: map<nat, Reader>, users: set<nat>, watch: Option<nat>, pc: WatchPc) {
    !mode.SaveAll? ==> forall r :: r in readers ==> Covered(users, watch, pc, r, readers[r])
  }

  predicate CursorOk(objs: seq<Obj>, u: Reader) {
    match u.cursor
    case None => u.pc.Looking? && (u.seen.Some? ==> u.seen.value <= |objs|)
    case Some(c) => u.seen == None && c <= |objs| && (!u.pc.Looking? ==> c < |objs|)
  }

  ghost predicate Cursors(objs: seq<Obj>, readers: map<nat, Reader>) {
    forall r :: r in readers ==> CursorOk(objs, readers[r])
  }

  ghost predicate UsersAre(readers: map<nat, Reader>, users: set<nat>, pc: WatchPc) {
    users <= readers.Keys && (pc.Checking? ==> pc.left <= users)
  }

  /** A reference for each object still queued, and one for the object being given up. */
  ghost predicate RefsCount(refs: multiset<Obj>, others: multiset<Obj>, objs: seq<Obj>, head: nat, pc: WatchPc) {
    head <= |objs| && refs == others + multiset(objs[head..]) + (if pc.Dropping? then multiset{pc.obj} else multiset{})
  }

  // What holds in every run up to a crash
  ghost predicate Base(s: State) {
    && WatcherAt(s.mode, s.objs, s.head, s.watch, s.pc)
    && Accounted(s.mode, s.cost, s.objs, s.head, s.watch, s.pc, s.cursize)
    && RefsCount(s.refs, s.others, s.objs, s.head, s.pc)
    && Cursors(s.objs, s.readers)
    && UsersAre(s.readers, s.users, s.pc)
    && s.rnums == |s.objs| - s.head
  }

  ghost predicate Inv(s: State) {
    Base(s) && NoneExposed(s.mode, s.readers, s.users, s.watch, s.pc)
  }

  // What a reader's callback has had is what lies between its start and its cursor.
  ghost predicate ReaderOk(objs: seq<Obj>, u: Reader) {
    match u.cursor
    case None => u.pc.Looking? && u.got == [] && (u.seen.Some? ==> u.seen.value <= |objs|)
    case Some(c) =>
      && u.start <= c <= |objs|
      && (!u.pc.Looking? ==> c < |objs|)
      && u.got == if u.pc.Handing? then objs[u.start..c + 1] else objs[u.start..c]
  }

  ghost predicate ReadersOk(objs: seq<Obj>, readers: map<nat, Reader>) {
    forall r :: r in readers ==> ReaderOk(objs, readers[r])
  }

  ghost predicate Kept(r: Outcome) {
    r != Crash && (r.Ok? ==> Base(r.state))
  }

  ghost predicate Safe(r: Outcome) {
    r != Crash && (r.Ok? ==> Inv(r.state))
  }

  // ---------------------------------------------------------------------------
  // What every step keeps

  lemma {:induction false} TotalConcat(cost: Obj -> nat, a: seq<Obj>, b: seq<Obj>)
    ensures Total(cost, a + b) == Total(cost, a) + Total(cost, b)
  {
    if a == [] {
      EmptyLeft(b);
    } else {
      TailOfConcat(a, b);
      TotalConcat(cost, a[1..], b);
    }
  }

  lemma TotalGrows(cost: Obj -> nat, objs: seq<Obj>, i: nat, j: nat)
    requires i <= j < |objs|
    ensures Total(cost, objs[i..j + 1]) == Total(cost, objs[i..j]) + cost(objs[j])
  {
    assert objs[i..j + 1] == objs[i..j] + [objs[j]];
    TotalConcat(cost, objs[i..j], [objs[j]]);
    assert Total(cost, [objs[j]]) == cost(objs[j]) + Total(cost, []);
  }

  lemma TotalEmpty(cost: Obj -> nat, objs: seq<Obj>, i: nat)
    requires i <= |objs|
    ensures Total(cost, objs[i..i]) == 0
  {}

  lemma TotalFirst(cost: Obj -> nat, objs: seq<Obj>, i: nat, j: nat)
    requires i < j <= |objs|
    ensures Total(cost, objs[i..j]) == cost(objs[i]) + Total(cost, objs[i + 1..j])
  {
    assert objs[i..j][1..] == objs[i + 1..j];
  }

  lemma PushSteps(s: State, x: Obj)
    requires Base(s)
    ensures Kept(Step(s, Push(x)))
  {
    PushedAccount(s.mode, s.cost, s.objs, s.head, s.watch, s.pc, s.cursize, x);
    PushedRefs(s.refs, s.others, s.objs, s.head, s.pc, x);
  }

  lemma PushedAccount(mode: Mode, cost: Obj -> nat, objs: seq<Obj>, head: nat, watch: Option<nat>, pc: WatchPc,
      cursize: int, x: Obj)
    requires Accounted(mode, cost, objs, head, watch, pc, cursize)
    ensures Accounted(mode, cost, objs + [x], head, watch, pc, cursize)
  {
    if mode.SaveSize? && watch.Some? {
      var end := if Done(pc) then watch.value else watch.value - 1;
      assert (objs + [x])[head..end] == objs[head..end];
    }
  }

  lemma PushedRefs(refs: multiset<Obj>, others: multiset<Obj>, objs: seq<Obj>, head: nat, pc: WatchPc, x: Obj)
    requires RefsCount(refs, others, objs, head, pc)
    ensures RefsCount(refs + multiset{x}, others, objs + [x], head, pc)
  {
    assert (objs + [x])[head..] == objs[head..] + [x];
  }

  // Steps that change readers and users only
  lemma WithReaders(s: State, readers: map<nat, Reader>, users: set<nat>)
    requires Base(s) && Cursors(s.objs, readers) && UsersAre(readers, users, s.pc)
    ensures Base(s.(readers := readers, users := users))
  {}

  lemma CursorsSet(objs: seq<Obj>, readers: map<nat, Reader>, r: nat, u: Reader)
    requires Cursors(objs, readers) && CursorOk(objs, u)
    ensures Cursors(objs, readers[r := u])
  {}

  lemma CursorsDrop(objs: seq<Obj>, readers: map<nat, Reader>, r: nat)
    requires Cursors(objs, readers)
    ensures Cursors(objs, readers - {r})
  {}

  lemma SetReader(s: State, r: nat, u: Reader)
    requires Base(s) && CursorOk(s.objs, u)
    ensures Base(s.(readers := s.readers[r := u]))
  {
    CursorsSet(s.objs, s.readers, r, u);
    WithReaders(s, s.readers[r := u], s.users);
  }

  lemma UserSteps(s: State, a: Action)
    requires Base(s) && (a.Open? || a.Join? || a.Close? || a.Look? || a.Store?)
    ensures Kept(Step(s, a))
  {
    match a
    case Open(r, fromHead) => SetReader(s, r, NewReader(fromHead));
    case Look(r) => if LookUp(s, r).Ok? { LookKeeps(s, r); }
    case Store(r) => if StoreCursor(s, r).Ok? { StoreKeeps(s, r); }
    case Join(r) =>
      if r in s.readers && !s.pc.Checking? {
        WithReaders(s, s.readers, s.users + {r});
      }
    case Close(r) =>
      CursorsDrop(s.objs, s.readers, r);
      if !s.pc.Checking? {
        WithReaders(s, s.readers - {r}, s.users - {r});
      }
  }

  lemma LookKeeps(s: State, r: nat)
    requires Base(s) && LookUp(s, r).Ok?
    ensures Base(LookUp(s, r).state)
  {
    assert CursorOk(s.objs, s.readers[r]);
    SetReader(s, r, LookUp(s, r).state.readers[r]);
  }

  lemma StoreKeeps(s: State, r: nat)
    requires Base(s) && StoreCursor(s, r).Ok?
    ensures Base(StoreCursor(s, r).state)
  {
    assert CursorOk(s.objs, s.readers[r]);
    SetReader(s, r, StoreCursor(s, r).state.readers[r]);
  }

  lemma GiveAndTake(s: State, a: Action)
    requires Base(s) && (a.Share? || a.Forget?)
    ensures Kept(Step(s, a))
  {
    if a.Forget? {
      assert a.obj in s.others ==> a.obj in s.refs;
    }
  }

  lemma QueuedIsHeld(refs: multiset<Obj>, others: multiset<Obj>, objs: seq<Obj>, head: nat, pc: WatchPc, i: nat)
    requires RefsCount(refs, others, objs, head, pc) && head <= i < |objs|
    ensures objs[i] in refs
  {
    assert objs[i] == objs[head..][i - head];
    assert objs[i] in multiset(objs[head..]);
  }

  lemma ReaderStepKeeps(s: State, r: nat)
    requires Base(s) && ReaderSteps(s, r).Ok?
    ensures Base(ReaderSteps(s, r).state)
  {
    var u' := ReaderSteps(s, r).state.readers[r];
    assert CursorOk(s.objs, s.readers[r]) && CursorOk(s.objs, u');
    SetReader(s, r, u');
  }

  lemma WatchSteps(s: State)
    requires Base(s)
    ensures Kept(WatchStep(s))
  {
    match s.pc
    case Resting => BeginSteps(s);
    case Clear => ReclaimSteps(s);
    case Dropping(x) => DropSteps(s, x);
    case _ =>
  }

  lemma BeginSteps(s: State)
    requires Base(s) && s.pc.Resting?
    ensures Kept(BeginPass(s))
  {
    TotalEmpty(s.cost, s.objs, s.head);
  }

  lemma CheckSteps(s: State, r: nat)
    requires Base(s)
    ensures Kept(CheckStep(s, r))
  {
    if s.pc.Checking? && r in s.pc.left {
      CheckedKeeps(s, Resting);
      CheckedKeeps(s, Checking(s.pc.left - {r}));
    }
  }

  lemma CheckedKeeps(s: State, pc: WatchPc)
    requires Base(s) && s.pc.Checking? && (pc.Resting? || (pc.Checking? && pc.left <= s.pc.left))
    ensures Base(s.(pc := pc))
  {}

  lemma DropSteps(s: State, x: Obj)
    requires Base(s) && s.pc == Dropping(x)
    ensures Kept(WatchStep(s))
  {
    assert x in s.refs;
    assert s.refs - multiset{x} == s.others + multiset(s.objs[s.head..]);
  }

  lemma ReclaimSteps(s: State)
    requires Base(s) && s.pc.Clear?
    ensures Kept(WatchStep(s))
  {
    var w := s.watch.value;
    assert WatchStep(s) == Reclaim(s, w);
    if s.mode.SaveSize? {
      SizeSteps(s, w);
    } else {
      PopKeeps(s, w, s.cursize + s.cost(s.objs[s.head]));
    }
  }

  lemma SizeSteps(s: State, w: nat)
    requires Base(s) && s.pc.Clear? && s.mode.SaveSize? && s.watch == Some(w)
    ensures Kept(Reclaim(s, w))
  {
    assert s.head < w && Live(s, w);
    var size := s.cursize + s.cost(s.objs[w - 1]);
    assert Reclaim(s, w) == if size > s.mode.max then Pop(s, size) else Ok(s.(cursize := size, pc := Stepping));
    Reaccounted(s.mode, s.cost, s.objs, s.head, w, s.cursize);
    if size > s.mode.max {
      PopKeeps(s, w, size - s.cost(s.objs[s.head]));
    }
  }

  lemma PopKeeps(s: State, w: nat, cursize: int)
    requires Base(s) && s.pc.Clear? && s.watch == Some(w)
    requires Accounted(s.mode, s.cost, s.objs, s.head + 1, s.watch, Dropping(s.objs[s.head]), cursize)
    ensures s.head < |s.objs| &&
      Base(s.(head := s.head + 1, rnums := s.rnums - 1, pc := Dropping(s.objs[s.head]), cursize := cursize))
  {
    PoppedRefs(s.refs, s.others, s.objs, s.head);
  }

  // The object at the cursor is counted in, and the one popped, if any, out.
  lemma Reaccounted(mode: Mode, cost: Obj -> nat, objs: seq<Obj>, head: nat, w: nat, cursize: int)
    requires mode.SaveSize? && head < w <= |objs| && Accounted(mode, cost, objs, head, Some(w), Clear, cursize)
    ensures Accounted(mode, cost, objs, head, Some(w), Stepping, cursize + cost(objs[w - 1]))
    ensures Accounted(mode, cost, objs, head + 1, Some(w), Dropping(objs[head]),
      cursize + cost(objs[w - 1]) - cost(objs[head]))
  {
    TotalGrows(cost, objs, head, w - 1);
    TotalFirst(cost, objs, head, w);
  }

  lemma PoppedRefs(refs: multiset<Obj>, others: multiset<Obj>, objs: seq<Obj>, head: nat)
    requires RefsCount(refs, others, objs, head, Clear) && head < |objs|
    ensures RefsCount(refs, others, objs, head + 1, Dropping(objs[head]))
  {
    assert objs[head..] == [objs[head]] + objs[head + 1..];
  }

  // Whatever the readers do, only their own steps can crash.
  lemma StepKeeps(s: State, a: Action)
    requires Base(s)
    ensures Step(s, a).Ok? ==> Base(Step(s, a).state)
    ensures !a.ReaderStep? ==> Step(s, a) != Crash
  {
    match a
    case Push(x) => PushSteps(s, x);
    case ReaderStep(r) => if ReaderSteps(s, r).Ok? { ReaderStepKeeps(s, r); }
    case Watch => WatchSteps(s);
    case CheckUser(r) => CheckSteps(s, r);
    case Share(_) => GiveAndTake(s, a);
    case Forget(_) => GiveAndTake(s, a);
    case _ => UserSteps(s, a);
  }

  // ---------------------------------------------------------------------------
  // Covered readers

  /** What the list asks of a reader that stores the node it looked up, unless it keeps everything: to be
      among the users by then, and that the watcher has not passed that node in the meantime. */
  predicate Guarded(s: State, a: Action) {
    a.Store? && a.r in s.readers && s.readers[a.r].seen.Some? ==>
      s.mode.SaveAll? || AheadOf(s.users, s.watch, s.pc, a.r, s.readers[a.r].seen.value)
  }

  /** What a reader can see to when it looks: to be among the users, to start at the tail, and that
      something has been pushed. */
  predicate Ready(s: State, r: nat) {
    r in s.users && r in s.readers && !s.readers[r].fromHead && s.objs != []
  }

  lemma AtOrAfterHead(s: State, r: nat)
    requires Inv(s) && r in s.readers && s.readers[r].cursor.Some?
    ensures s.head <= s.readers[r].cursor.value <= |s.objs|
  {}

  lemma ReaderSafe(s: State, r: nat)
    requires Inv(s)
    ensures ReaderSteps(s, r) != Crash
    ensures ReaderSteps(s, r).Ok? ==>
      ReaderSteps(s, r).state.readers[r].cursor.Some? &&
        ReaderSteps(s, r).state.readers[r].cursor.value >= s.readers[r].cursor.value
  {
    if r in s.readers && s.readers[r].cursor.Some? {
      AtOrAfterHead(s, r);
      if !s.readers[r].pc.Looking? {
        QueuedIsHeld(s.refs, s.others, s.objs, s.head, s.pc, s.readers[r].cursor.value);
      }
    }
  }

  lemma CoveredSet(mode: Mode, readers: map<nat, Reader>, users: set<nat>, watch: Option<nat>, pc: WatchPc, r: nat,
      u: Reader)
    requires NoneExposed(mode, readers, users, watch, pc) && (!mode.SaveAll? ==> Covered(users, watch, pc, r, u))
    ensures NoneExposed(mode, readers[r := u], users, watch, pc)
  {}

  lemma CoveredUsers(mode: Mode, readers: map<nat, Reader>, users: set<nat>, watch: Option<nat>, pc: WatchPc, r: nat)
    requires NoneExposed(mode, readers, users, watch, pc)
    ensures NoneExposed(mode, readers, users + {r}, watch, pc) &&
      NoneExposed(mode, readers - {r}, users - {r}, watch, pc)
  {}

  ghost predicate Shielded(s: State) {
    NoneExposed(s.mode, s.readers, s.users, s.watch, s.pc)
  }

  // The watcher's own steps pass no covered reader.
  lemma WatchCovers(s: State)
    requires Inv(s) && WatchStep(s).Ok?
    ensures Shielded(WatchStep(s).state)
  {
    var s' := WatchStep(s).state;
    SameInWatch(s);
    if !s.mode.SaveAll? {
      forall r | r in s.readers ensures Covered(s.users, s'.watch, s'.pc, r, s.readers[r]) {
        WatchCoversOne(s, r);
      }
    }
  }

  lemma WatchCoversOne(s: State, r: nat)
    requires Inv(s) && WatchStep(s).Ok? && !s.mode.SaveAll? && r in s.readers
    ensures Covered(s.users, WatchStep(s).state.watch, WatchStep(s).state.pc, r, s.readers[r])
  {
    var s' := WatchStep(s).state;
    assert Covered(s.users, s.watch, s.pc, r, s.readers[r]);
    match s.pc
    case Clear => assert s'.watch == s.watch && Passed(s'.pc);
    case _ =>
  }

  lemma CheckCovers(s: State, u: nat)
    requires Inv(s) && CheckStep(s, u).Ok?
    ensures Shielded(CheckStep(s, u).state)
  {
    var s' := CheckStep(s, u).state;
    forall r | r in s.readers && !s.mode.SaveAll? ensures Covered(s.users, s.watch, s'.pc, r, s.readers[r]) {
      assert Covered(s.users, s.watch, s.pc, r, s.readers[r]);
    }
  }

  lemma StoreCovers(s: State, r: nat)
    requires Inv(s) && Guarded(s, Store(r)) && StoreCursor(s, r).Ok?
    ensures Shielded(StoreCursor(s, r).state)
  {
    CoveredSet(s.mode, s.readers, s.users, s.watch, s.pc, r, StoreCursor(s, r).state.readers[r]);
  }

  lemma ReaderCovers(s: State, r: nat)
    requires Inv(s) && ReaderSteps(s, r).Ok?
    ensures Shielded(ReaderSteps(s, r).state)
  {
    ReaderSafe(s, r);
    var u' := ReaderSteps(s, r).state.readers[r];
    assert !s.mode.SaveAll? ==> Covered(s.users, s.watch, s.pc, r, s.readers[r]);
    CoveredSet(s.mode, s.readers, s.users, s.watch, s.pc, r, u');
  }

  // With every reader covered, a guarded step crashes nothing and leaves every reader covered.
  lemma StaysCovered(s: State, a: Action)
    requires Inv(s) && Guarded(s, a)
    ensures Step(s, a) != Crash
    ensures Step(s, a).Ok? ==> Shielded(Step(s, a).state)
  {
    match a
    case Watch => StepKeeps(s, a); if WatchStep(s).Ok? { WatchCovers(s); }
    case CheckUser(r) => if CheckStep(s, r).Ok? { CheckCovers(s, r); }
    case Look(r) =>
      if LookUp(s, r).Ok? {
        CoveredSet(s.mode, s.readers, s.users, s.watch, s.pc, r, LookUp(s, r).state.readers[r]);
      }
    case Store(r) => if StoreCursor(s, r).Ok? { StoreCovers(s, r); }
    case ReaderStep(r) => ReaderSafe(s, r); if ReaderSteps(s, r).Ok? { ReaderCovers(s, r); }
    case Open(r, fromHead) => CoveredSet(s.mode, s.readers, s.users, s.watch, s.pc, r, NewReader(fromHead));
    case Join(r) => CoveredUsers(s.mode, s.readers, s.users, s.watch, s.pc, r);
    case Close(r) => CoveredUsers(s.mode, s.readers, s.users, s.watch, s.pc, r);
    case _ => StepKeeps(s, a);
  }

  lemma StepSafe(s: State, a: Action)
    requires Inv(s) && Guarded(s, a)
    ensures Safe(Step(s, a))
  {
    StaysCovered(s, a);
    StepKeeps(s, a);
  }

  // Looked up and stored with nothing in between
  function AtOnce(s: State, r: nat): State
    requires r in s.readers
  {
    var u := s.readers[r];
    var c := if u.fromHead then s.head else |s.objs|;
    s.(readers := s.readers[r := u.(cursor := Some(c), start := c)])
  }

  /** Where nothing comes between the two, it is enough to be ready, and needed unless all is kept. */
  lemma TakeExact(s: State, r: nat)
    requires Inv(s) && r in s.readers && s.readers[r].cursor == None && s.readers[r].seen == None
    ensures LookUp(s, r).Ok? && StoreCursor(LookUp(s, r).state, r) == Ok(AtOnce(s, r))
    ensures Inv(AtOnce(s, r)) <==> s.mode.SaveAll? || Ready(s, r)
  {
    var s1 := LookUp(s, r).state;
    StepKeeps(s, Look(r));
    StepKeeps(s1, Store(r));
    StaysCovered(s, Look(r));
    assert s1.readers[r := AtOnce(s, r).readers[r]] == AtOnce(s, r).readers;
    if s.mode.SaveAll? || Ready(s, r) {
      StoreCovers(s1, r);
    } else {
      var s' := AtOnce(s, r);
      assert !Covered(s'.users, s'.watch, s'.pc, r, s'.readers[r]);
    }
  }

  // ---------------------------------------------------------------------------
  // Runs

  // What is asked of the readers: nothing, to be ready when they look, or to be ahead of the watcher when
  // they store.
  datatype Rule = Free | ReadyFirst | AheadAtStore

  predicate Allowed(rule: Rule, s: State, a: Action) {
    match rule
    case Free => true
    case ReadyFirst => a.Look? ==> Ready(s, a.r)
    case AheadAtStore => Guarded(s, a)
  }

  // A schedule's actions in turn; one that cannot be taken now is passed over, and so is one that breaks
  // the rule.
  function Run(s: State, schedule: seq<Action>, rule: Rule): Outcome
    decreases |schedule|
  {
    if schedule == [] then Ok(s)
    else if !Allowed(rule, s, schedule[0]) then Run(s, schedule[1..], rule)
    else
      match Step(s, schedule[0])
      case Blocked => Run(s, schedule[1..], rule)
      case Crash => Crash
      case Ok(s') => Run(s', schedule[1..], rule)
  }

  /** From a state with every reader covered no run that keeps the rule touches freed memory, and every
      such run keeps the invariant. */
  lemma {:induction false} RunSafe(s: State, schedule: seq<Action>)
    requires Inv(s)
    ensures Run(s, schedule, AheadAtStore).Ok? && Inv(Run(s, schedule, AheadAtStore).state)
    decreases |schedule|
  {
    if schedule != [] {
      var a := schedule[0];
      if Guarded(s, a) {
        StepSafe(s, a);
        match Step(s, a)
        case Blocked => RunSafe(s, schedule[1..]);
        case Ok(s') => RunSafe(s', schedule[1..]);
      } else {
        RunSafe(s, schedule[1..]);
      }
    }
  }

  // Actions of others than the watcher, with the reader open throughout
  predicate LeavesAlone(r: nat, a: Action) { !a.Watch? && !a.CheckUser? && a != Close(r) }

  // The reader is among the users, and ahead of the watcher with the node it looked up or has its cursor.
  ghost predicate StillAhead(readers: map<nat, Reader>, users: set<nat>, watch: Option<nat>, pc: WatchPc, r: nat) {
    && r in readers && r in users && (readers[r].seen.Some? || readers[r].cursor.Some?)
    && (readers[r].seen.Some? ==> AheadOf(users, watch, pc, r, readers[r].seen.value))
  }

  ghost predicate Staying(s: State, r: nat) {
    Inv(s) && StillAhead(s.readers, s.users, s.watch, s.pc, r)
  }

  lemma AloneStays(s: State, r: nat, a: Action)
    requires Staying(s, r) && LeavesAlone(r, a) && Step(s, a).Ok?
    ensures var s' := Step(s, a).state; StillAhead(s'.readers, s'.users, s'.watch, s'.pc, r)
  {
    match a
    case Store(k) => OtherOrOn(s, r, k, StoreCursor(s, k).state.readers[k]);
    case Look(k) => OtherOrOn(s, r, k, LookUp(s, k).state.readers[k]);
    case ReaderStep(k) => StepsOn(s, r, k);
    case Open(k, fromHead) => OtherOrOn(s, r, k, NewReader(fromHead));
    case Join(_) =>
    case Close(_) =>
    case Push(_) =>
    case Share(_) =>
    case Forget(_) =>
  }

  lemma OtherOrOn(s: State, r: nat, k: nat, u: Reader)
    requires Staying(s, r) && (k == r ==> u.seen == None && u.cursor.Some?)
    ensures StillAhead(s.readers[k := u], s.users, s.watch, s.pc, r)
  {}

  lemma StepsOn(s: State, r: nat, k: nat)
    requires Staying(s, r) && ReaderSteps(s, k).Ok?
    ensures StillAhead(ReaderSteps(s, k).state.readers, s.users, s.watch, s.pc, r)
  {
    ReaderSafe(s, k);
    var u := ReaderSteps(s, k).state.readers[k];
    assert CursorOk(s.objs, s.readers[k]);
    OtherOrOn(s, r, k, u);
  }

  lemma {:induction false} StaysAhead(s: State, r: nat, schedule: seq<Action>)
    requires Staying(s, r) && forall a :: a in schedule ==> LeavesAlone(r, a)
    ensures Run(s, schedule, AheadAtStore).Ok? && Staying(Run(s, schedule, AheadAtStore).state, r)
    decreases |schedule|
  {
    if schedule != [] {
      var a := schedule[0];
      if Guarded(s, a) {
        StepSafe(s, a);
        match Step(s, a)
        case Blocked => StaysAhead(s, r, schedule[1..]);
        case Ok(s') =>
          AloneStays(s, r, a);
          StaysAhead(s', r, schedule[1..]);
      } else {
        StaysAhead(s, r, schedule[1..]);
      }
    }
  }

  /** If the watcher takes no step between the two, a reader that is ready when it looks keeps the rule when it
      stores, whatever else is done in between. */
  lemma Undisturbed(s: State, r: nat, schedule: seq<Action>)
    requires Inv(s) && Ready(s, r) && LookUp(s, r).Ok? && forall a :: a in schedule ==> LeavesAlone(r, a)
    ensures var o := Run(LookUp(s, r).state, schedule, AheadAtStore); o.Ok? && Guarded(o.state, Store(r))
  {
    StepSafe(s, Look(r));
    var s1 := LookUp(s, r).state;
    assert Staying(s1, r);
    StaysAhead(s1, r, schedule);
  }

  // ---------------------------------------------------------------------------
  // What the readers have had

  ghost predicate History(s: State) { Inv(s) && ReadersOk(s.objs, s.readers) }

  lemma PushedReaders(objs: seq<Obj>, readers: map<nat, Reader>, x: Obj)
    requires ReadersOk(objs, readers)
    ensures ReadersOk(objs + [x], readers)
  {
    forall r | r in readers ensures ReaderOk(objs + [x], readers[r]) {
      var u := readers[r];
      assert ReaderOk(objs, u);
      if u.cursor.Some? {
        assert (objs + [x])[u.start..u.cursor.value] == objs[u.start..u.cursor.value];
        if u.pc.Handing? {
          assert (objs + [x])[u.start..u.cursor.value + 1] == objs[u.start..u.cursor.value + 1];
        }
      }
    }
  }

  lemma ReaderGoesOn(objs: seq<Obj>, u: Reader, u': Reader)
    requires ReaderOk(objs, u) && u.cursor.Some?
    requires match u.pc
             case Looking => u.cursor.value < |objs| && u' == u.(pc := Found)
             case Found => u' == u.(pc := Handing, got := u.got + [objs[u.cursor.value]])
             case Handing => u' == u.(cursor := Some(u.cursor.value + 1), pc := Looking)
    ensures ReaderOk(objs, u')
  {
    if u.pc.Found? {
      assert objs[u.start..u.cursor.value + 1] == objs[u.start..u.cursor.value] + [objs[u.cursor.value]];
    }
  }

  lemma ReadersSet(objs: seq<Obj>, readers: map<nat, Reader>, r: nat, u: Reader)
    requires ReadersOk(objs, readers) && ReaderOk(objs, u)
    ensures ReadersOk(objs, readers[r := u])
  {}

  lemma TakeHistory(s: State, r: nat)
    requires ReadersOk(s.objs, s.readers) && s.head <= |s.objs|
    ensures LookUp(s, r).Ok? ==> ReadersOk(s.objs, LookUp(s, r).state.readers)
    ensures StoreCursor(s, r).Ok? && s.readers[r].cursor == None ==> ReadersOk(s.objs, StoreCursor(s, r).state.readers)
  {
    if r in s.readers && s.readers[r].cursor == None {
      assert ReaderOk(s.objs, s.readers[r]);
      if LookUp(s, r).Ok? {
        ReadersSet(s.objs, s.readers, r, LookUp(s, r).state.readers[r]);
      } else {
        var c := s.readers[r].seen.value;
        assert s.objs[c..c] == [];
        ReadersSet(s.objs, s.readers, r, StoreCursor(s, r).state.readers[r]);
      }
    }
  }

  lemma ReaderHistory(s: State, r: nat)
    requires History(s) && ReaderSteps(s, r).Ok?
    ensures ReadersOk(s.objs, ReaderSteps(s, r).state.readers)
  {
    AtOrAfterHead(s, r);
    assert ReaderOk(s.objs, s.readers[r]);
    var u' := ReaderSteps(s, r).state.readers[r];
    ReaderGoesOn(s.objs, s.readers[r], u');
    ReadersSet(s.objs, s.readers, r, u');
  }

  lemma StepHistory(s: State, a: Action)
    requires History(s) && Step(s, a).Ok?
    ensures var s' := Step(s, a).state; ReadersOk(s'.objs, s'.readers)
  {
    match a
    case Push(x) => PushedReaders(s.objs, s.readers, x);
    case Open(r, fromHead) => ReadersSet(s.objs, s.readers, r, NewReader(fromHead));
    case Look(r) => TakeHistory(s, r);
    case Store(r) =>
      assert CursorOk(s.objs, s.readers[r]);
      TakeHistory(s, r);
    case ReaderStep(r) => ReaderHistory(s, r);
    case Close(r) => ReadersDrop(s.objs, s.readers, r);
    case _ => SameReaders(s, a);
  }

  lemma ReadersDrop(objs: seq<Obj>, readers: map<nat, Reader>, r: nat)
    requires ReadersOk(objs, readers)
    ensures ReadersOk(objs, readers - {r})
  {}

  lemma SameReaders(s: State, a: Action)
    requires (a.Watch? || a.CheckUser? || a.Join? || a.Share? || a.Forget?) && Step(s, a).Ok?
    ensures Step(s, a).state.readers == s.readers && Step(s, a).state.objs == s.objs
  {
    match a
    case Watch => SameInWatch(s);
    case CheckUser(r) =>
    case Join(r) =>
    case Share(x) =>
    case Forget(x) =>
  }

  lemma SameInWatch(s: State)
    requires WatchStep(s).Ok?
    ensures var s' := WatchStep(s).state;
      s'.readers == s.readers && s'.users == s.users && s'.objs == s.objs && s'.mode == s.mode
  {
    match s.pc
    case Clear =>
    case _ =>
  }

  lemma {:induction false} RunHistory(s: State, schedule: seq<Action>)
    requires History(s)
    ensures Run(s, schedule, AheadAtStore).Ok? && History(Run(s, schedule, AheadAtStore).state)
    decreases |schedule|
  {
    if schedule != [] {
      var a := schedule[0];
      if Guarded(s, a) {
        StepSafe(s, a);
        match Step(s, a)
        case Blocked => RunHistory(s, schedule[1..]);
        case Ok(s') =>
          StepHistory(s, a);
          RunHistory(s', schedule[1..]);
      } else {
        RunHistory(s, schedule[1..]);
      }
    }
  }

  lemma CreatedInv(mode: Mode, cost: Obj -> nat, others: multiset<Obj>)
    ensures History(Created(mode, cost, others))
  {}

  /** Whatever the schedule, if readers store their first cursors as they should: what a reader's callback has
      had is what was pushed from its start on, in order; no reader is behind the watcher's cursor, and
      only nodes before it are freed; and with a size limit, between two passes, cursize is what the
      objects still queued before that cursor amount to. */
  lemma Reclaimed(mode: Mode, cost: Obj -> nat, others: multiset<Obj>, schedule: seq<Action>) returns (s': State)
    ensures Run(Created(mode, cost, others), schedule, AheadAtStore) == Ok(s')
    ensures forall r :: r in s'.readers && s'.readers[r].cursor.Some? && s'.readers[r].pc.Looking? ==>
      var u := s'.readers[r]; u.start <= u.cursor.value <= |s'.objs| && u.got == s'.objs[u.start..u.cursor.value]
    ensures forall r :: r in s'.readers && s'.readers[r].cursor.Some? ==>
      Live(s', s'.readers[r].cursor.value) && (s'.watch.Some? ==> s'.watch.value <= s'.readers[r].cursor.value)
    ensures s'.watch.Some? ==> s'.head <= s'.watch.value && (s'.pc == Resting ==> s'.head < s'.watch.value <= |s'.objs|)
    ensures s'.mode.SaveSize? && s'.pc == Resting && s'.watch.Some? ==>
      s'.cursize == Total(s'.cost, s'.objs[s'.head..s'.watch.value - 1])
  {
    var s := Created(mode, cost, others);
    CreatedInv(mode, cost, others);
    RunHistory(s, schedule);
    s' := Run(s, schedule, AheadAtStore).state;
    ReadersAre(s');
  }

  lemma ReadersAre(s: State)
    requires History(s)
    ensures forall r :: r in s.readers && s.readers[r].cursor.Some? && s.readers[r].pc.Looking? ==>
      var u := s.readers[r]; u.start <= u.cursor.value <= |s.objs| && u.got == s.objs[u.start..u.cursor.value]
    ensures forall r :: r in s.readers && s.readers[r].cursor.Some? ==>
      Live(s, s.readers[r].cursor.value) && (s.watch.Some? ==> s.watch.value <= s.readers[r].cursor.value)
  {
    forall r | r in s.readers && s.readers[r].cursor.Some?
      ensures Live(s, s.readers[r].cursor.value) && ReaderOk(s.objs, s.readers[r]) {
      AtOrAfterHead(s, r);
    }
  }
}
