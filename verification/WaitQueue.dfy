/** The wait queue of src/core/sis_list.lock.c: an object is delivered, to the pusher or through the
    callback of the reader thread, only when the one delivered before has been dealt with. Every
    operation runs under the queue's lock, so the threads' operations come one after another in some
    order. */
module WaitQueue {
  import opened Options
  import opened Sequences

  type Obj(==, !new)

  // What the lock sees happen: a delivery, set_busy(0), set_busy(1).
  datatype Event = Delivered(obj: Obj) | Released | Held

  // pushed and log are history; others are the references held outside the queue.
  datatype State = State(busy: bool, count: int, waiting: seq<Obj>, refs: multiset<Obj>, pushed: seq<Obj>,
    log: seq<Event>)

  function Pushed(s: State, x: Obj): (State, Option<Obj>) {
    if !s.busy && s.count == 0 then
      (s.(busy := true, pushed := s.pushed + [x], log := s.log + [Delivered(x)]), Some(x))
    else
      (s.(waiting := s.waiting + [x], count := s.count + 1, refs := s.refs + multiset{x}, pushed := s.pushed + [x]),
        None)
  }

  // One round of the reader thread.
  function Turned(s: State): (State, Option<Obj>) {
    if s.busy || s.count <= 0 || s.waiting == [] then (s, None) else
      var x := s.waiting[0];
      (s.(busy := true, waiting := s.waiting[1..], count := s.count - 1, refs := s.refs - multiset{x},
        log := s.log + [Delivered(x)]),
       Some(x))
  }

  function BusySet(s: State, busy: bool): State {
    s.(busy := busy, log := s.log + [if busy then Held else Released])
  }

  // ---------------------------------------------------------------------------
  // The queue in place

  // s_sis_unlock_node; the first node of a queue has an object no more, or never had one
  class Node {
    const obj: Option<Obj>
    var next: Node?

    constructor (obj: Option<Obj>)
      ensures this.obj == obj && next == null
    {
      this.obj, next := obj, null;
    }
  }

  function Objects(nodes: seq<Node>): (r: seq<Obj>)
    requires forall n :: n in nodes ==> n.obj.Some?
    ensures |r| == |nodes|
  {
    seq(|nodes|, i requires 0 <= i < |nodes| => nodes[i].obj.value)
  }

  lemma OneTaken(was: seq<Obj>)
    requires was != []
    ensures multiset(was) == multiset{was[0]} + multiset(was[1..])
  {
    assert was == [was[0]] + was[1..];
  }

  class Queue {
    var busy: bool
    var count: int
    var head: Node
    var tail: Node
    ghost var nodes: seq<Node>
    ghost var refs: multiset<Obj>
    ghost var pushed: seq<Obj>
    ghost var log: seq<Event>

    // The nodes are linked from head to tail, and all but the first hold what waits.
    ghost predicate Valid()
      reads this, nodes
    {
      && nodes != [] && head == nodes[0] && tail == nodes[|nodes| - 1] && tail.next == null && count == |nodes| - 1
      && (forall i :: 0 <= i < |nodes| - 1 ==> nodes[i].next == nodes[i + 1])
      && (forall i, j :: 0 <= i < j < |nodes| ==> nodes[i] != nodes[j])
      && forall i :: 0 < i < |nodes| ==> nodes[i].obj.Some?
    }

    ghost function Waiting(): seq<Obj>
      requires Valid()
      reads this, nodes
    {
      Objects(nodes[1..])
    }

    ghost function Now(): State
      requires Valid()
      reads this, nodes
    {
      State(busy, count, Waiting(), refs, pushed, log)
    }

    constructor (ghost others: multiset<Obj>)
      ensures Valid() && Now() == Created(others) && forall n :: n in nodes ==> fresh(n)
    {
      var first := new Node(None);
      busy, count, head, tail, nodes, refs, pushed, log := false, 0, first, first, [first], others, [], [];
    }

    /** sis_wait_queue_push: the object comes straight back, for the caller to deal with, exactly when nobody is
        dealing with one and none waits. Else it waits, behind all others, and the queue holds a reference to it. */
    method Push(x: Obj) returns (r: Option<Obj>)
      requires Valid()
      modifies this, nodes
      ensures Valid() && forall n :: n in nodes ==> n in old(nodes) || fresh(n)
      ensures r == if !old(busy) && old(Waiting()) == [] then Some(x) else None
      ensures busy == (old(busy) || r.Some?)
      ensures Waiting() == old(Waiting()) + if r.Some? then [] else [x]
      ensures (Now(), r) == Pushed(old(Now()), x)
    {
      pushed := pushed + [x];
      if !busy && count == 0 {
        r := Some(x);
        busy := true;
        log := log + [Delivered(x)];
      } else {
        r := None;
        refs := refs + multiset{x};
        var node := new Node(Some(x));
        tail.next := node;
        tail := node;
        count := count + 1;
        assert Objects(nodes[1..] + [node]) == Objects(nodes[1..]) + [x];
        assert (nodes + [node])[1..] == nodes[1..] + [node];
        nodes := nodes + [node];
      }
    }

    // sis_wait_queue_pop: the node of the object taken is the first one from now on.
    method Pop() returns (r: Option<Obj>)
      requires Valid()
      modifies this`head, this`count, this`nodes
      ensures Valid() && forall n :: n in nodes ==> n in old(nodes)
      ensures count == old(count) - if r.Some? then 1 else 0
      ensures old(Waiting()) == [] ==> r == None && Waiting() == []
      ensures old(Waiting()) != [] ==> r == Some(old(Waiting())[0]) && Waiting() == old(Waiting())[1..]
    {
      r := None;
      if count > 0 {
        var first := head;
        if first.next != null {
          r := first.next.obj;
          head := first.next;
          count := count - 1;
          nodes := nodes[1..];
        }
      }
    }

    /** A round of the reader thread; the callback is handed what is returned: the object that has waited longest,
        exactly when nobody is dealing with one. */
    method Turn() returns (r: Option<Obj>)
      requires Valid()
      modifies this
      ensures Valid() && forall n :: n in nodes ==> n in old(nodes)
      ensures r == if old(busy) || old(Waiting()) == [] then None else Some(old(Waiting())[0])
      ensures busy == (old(busy) || r.Some?)
      ensures Waiting() == if r.Some? then old(Waiting())[1..] else old(Waiting())
      ensures (Now(), r) == Turned(old(Now()))
    {
      r := None;
      if !busy {
        r := Pop();
        if r.Some? {
          busy := true;
          log := log + [Delivered(r.value)];
        }
      }
      if r.Some? {
        refs := refs - multiset{r.value};
      }
    }

    method SetBusy(b: bool)
      requires Valid()
      modifies this`busy, this`log
      ensures Valid() && Now() == BusySet(old(Now()), b)
    {
      busy := b;
      log := log + [if b then Held else Released];
    }

    /** sis_wait_queue_destroy, the reader stopped: what waits is given up, each object once, and the one node that
        is left is the one freed last. */
    method Destroy(ghost others: multiset<Obj>)
      requires Valid() && refs == others + multiset(Waiting())
      modifies this
      ensures Valid() && Waiting() == [] && head == tail && refs == others
    {
      while count > 0
        invariant Valid() && refs == others + multiset(Waiting())
        decreases count
      {
        GiveUp(others);
      }
    }

    method GiveUp(ghost others: multiset<Obj>)
      requires Valid() && refs == others + multiset(Waiting()) && count > 0
      modifies this
      ensures Valid() && refs == others + multiset(Waiting()) && count == old(count) - 1
    {
      OneTaken(Waiting());
      var x := Pop();
      refs := refs - multiset{x.value};
    }
  }

  // ---------------------------------------------------------------------------
  // Runs

  datatype Op = Push(obj: Obj) | Turn | SetBusy(busy: bool)

  function Apply(s: State, op: Op): State {
    match op
    case Push(x) => Pushed(s, x).0
    case Turn => Turned(s).0
    case SetBusy(b) => BusySet(s, b)
  }

  function Run(s: State, ops: seq<Op>): State
    decreases |ops|
  {
    if ops == [] then s else Run(Apply(s, ops[0]), ops[1..])
  }

  function Deliveries(log: seq<Event>): seq<Obj> {
    if log == [] then [] else (if log[0].Delivered? then [log[0].obj] else []) + Deliveries(log[1..])
  }

  lemma {:induction false} DeliveriesPush(log: seq<Event>, e: Event)
    ensures Deliveries(log + [e]) == Deliveries(log) + if e.Delivered? then [e.obj] else []
  {
    if log == [] {
      EmptyLeft([e]);
      assert Deliveries([e][1..]) == [];
    } else {
      TailOfConcat(log, [e]);
      DeliveriesPush(log[1..], e);
      Assoc(if log[0].Delivered? then [log[0].obj] else [], Deliveries(log[1..]), if e.Delivered? then [e.obj] else []);
    }
  }

  // Nothing has been delivered or held since the last release.
  ghost predicate Idle(log: seq<Event>) {
    forall i :: 0 <= i < |log| && !log[i].Released? ==> exists k :: i < k < |log| && log[k].Released?
  }

  /** Between any two deliveries there is a release. */
  ghost predicate OneAtATime(log: seq<Event>) {
    forall i, j :: 0 <= i < j < |log| && log[i].Delivered? && log[j].Delivered? ==>
      exists k :: i < k < j && log[k].Released?
  }

  ghost predicate Inv(s: State, others: multiset<Obj>) {
    && s.count == |s.waiting|
    && s.refs == others + multiset(s.waiting)
    && s.pushed == Deliveries(s.log) + s.waiting
    && OneAtATime(s.log)
    && (!s.busy ==> Idle(s.log))
  }

  lemma DeliverKeeps(log: seq<Event>, x: Obj)
    requires OneAtATime(log) && Idle(log)
    ensures OneAtATime(log + [Delivered(x)])
  {
    var log' := log + [Delivered(x)];
    forall i, j | 0 <= i < j < |log'| && log'[i].Delivered? && log'[j].Delivered?
      ensures exists k :: i < k < j && log'[k].Released? {
      if j == |log| {
        assert !log[i].Released?;
        var k :| i < k < |log| && log[k].Released?;
        assert log'[k].Released?;
      } else {
        assert log[i].Delivered? && log[j].Delivered?;
        var k :| i < k < j && log[k].Released?;
        assert log'[k].Released?;
      }
    }
  }

  lemma BusyKeeps(log: seq<Event>, busy: bool)
    requires OneAtATime(log)
    ensures var log' := log + [if busy then Held else Released]; OneAtATime(log') && (!busy ==> Idle(log'))
  {
    var log' := log + [if busy then Held else Released];
    forall i, j | 0 <= i < j < |log'| && log'[i].Delivered? && log'[j].Delivered?
      ensures exists k :: i < k < j && log'[k].Released? {
      assert log[i].Delivered? && log[j].Delivered?;
      var k :| i < k < j && log[k].Released?;
      assert log'[k].Released?;
    }
    if !busy {
      assert log'[|log|].Released?;
    }
  }

  lemma ApplyKeeps(s: State, op: Op, others: multiset<Obj>)
    requires Inv(s, others)
    ensures Inv(Apply(s, op), others)
  {
    match op
    case Push(x) =>
      if !s.busy && s.count == 0 {
        DeliverKeeps(s.log, x);
        DeliveriesPush(s.log, Delivered(x));
        EmptyRight(Deliveries(s.log));
        EmptyRight(Deliveries(s.log) + [x]);
      } else {
        Assoc(Deliveries(s.log), s.waiting, [x]);
      }
    case Turn =>
      if !s.busy && s.count > 0 {
        DeliverKeeps(s.log, s.waiting[0]);
        DeliveriesPush(s.log, Delivered(s.waiting[0]));
        assert s.waiting == [s.waiting[0]] + s.waiting[1..];
        Assoc(Deliveries(s.log), [s.waiting[0]], s.waiting[1..]);
      }
    case SetBusy(b) =>
      BusyKeeps(s.log, b);
      DeliveriesPush(s.log, if b then Held else Released);
      EmptyRight(Deliveries(s.log));
  }

  /** In whatever order the threads' operations come: each object is delivered once at most, in push
      order, and waits until then; no two deliveries without a release between them; count is the
      number of objects waiting, each held by one reference of the queue's. */
  lemma {:induction false} RunKeeps(s: State, ops: seq<Op>, others: multiset<Obj>)
    requires Inv(s, others)
    ensures Inv(Run(s, ops), others)
    decreases |ops|
  {
    if ops != [] {
      ApplyKeeps(s, ops[0], others);
      RunKeeps(Apply(s, ops[0]), ops[1..], others);
    }
  }

  function Created(others: multiset<Obj>): State {
    State(false, 0, [], others, [], [])
  }

  /** So from a new queue what was pushed is what was delivered, then what waits, whatever the order. */
  lemma Delivers(others: multiset<Obj>, ops: seq<Op>)
    ensures var s := Run(Created(others), ops);
      && s.pushed == Deliveries(s.log) + s.waiting && s.count == |s.waiting| && OneAtATime(s.log)
      && s.refs == others + multiset(s.waiting)
  {
    RunKeeps(Created(others), ops, others);
  }

  // n rounds of the reader, each after a release.
  function Rounds(n: nat): seq<Op> {
    if n == 0 then [] else [SetBusy(false), Turn] + Rounds(n - 1)
  }

  /** As many releases and reader rounds as there are objects waiting deliver them all. */
  lemma {:induction false} AllDelivered(s: State, others: multiset<Obj>)
    requires Inv(s, others)
    ensures var s' := Run(s, Rounds(|s.waiting|)); s'.waiting == [] && Deliveries(s'.log) == s.pushed
    decreases |s.waiting|
  {
    if s.waiting == [] {
      EmptyRight(Deliveries(s.log));
    } else {
      var s1 := BusySet(s, false);
      ApplyKeeps(s, SetBusy(false), others);
      ApplyKeeps(s1, Turn, others);
      AllDelivered(Turned(s1).0, others);
      RunRound(s, Rounds(|s.waiting| - 1));
    }
  }

  lemma RunRound(s: State, rest: seq<Op>)
    ensures Run(s, [SetBusy(false), Turn] + rest) == Run(Turned(BusySet(s, false)).0, rest)
  {
    assert ([SetBusy(false), Turn] + rest)[1..] == [Turn] + rest && ([Turn] + rest)[1..] == rest;
  }

  // ---------------------------------------------------------------------------
  // What set_busy is for

  function Pushes(ops: seq<Op>): seq<Obj> {
    if ops == [] then [] else (if ops[0].Push? then [ops[0].obj] else []) + Pushes(ops[1..])
  }

  /** Until the one who deals with an object says so, no other is delivered, whatever is pushed and however often
      the reader comes round: all that is pushed waits, in order. */
  lemma {:induction false} HeldBack(s: State, ops: seq<Op>)
    requires s.busy && SetBusy(false) !in ops
    ensures var s' := Run(s, ops);
      s'.busy && Deliveries(s'.log) == Deliveries(s.log) && s'.waiting == s.waiting + Pushes(ops)
    decreases |ops|
  {
    if ops == [] {
      EmptyRight(s.waiting);
    } else {
      assert ops[0] in ops;
      HeldBack(Apply(s, ops[0]), ops[1..]);
      match ops[0]
      case Push(x) => Assoc(s.waiting, [x], Pushes(ops[1..]));
      case Turn => EmptyLeft(Pushes(ops[1..]));
      case SetBusy(b) =>
        EmptyLeft(Pushes(ops[1..]));
        DeliveriesPush(s.log, Held);
        EmptyRight(Deliveries(s.log));
    }
  }

  function PushAll(xs: seq<Obj>): seq<Op> {
    if xs == [] then [] else [Op.Push(xs[0])] + PushAll(xs[1..])
  }

  lemma {:induction false} PushesOfAll(xs: seq<Obj>)
    ensures Pushes(PushAll(xs)) == xs && forall op :: op in PushAll(xs) ==> op.Push?
  {
    if xs != [] {
      PushesOfAll(xs[1..]);
      assert PushAll(xs)[1..] == PushAll(xs[1..]);
    }
  }

  lemma {:induction false} RunTwo(s: State, a: seq<Op>, b: seq<Op>)
    ensures Run(s, a + b) == Run(Run(s, a), b)
    decreases |a|
  {
    if a == [] {
      EmptyLeft(b);
    } else {
      TailOfConcat(a, b);
      RunTwo(Apply(s, a[0]), a[1..], b);
    }
  }

  ghost predicate WaitsBehind(s: State, s': State, xs: seq<Obj>) {
    s'.busy == s.busy && s'.log == s.log && s'.waiting == s.waiting + xs && s'.count == |s'.waiting|
  }

  // While some wait, what is pushed waits as well.
  lemma {:induction false} PushesWait(s: State, xs: seq<Obj>)
    requires s.count == |s.waiting| > 0
    ensures WaitsBehind(s, Run(s, PushAll(xs)), xs)
    decreases |xs|
  {
    if xs == [] {
      EmptyRight(s.waiting);
    } else {
      var next := Pushed(s, xs[0]).0;
      PushesWait(next, xs[1..]);
      FirstPush(s, xs);
      Assoc(s.waiting, [xs[0]], xs[1..]);
      assert xs == [xs[0]] + xs[1..];
    }
  }

  lemma FirstPush(s: State, xs: seq<Obj>)
    requires xs != []
    ensures Run(s, PushAll(xs)) == Run(Pushed(s, xs[0]).0, PushAll(xs[1..]))
  {
    assert PushAll(xs)[1..] == PushAll(xs[1..]);
  }

  /** And when he does, just one is: of all that waits and is pushed until the reader has come round, the oldest. */
  lemma FreedDelivers(s: State, others: multiset<Obj>, xs: seq<Obj>)
    requires Inv(s, others)
    ensures var s' := Run(s, [SetBusy(false)] + (PushAll(xs) + [Turn])); var all := s.waiting + xs;
      if all == [] then Deliveries(s'.log) == Deliveries(s.log) && s'.waiting == [] && !s'.busy
      else Deliveries(s'.log) == Deliveries(s.log) + [all[0]] && s'.waiting == all[1..] && s'.busy
  {
    var free := BusySet(s, false);
    FreedRuns(s, xs);
    DeliveriesPush(s.log, Released);
    EmptyRight(Deliveries(s.log));
    if s.waiting != [] {
      PushesWait(free, xs);
      var late := Run(free, PushAll(xs));
      DeliveriesPush(late.log, Delivered(late.waiting[0]));
    } else if xs != [] {
      var given := Pushed(free, xs[0]).0;
      DeliveriesPush(free.log, Delivered(xs[0]));
      FirstPush(free, xs);
      PushesOfAll(xs[1..]);
      HeldBack(given, PushAll(xs[1..]));
      EmptyLeft(xs);
      EmptyLeft(xs[1..]);
    }
  }

  lemma FreedRuns(s: State, xs: seq<Obj>)
    ensures Run(s, [SetBusy(false)] + (PushAll(xs) + [Turn])) == Turned(Run(BusySet(s, false), PushAll(xs))).0
  {
    var rest := PushAll(xs) + [Turn];
    assert ([SetBusy(false)] + rest)[1..] == rest;
    RunTwo(BusySet(s, false), PushAll(xs), [Turn]);
    assert [Turn][1..] == [];
  }
}
