/** The fast queue of src/core/sis_list.lock.c as a transition system: any number of threads push, one
    thread reads, and every statement that touches shared memory is a step of its own, in any
    interleaving. A step that would touch a freed node or object crashes. */
module FastQueue {
  import opened Options
  import opened Sequences

  type Obj(==, !new)

  // Where a pushing thread is: after making its node, inside the lock, after linking the node, after
  // moving the tail, after counting.
  datatype PushPc =
    | Idle | Made(node: nat, obj: Obj) | Inside(node: nat, obj: Obj) | Linked(node: nat) | Tailed | Counted

  // Where the reader is. Moving(k, m) has done k of the six assignments that splice m nodes over.
  datatype ReadPc =
    | Top | Entered | Moving(done: nat, moved: nat) | Leaving
    | Looking(node: nat) | Found(node: nat, after: nat) | Called(node: nat, after: nat) | Dropped(node: nat, after: nat)
    | Freed(after: nat) | Uncounted(after: nat)

  datatype Owner = Nobody | Pusher(t: nat) | Reader

  datatype State = State(
    // the next pointers of the live nodes, and the objects nodes hold a reference to
    next: map<nat, Option<nat>>, item: map<nat, Obj>,
    rhead: nat, rtail: nat, rnums: int,
    whead: nat, wtail: nat, wnums: int,
    lock: Owner, pushers: map<nat, PushPc>, reader: ReadPc,
    refs: multiset<Obj>,
    // history: references held elsewhere, objects as linked and as handed to the callback, the nodes
    // of the two lists from their heads, and which pusher has made a node and not yet linked it
    others: multiset<Obj>, pushed: seq<Obj>, consumed: seq<Obj>, rlist: seq<nat>, wlist: seq<nat>,
    hands: map<nat, nat>)

  datatype Outcome = Blocked | Crash | Ok(state: State)

  datatype Action = Share(obj: Obj) | Forget(obj: Obj) | Begin(t: nat, obj: Obj, node: nat) | Push(t: nat) | Read

  function PcOf(s: State, t: nat): PushPc { if t in s.pushers then s.pushers[t] else Idle }

  // The queue as created: two lists of one node each, and the objects others hold.
  function Created(rnode: nat, wnode: nat, others: multiset<Obj>): State {
    State(map[rnode := None, wnode := None], map[], rnode, rnode, 0, wnode, wnode, 0, Nobody, map[], Top, others,
          others, [], [], [rnode], [wnode], map[])
  }

  // ---------------------------------------------------------------------------
  // Steps

  // sis_unlock_node_create: malloc gives a node that is not in use; the caller holds the object.
  function BeginStep(s: State, t: nat, x: Obj, n: nat): Outcome {
    if PcOf(s, t) != Idle || n in s.next || x !in s.others then Blocked
    else
      Ok(s.(next := s.next[n := None], item := s.item[n := x], refs := s.refs + multiset{x},
            pushers := s.pushers[t := Made(n, x)], hands := s.hands[n := t]))
  }

  function PushStep(s: State, t: nat): Outcome {
    match PcOf(s, t)
    case Idle => Blocked
    case Made(n, x) =>
      if s.lock != Nobody then Blocked else Ok(s.(lock := Pusher(t), pushers := s.pushers[t := Inside(n, x)]))
    case Inside(n, x) =>
      if s.wtail !in s.next then Crash else
        Ok(s.(next := s.next[s.wtail := Some(n)], pushers := s.pushers[t := Linked(n)],
              wlist := s.wlist + [n], pushed := s.pushed + [x], hands := s.hands - {n}))
    case Linked(n) => Ok(s.(wtail := n, pushers := s.pushers[t := Tailed]))
    case Tailed => Ok(s.(wnums := s.wnums + 1, pushers := s.pushers[t := Counted]))
    case Counted => Ok(s.(lock := Nobody, pushers := s.pushers[t := Idle]))
  }

  // _fast_queue_move, assignment by assignment
  function MoveStep(s: State, done: nat, moved: nat): Outcome {
    match done
    case 0 =>
      if s.rtail !in s.next || s.whead !in s.next || |s.wlist| == 0 then Crash else
        Ok(s.(next := s.next[s.rtail := s.next[s.whead]], reader := Moving(1, |s.wlist| - 1),
              rlist := s.rlist + s.wlist[1..], wlist := s.wlist[..1]))
    case 1 => Ok(s.(rtail := s.wtail, reader := Moving(2, moved)))
    case 2 => Ok(s.(rnums := s.rnums + s.wnums, reader := Moving(3, moved)))
    case 3 => if s.whead !in s.next then Crash else Ok(s.(next := s.next[s.whead := None], reader := Moving(4, moved)))
    case 4 => Ok(s.(wtail := s.whead, reader := Moving(5, moved)))
    case _ => Ok(s.(wnums := 0, reader := Leaving))
  }

  // Hand on and free what there is to read, node by node.
  function WalkStep(s: State): Outcome {
    match s.reader
    case Looking(n) =>
      if n !in s.next then Crash else
        Ok(s.(reader := if s.next[n] == None then Top else Found(n, s.next[n].value)))
    case Found(n, a) =>
      if a !in s.next || a !in s.item || s.item[a] !in s.refs then Crash else
        Ok(s.(consumed := s.consumed + [s.item[a]], reader := Called(n, a)))
    case Called(n, a) =>
      if a !in s.next || a !in s.item || s.item[a] !in s.refs then Crash else
        Ok(s.(refs := s.refs - multiset{s.item[a]}, item := s.item - {a}, reader := Dropped(n, a)))
    case Dropped(n, a) =>
      if n !in s.next || |s.rlist| == 0 then Crash
        else Ok(s.(next := s.next - {n}, rlist := s.rlist[1..], reader := Freed(a)))
    case Freed(a) => Ok(s.(rnums := s.rnums - 1, reader := Uncounted(a)))
    case Uncounted(a) => Ok(s.(rhead := a, reader := Looking(a)))
    case _ => Blocked
  }

  // The reader thread: try the lock and splice, then read.
  function ReadStep(s: State): Outcome {
    match s.reader
    case Top => if s.lock == Nobody then Ok(s.(lock := Reader, reader := Entered))
      else Ok(s.(reader := Looking(s.rhead)))
    case Entered => if s.wnums < 1 then Ok(s.(reader := Leaving)) else MoveStep(s, 0, 0)
    case Moving(done, moved) => MoveStep(s, done, moved)
    case Leaving => Ok(s.(lock := Nobody, reader := Looking(s.rhead)))
    case _ => WalkStep(s)
  }

  // Others, who hold references of their own, take and give back some.
  function Step(s: State, a: Action): Outcome {
    match a
    case Share(x) => Ok(s.(refs := s.refs + multiset{x}, others := s.others + multiset{x}))
    case Forget(x) =>
      if x !in s.others then Blocked
      else if x !in s.refs then Crash
      else Ok(s.(refs := s.refs - multiset{x}, others := s.others - multiset{x}))
    case Begin(t, x, n) => BeginStep(s, t, x, n)
    case Push(t) => PushStep(s, t)
    case Read => ReadStep(s)
  }

  // ---------------------------------------------------------------------------
  // The invariant, part by part

  ghost predicate Distinct(ns: seq<nat>) {
    forall i, j :: 0 <= i < j < |ns| ==> ns[i] != ns[j]
  }

  function Last(ns: seq<nat>): nat
    requires ns != []
  {
    ns[|ns| - 1]
  }

  // Node i of the list is live and points to the one after it, the last to none.
  ghost predicate PointsOn(next: map<nat, Option<nat>>, ns: seq<nat>, i: nat)
    requires i < |ns|
  {
    ns[i] in next && next[ns[i]] == if i + 1 < |ns| then Some(ns[i + 1]) else None
  }

  ghost predicate Chained(next: map<nat, Option<nat>>, ns: seq<nat>) {
    forall i: nat :: i < |ns| ==> PointsOn(next, ns, i)
  }

  // All nodes of a chain are live; it stays one while its nodes stay as they are.
  lemma ChainedNodes(next: map<nat, Option<nat>>, ns: seq<nat>)
    requires Chained(next, ns)
    ensures forall n :: n in ns ==> n in next
  {
    forall n | n in ns ensures n in next {
      var i :| 0 <= i < |ns| && ns[i] == n;
      assert PointsOn(next, ns, i);
    }
  }

  lemma ChainedStays(next: map<nat, Option<nat>>, next': map<nat, Option<nat>>, ns: seq<nat>)
    requires Chained(next, ns) && forall n :: n in ns && n in next ==> n in next' && next'[n] == next[n]
    ensures Chained(next', ns)
  {
    forall i: nat | i < |ns| ensures PointsOn(next', ns, i) {
      assert PointsOn(next, ns, i) && ns[i] in ns;
    }
  }

  /** Two chains that share no node; while a splice is under way the write list is its head alone. */
  ghost predicate Lists(next: map<nat, Option<nat>>, rlist: seq<nat>, wlist: seq<nat>, splicing: bool) {
    && rlist != [] && wlist != []
    && Distinct(rlist) && Distinct(wlist) && (forall n :: n in rlist ==> n !in wlist)
    && Chained(next, rlist)
    && (if splicing then |wlist| == 1 && wlist[0] in next else Chained(next, wlist))
  }

  // The splice has been begun, but the write list's head still points to what was spliced.
  predicate Splicing(reader: ReadPc) { reader.Moving? && reader.done <= 3 }

  ghost predicate ReaderAt(reader: ReadPc, rlist: seq<nat>, wlist: seq<nat>) {
    && rlist != []
    && match reader
       case Moving(done, moved) => 1 <= done <= 5 && 0 < moved < |rlist| && |wlist| == 1
       case Looking(n) => n == rlist[0]
       case Found(n, a) => |rlist| > 1 && n == rlist[0] && a == rlist[1]
       case Called(n, a) => |rlist| > 1 && n == rlist[0] && a == rlist[1]
       case Dropped(n, a) => |rlist| > 1 && n == rlist[0] && a == rlist[1]
       case Freed(a) => a == rlist[0]
       case Uncounted(a) => a == rlist[0]
       case _ => true
  }

  ghost predicate ReadEnds(reader: ReadPc, rlist: seq<nat>, rhead: nat, rtail: nat, rnums: int)
    requires rlist != []
  {
    && (reader.Freed? || reader.Uncounted? || rhead == rlist[0])
    && (if reader.Moving? && reader.done == 1 then reader.moved < |rlist| && rtail == rlist[|rlist| - 1 - reader.moved]
        else rtail == Last(rlist))
    && rnums == |rlist| - 1 - (if reader.Moving? && reader.done <= 2 then reader.moved else 0) +
      (if reader.Freed? then 1 else 0)
  }

  // Where the thread inside the lock is, if that is a pusher.
  function HolderPc(lock: Owner, pushers: map<nat, PushPc>): PushPc {
    if lock.Pusher? && lock.t in pushers then pushers[lock.t] else Idle
  }

  ghost predicate WriteEnds(reader: ReadPc, holder: PushPc, rlist: seq<nat>, wlist: seq<nat>, whead: nat, wtail: nat,
      wnums: int)
    requires rlist != [] && wlist != []
  {
    && whead == wlist[0]
    && (holder.Linked? ==> |wlist| > 1 && holder.node == Last(wlist))
    && wtail == (if reader.Moving? && reader.done <= 4 then Last(rlist)
                 else if holder.Linked? then wlist[|wlist| - 2] else Last(wlist))
    && wnums == (if reader.Moving? then reader.moved
                 else if holder.Linked? || holder.Tailed? then |wlist| - 2 else |wlist| - 1)
  }

  predicate Inner(pc: PushPc) { pc.Inside? || pc.Linked? || pc.Tailed? || pc.Counted? }

  /** One thread at most is inside the lock. */
  ghost predicate Owned(lock: Owner, pushers: map<nat, PushPc>, reader: ReadPc) {
    && (forall t :: t in pushers ==> (Inner(pushers[t]) <==> lock == Pusher(t)))
    && (lock.Pusher? ==> lock.t in pushers)
    && (lock == Reader <==> reader.Entered? || reader.Moving? || reader.Leaving?)
  }

  predicate Loose(pc: PushPc) { pc.Made? || pc.Inside? }

  predicate IsMade(pc: PushPc, n: nat, item: map<nat, Obj>) {
    Loose(pc) && pc.node == n && n in item && item[n] == pc.obj
  }

  /** Each node made and not yet linked is in the hands of one pusher. */
  ghost predicate Hands(item: map<nat, Obj>, pushers: map<nat, PushPc>, hands: map<nat, nat>) {
    && (forall n :: n in hands ==> hands[n] in pushers && IsMade(pushers[hands[n]], n, item))
    && (forall t :: t in pushers && Loose(pushers[t]) ==> pushers[t].node in hands && hands[pushers[t].node] == t)
  }

  /** Every live node is in one of the lists or in a pusher's hands, and no two of these. */
  ghost predicate NoneLost(next: map<nat, Option<nat>>, hands: map<nat, nat>, rlist: seq<nat>, wlist: seq<nat>) {
    && (forall n :: n in hands ==> n in next && next[n] == None && n !in rlist && n !in wlist)
    && (forall n :: n in next ==> n in rlist || n in wlist || n in hands)
  }

  // How many nodes at the front of the read list hold nothing any more; how many are not to be handed on.
  function Released(reader: ReadPc): nat { if reader.Dropped? then 2 else 1 }
  function Handed(reader: ReadPc): nat { if reader.Dropped? || reader.Called? then 2 else 1 }

  // Every node of the lists not yet released holds an object, and no node that is not live or is released.
  ghost predicate Holding(next: map<nat, Option<nat>>, item: map<nat, Obj>, rlist: seq<nat>, wlist: seq<nat>,
      released: nat)
  {
    && rlist != [] && wlist != []
    && (forall i :: released <= i < |rlist| ==> rlist[i] in item)
    && (forall i :: 1 <= i < |wlist| ==> wlist[i] in item)
    && (forall i :: 0 <= i < released && i < |rlist| ==> rlist[i] !in item)
    && wlist[0] !in item
    && forall n :: n in item ==> n in next
  }

  function Holders(item: map<nat, Obj>, x: Obj): set<nat> {
    set n | n in item && item[n] == x
  }

  /** An object's count is the references held elsewhere and one for each node that holds it. */
  ghost predicate RefsCount(refs: multiset<Obj>, others: multiset<Obj>, item: map<nat, Obj>) {
    forall x :: refs[x] == others[x] + |Holders(item, x)|
  }

  // What the nodes hold, in order.
  function ItemsOf(item: map<nat, Obj>, ns: seq<nat>): (r: seq<Obj>)
    requires forall n :: n in ns ==> n in item
    ensures |r| == |ns| && forall i :: 0 <= i < |ns| ==> r[i] == item[ns[i]]
  {
    seq(|ns|, i requires 0 <= i < |ns| => item[ns[i]])
  }

  /** What was pushed is what was handed on and what waits in the read list and then the write list. */
  ghost predicate InOrder(pushed: seq<Obj>, consumed: seq<Obj>, item: map<nat, Obj>, r: seq<nat>, w: seq<nat>) {
    && (forall n :: n in r || n in w ==> n in item)
    && pushed == consumed + ItemsOf(item, r) + ItemsOf(item, w)
  }

  function Unread(s: State): seq<nat> { if Handed(s.reader) <= |s.rlist| then s.rlist[Handed(s.reader)..] else [] }
  function Unspliced(s: State): seq<nat> { if s.wlist == [] then [] else s.wlist[1..] }

  ghost predicate Inv(s: State) {
    && Lists(s.next, s.rlist, s.wlist, Splicing(s.reader))
    && ReaderAt(s.reader, s.rlist, s.wlist)
    && ReadEnds(s.reader, s.rlist, s.rhead, s.rtail, s.rnums)
    && WriteEnds(s.reader, HolderPc(s.lock, s.pushers), s.rlist, s.wlist, s.whead, s.wtail, s.wnums)
    && Owned(s.lock, s.pushers, s.reader)
    && Hands(s.item, s.pushers, s.hands)
    && NoneLost(s.next, s.hands, s.rlist, s.wlist)
    && Holding(s.next, s.item, s.rlist, s.wlist, Released(s.reader))
    && RefsCount(s.refs, s.others, s.item)
    && InOrder(s.pushed, s.consumed, s.item, Unread(s), Unspliced(s))
  }

  ghost predicate Safe(r: Outcome) {
    r != Crash && (r.Ok? ==> Inv(r.state))
  }

  lemma CreatedInv(rnode: nat, wnode: nat, others: multiset<Obj>)
    requires rnode != wnode
    ensures Inv(Created(rnode, wnode, others))
  {
    assert forall x :: Holders(map[], x) == {};
  }

  // ---------------------------------------------------------------------------
  // References

  lemma HoldersAdd(item: map<nat, Obj>, n: nat, x: Obj)
    requires n !in item
    ensures forall y :: |Holders(item[n := x], y)| == |Holders(item, y)| + if y == x then 1 else 0
  {
    forall y ensures |Holders(item[n := x], y)| == |Holders(item, y)| + if y == x then 1 else 0 {
      assert Holders(item[n := x], y) == Holders(item, y) + (if y == x then {n} else {});
    }
  }

  lemma HoldersDrop(item: map<nat, Obj>, n: nat)
    requires n in item
    ensures forall y :: |Holders(item - {n}, y)| == |Holders(item, y)| - if y == item[n] then 1 else 0
  {
    forall y ensures |Holders(item - {n}, y)| == |Holders(item, y)| - if y == item[n] then 1 else 0 {
      assert Holders(item, y) == Holders(item - {n}, y) + (if y == item[n] then {n} else {});
    }
  }

  lemma HeldIsLive(refs: multiset<Obj>, others: multiset<Obj>, item: map<nat, Obj>, n: nat)
    requires RefsCount(refs, others, item) && n in item
    ensures item[n] in refs
  {
    assert n in Holders(item, item[n]);
  }

  lemma EnvironmentSteps(s: State, a: Action)
    requires Inv(s) && (a.Share? || a.Forget?)
    ensures Safe(Step(s, a))
  {
    OthersCount(s.refs, s.others, s.item, a.obj);
  }

  lemma OthersCount(refs: multiset<Obj>, others: multiset<Obj>, item: map<nat, Obj>, x: Obj)
    requires RefsCount(refs, others, item)
    ensures RefsCount(refs + multiset{x}, others + multiset{x}, item)
    ensures x in others ==> x in refs && RefsCount(refs - multiset{x}, others - multiset{x}, item)
  {
    assert x in others ==> refs[x] > 0;
  }

  // ---------------------------------------------------------------------------
  // A pusher's steps

  lemma BeginSteps(s: State, t: nat, x: Obj, n: nat)
    requires Inv(s)
    ensures Safe(BeginStep(s, t, x, n))
  {
    if BeginStep(s, t, x, n).Ok? {
      NewNode(s.next, s.item, s.rlist, s.wlist, s.hands, Splicing(s.reader), Released(s.reader), t, n, x);
      NewInHand(s.item, s.pushers, s.hands, t, n, x);
      NewRef(s.refs, s.others, s.item, n, x);
      NotHolder(s.lock, s.pushers, s.reader, t, Made(n, x));
      SameItems(s.pushed, s.consumed, s.item, s.item[n := x], Unread(s), Unspliced(s));
    }
  }

  lemma NewNode(next: map<nat, Option<nat>>, item: map<nat, Obj>, rlist: seq<nat>, wlist: seq<nat>,
      hands: map<nat, nat>,
                splicing: bool, released: nat, t: nat, n: nat, x: Obj)
    requires Lists(next, rlist, wlist, splicing) && Holding(next, item, rlist, wlist, released) &&
      NoneLost(next, hands, rlist, wlist)
    requires n !in next
    ensures n !in item && n !in hands
    ensures Lists(next[n := None], rlist, wlist, splicing) &&
      Holding(next[n := None], item[n := x], rlist, wlist, released)
    ensures NoneLost(next[n := None], hands[n := t], rlist, wlist)
  {
    ChainedNodes(next, rlist);
    ChainedStays(next, next[n := None], rlist);
    if !splicing {
      ChainedNodes(next, wlist);
      ChainedStays(next, next[n := None], wlist);
    }
    assert forall m :: m in wlist ==> m in next;
  }

  lemma NewInHand(item: map<nat, Obj>, pushers: map<nat, PushPc>, hands: map<nat, nat>, t: nat, n: nat, x: Obj)
    requires Hands(item, pushers, hands) && n !in item && n !in hands && (t in pushers ==> pushers[t] == Idle)
    ensures Hands(item[n := x], pushers[t := Made(n, x)], hands[n := t])
  {}

  lemma NewRef(refs: multiset<Obj>, others: multiset<Obj>, item: map<nat, Obj>, n: nat, x: Obj)
    requires RefsCount(refs, others, item) && n !in item
    ensures RefsCount(refs + multiset{x}, others, item[n := x])
  {
    HoldersAdd(item, n, x);
  }

  // A step by a thread outside the lock that stays outside.
  lemma NotHolder(lock: Owner, pushers: map<nat, PushPc>, reader: ReadPc, t: nat, pc: PushPc)
    requires Owned(lock, pushers, reader) && (t in pushers ==> !Inner(pushers[t])) && !Inner(pc)
    ensures Owned(lock, pushers[t := pc], reader) && HolderPc(lock, pushers[t := pc]) == HolderPc(lock, pushers)
  {}

  lemma SameItems(pushed: seq<Obj>, consumed: seq<Obj>, item: map<nat, Obj>, item': map<nat, Obj>, r: seq<nat>,
      w: seq<nat>)
    requires InOrder(pushed, consumed, item, r, w)
    requires forall n :: n in r || n in w ==> n in item' && item'[n] == item[n]
    ensures InOrder(pushed, consumed, item', r, w)
  {
    assert ItemsOf(item', r) == ItemsOf(item, r) && ItemsOf(item', w) == ItemsOf(item, w);
  }

  lemma PushSteps(s: State, t: nat)
    requires Inv(s)
    ensures Safe(PushStep(s, t))
  {
    match PcOf(s, t)
    case Idle =>
    case Made(n, x) => EnterSteps(s, t, n, x);
    case Inside(n, x) => LinkSteps(s, t, n, x);
    case _ => InnerSteps(s, t);
  }

  lemma EnterSteps(s: State, t: nat, n: nat, x: Obj)
    requires Inv(s) && PcOf(s, t) == Made(n, x)
    ensures Safe(PushStep(s, t))
  {
    if s.lock == Nobody {
      HandsAfter(s.item, s.pushers, s.hands, t, Inside(n, x));
    }
  }

  // Thread t goes on with what it has in its hands.
  lemma HandsAfter(item: map<nat, Obj>, pushers: map<nat, PushPc>, hands: map<nat, nat>, t: nat, pc: PushPc)
    requires Hands(item, pushers, hands) && t in pushers
    requires if Loose(pushers[t]) then Loose(pc) && pc.node == pushers[t].node && pc.obj == pushers[t].obj
      else !Loose(pc)
    ensures Hands(item, pushers[t := pc], hands)
  {}

  // Thread t goes on inside the lock.
  lemma HolderAfter(lock: Owner, pushers: map<nat, PushPc>, reader: ReadPc, t: nat, pc: PushPc)
    requires Owned(lock, pushers, reader) && t in pushers && Inner(pushers[t]) && Inner(pc)
    ensures Owned(lock, pushers[t := pc], reader) && HolderPc(lock, pushers[t := pc]) == pc
    ensures lock == Pusher(t) && HolderPc(lock, pushers) == pushers[t]
  {}

  // The steps inside the lock that change no node.
  lemma InnerSteps(s: State, t: nat)
    requires Inv(s) && (PcOf(s, t).Linked? || PcOf(s, t).Tailed? || PcOf(s, t).Counted?)
    ensures Safe(PushStep(s, t))
  {
    var pc := PushStep(s, t).state.pushers[t];
    HandsAfter(s.item, s.pushers, s.hands, t, pc);
    if pc != Idle {
      HolderAfter(s.lock, s.pushers, s.reader, t, pc);
      WriteEndsAfter(s, t);
    }
  }

  lemma WriteEndsAfter(s: State, t: nat)
    requires Inv(s) && s.lock == Pusher(t) && (PcOf(s, t).Linked? || PcOf(s, t).Tailed?)
    ensures var s' := PushStep(s, t).state;
      WriteEnds(s.reader, s'.pushers[t], s.rlist, s.wlist, s.whead, s'.wtail, s'.wnums)
  {}

  lemma LinkSteps(s: State, t: nat, n: nat, x: Obj)
    requires Inv(s) && PcOf(s, t) == Inside(n, x)
    ensures Safe(PushStep(s, t))
  {
    HolderAfter(s.lock, s.pushers, s.reader, t, Linked(n));
    LinkedEnds(s, t, n, x);
    Link(s.next, s.item, s.rlist, s.wlist, s.hands, Released(s.reader), n);
    Unhand(s.item, s.pushers, s.hands, t, n, x);
    OneMore(s.pushed, s.consumed, s.item, Unread(s), s.wlist, n);
  }

  lemma LinkedEnds(s: State, t: nat, n: nat, x: Obj)
    requires Inv(s) && PcOf(s, t) == Inside(n, x)
    ensures WriteEnds(s.reader, Linked(n), s.rlist, s.wlist + [n], s.whead, s.wtail, s.wnums)
    ensures ReaderAt(s.reader, s.rlist, s.wlist + [n])
  {
    assert s.lock == Pusher(t);
  }

  lemma Unhand(item: map<nat, Obj>, pushers: map<nat, PushPc>, hands: map<nat, nat>, t: nat, n: nat, x: Obj)
    requires Hands(item, pushers, hands) && t in pushers && Loose(pushers[t]) && pushers[t].node == n
    ensures Hands(item, pushers[t := Linked(n)], hands - {n}) && n in hands
  {}

  lemma Link(next: map<nat, Option<nat>>, item: map<nat, Obj>, rlist: seq<nat>, wlist: seq<nat>, hands: map<nat, nat>,
      released: nat, n: nat)
    requires Lists(next, rlist, wlist, false) && NoneLost(next, hands, rlist, wlist) &&
      Holding(next, item, rlist, wlist, released)
    requires n in hands && n in item
    ensures Last(wlist) in next
    ensures var next' := next[Last(wlist) := Some(n)];
      && Lists(next', rlist, wlist + [n], false)
      && NoneLost(next', hands - {n}, rlist, wlist + [n])
      && Holding(next', item, rlist, wlist + [n], released)
  {
    var next', wlist' := next[Last(wlist) := Some(n)], wlist + [n];
    ChainedNodes(next, wlist);
    assert Last(wlist) in wlist;
    ChainedStays(next, next', rlist);
    forall i: nat | i < |wlist'| ensures PointsOn(next', wlist', i) {
      if i < |wlist| {
        assert PointsOn(next, wlist, i);
      }
    }
  }

  lemma OneMore(pushed: seq<Obj>, consumed: seq<Obj>, item: map<nat, Obj>, r: seq<nat>, wlist: seq<nat>, n: nat)
    requires wlist != [] && InOrder(pushed, consumed, item, r, wlist[1..]) && n in item
    ensures InOrder(pushed + [item[n]], consumed, item, r, (wlist + [n])[1..])
  {
    TailOfConcat(wlist, [n]);
    assert ItemsOf(item, wlist[1..] + [n]) == ItemsOf(item, wlist[1..]) + [item[n]];
    Assoc(consumed + ItemsOf(item, r), ItemsOf(item, wlist[1..]), [item[n]]);
  }

  // ---------------------------------------------------------------------------
  // The reader's steps

  lemma ReadSteps(s: State)
    requires Inv(s)
    ensures Safe(ReadStep(s))
  {
    match s.reader
    case Entered => if s.wnums >= 1 { SpliceSteps(s); } else { ReaderMoves(s, Leaving); }
    case Moving(done, moved) => MoveSteps(s, done, moved);
    case Found(n, a) => FoundSteps(s, n, a);
    case Called(n, a) => CalledSteps(s, n, a);
    case Dropped(n, a) => DroppedSteps(s, n, a);
    case Looking(n) => LookSteps(s, n);
    case Freed(a) => CountSteps(s, a);
    case Uncounted(a) => NextSteps(s);
    case Top => TopSteps(s);
    case Leaving => LeaveSteps(s);
  }

  // A step that changes only where the reader is, between places alike for the lists.
  lemma ReaderMoves(s: State, reader: ReadPc)
    requires Inv(s) && !s.reader.Moving? && !reader.Moving? && !s.reader.Freed? && !s.reader.Uncounted?
    requires Released(reader) == Released(s.reader) && Handed(reader) == Handed(s.reader)
    requires ReaderAt(reader, s.rlist, s.wlist) && (s.lock == Reader <==> reader.Entered? || reader.Leaving?)
    requires !reader.Freed?
    ensures Inv(s.(reader := reader))
  {}

  lemma TopSteps(s: State)
    requires Inv(s) && s.reader.Top?
    ensures Safe(ReadStep(s))
  {
    if s.lock != Nobody {
      ReaderMoves(s, Looking(s.rhead));
    }
  }

  lemma LeaveSteps(s: State)
    requires Inv(s) && s.reader.Leaving?
    ensures Safe(ReadStep(s))
  {
    assert Owned(Nobody, s.pushers, Looking(s.rhead)) && HolderPc(Nobody, s.pushers) == HolderPc(s.lock, s.pushers);
  }

  lemma NextSteps(s: State)
    requires Inv(s) && s.reader.Uncounted?
    ensures Safe(ReadStep(s))
  {}

  lemma LookSteps(s: State, n: nat)
    requires Inv(s) && s.reader == Looking(n)
    ensures Safe(ReadStep(s))
  {
    assert PointsOn(s.next, s.rlist, 0);
  }

  lemma CountSteps(s: State, a: nat)
    requires Inv(s) && s.reader == Freed(a)
    ensures Safe(ReadStep(s))
  {}

  // rtail->next = whead->next: the nodes after the write list's head are the read list's from here on.
  lemma SpliceSteps(s: State)
    requires Inv(s) && s.reader.Entered? && s.wnums >= 1
    ensures Safe(ReadStep(s))
  {
    Splice(s.next, s.item, s.rlist, s.wlist, s.hands);
    SpliceEnds(s);
    SpliceItems(s.pushed, s.consumed, s.item, s.rlist, s.wlist);
    SplicedInv(s, s.next[s.rtail := s.next[s.whead]], |s.wlist| - 1, s.rlist + s.wlist[1..], s.wlist[..1]);
  }

  lemma SplicedInv(s: State, next: map<nat, Option<nat>>, moved: nat, rlist: seq<nat>, wlist: seq<nat>)
    requires Inv(s) && s.reader.Entered? && HolderPc(s.lock, s.pushers) == Idle
    requires Lists(next, rlist, wlist, true) && NoneLost(next, s.hands, rlist, wlist) &&
      Holding(next, s.item, rlist, wlist, 1)
    requires ReaderAt(Moving(1, moved), rlist, wlist) && ReadEnds(Moving(1, moved), rlist, s.rhead, s.rtail, s.rnums)
    requires WriteEnds(Moving(1, moved), Idle, rlist, wlist, s.whead, s.wtail, s.wnums)
    requires InOrder(s.pushed, s.consumed, s.item, rlist[1..], wlist[1..])
    ensures Inv(s.(next := next, reader := Moving(1, moved), rlist := rlist, wlist := wlist))
  {}

  lemma SpliceEnds(s: State)
    requires Inv(s) && s.reader.Entered? && s.wnums >= 1
    ensures var reader, rlist, wlist := Moving(1, |s.wlist| - 1), s.rlist + s.wlist[1..], s.wlist[..1];
      && ReaderAt(reader, rlist, wlist)
      && ReadEnds(reader, rlist, s.rhead, s.rtail, s.rnums)
      && WriteEnds(reader, Idle, rlist, wlist, s.whead, s.wtail, s.wnums)
      && HolderPc(s.lock, s.pushers) == Idle && |s.wlist| > 1
  {}

  lemma Splice(next: map<nat, Option<nat>>, item: map<nat, Obj>, rlist: seq<nat>, wlist: seq<nat>, hands: map<nat, nat>)
    requires Lists(next, rlist, wlist, false) && NoneLost(next, hands, rlist, wlist) &&
      Holding(next, item, rlist, wlist, 1)
    requires |wlist| > 1
    ensures Last(rlist) in next && wlist[0] in next
    ensures var next', rlist', wlist' := next[Last(rlist) := next[wlist[0]]], rlist + wlist[1..], wlist[..1];
      && Lists(next', rlist', wlist', true)
      && NoneLost(next', hands, rlist', wlist')
      && Holding(next', item, rlist', wlist', 1)
      && Last(rlist') == Last(wlist)
  {
    ChainedNodes(next, rlist);
    ChainedNodes(next, wlist);
    assert Last(rlist) in rlist && wlist[0] in wlist;
    SpliceMembers(rlist, wlist);
    SpliceDistinct(rlist, wlist);
    SpliceChained(next, rlist, wlist);
  }

  lemma SpliceMembers(rlist: seq<nat>, wlist: seq<nat>)
    requires |wlist| > 1 && Distinct(wlist)
    ensures forall n :: n in rlist + wlist[1..] <==> n in rlist || (n in wlist && n != wlist[0])
  {
    assert wlist == [wlist[0]] + wlist[1..];
  }

  lemma SpliceDistinct(rlist: seq<nat>, wlist: seq<nat>)
    requires |wlist| > 1 && Distinct(rlist) && Distinct(wlist) && forall n :: n in rlist ==> n !in wlist
    ensures Distinct(rlist + wlist[1..])
  {
    var l := rlist + wlist[1..];
    forall i, j | 0 <= i < j < |l| ensures l[i] != l[j] {
      if i < |rlist| <= j {
        assert l[i] in rlist && l[j] == wlist[j - |rlist| + 1] && l[j] in wlist;
      }
    }
  }

  lemma SpliceChained(next: map<nat, Option<nat>>, rlist: seq<nat>, wlist: seq<nat>)
    requires Lists(next, rlist, wlist, false) && |wlist| > 1 && Last(rlist) in next && wlist[0] in next
    ensures Chained(next[Last(rlist) := next[wlist[0]]], rlist + wlist[1..])
  {
    var l, next' := rlist + wlist[1..], next[Last(rlist) := next[wlist[0]]];
    assert PointsOn(next, wlist, 0) && Last(rlist) in rlist;
    forall i: nat | i < |l| ensures PointsOn(next', l, i) {
      if i < |rlist| {
        assert PointsOn(next, rlist, i);
      } else {
        assert l[i] == wlist[i - |rlist| + 1] && l[i] in wlist && PointsOn(next, wlist, i - |rlist| + 1);
      }
    }
  }

  lemma SpliceItems(pushed: seq<Obj>, consumed: seq<Obj>, item: map<nat, Obj>, rlist: seq<nat>, wlist: seq<nat>)
    requires rlist != [] && wlist != [] && InOrder(pushed, consumed, item, rlist[1..], wlist[1..])
    ensures InOrder(pushed, consumed, item, (rlist + wlist[1..])[1..], wlist[..1][1..])
  {
    TailOfConcat(rlist, wlist[1..]);
    var r, w := rlist[1..], wlist[1..];
    assert ItemsOf(item, r + w) == ItemsOf(item, r) + ItemsOf(item, w);
    assert wlist[..1][1..] == [];
    Assoc(consumed, ItemsOf(item, r), ItemsOf(item, w));
    EmptyRight(consumed + ItemsOf(item, r + w));
  }

  // The other assignments of the splice: of ends and counts, and whead->next = NULL.
  lemma MoveSteps(s: State, done: nat, moved: nat)
    requires Inv(s) && s.reader == Moving(done, moved)
    ensures Safe(ReadStep(s))
  {
    if done == 3 {
      CutSteps(s, moved);
    } else {
      EndSteps(s, done, moved);
    }
  }

  lemma EndSteps(s: State, done: nat, moved: nat)
    requires Inv(s) && s.reader == Moving(done, moved) && done != 3
    ensures Safe(ReadStep(s))
  {
    var s' := ReadStep(s).state;
    assert s.lock == Reader && |s.wlist| == 1;
    assert ReadEnds(s'.reader, s.rlist, s.rhead, s'.rtail, s'.rnums);
    assert WriteEnds(s'.reader, Idle, s.rlist, s.wlist, s.whead, s'.wtail, s'.wnums);
  }

  lemma CutSteps(s: State, moved: nat)
    requires Inv(s) && s.reader == Moving(3, moved)
    ensures Safe(ReadStep(s))
  {
    Cut(s.next, s.item, s.rlist, s.wlist, s.hands);
    assert HolderPc(s.lock, s.pushers) == Idle;
    assert ReadEnds(Moving(4, moved), s.rlist, s.rhead, s.rtail, s.rnums);
    assert WriteEnds(Moving(4, moved), Idle, s.rlist, s.wlist, s.whead, s.wtail, s.wnums);
  }

  lemma Cut(next: map<nat, Option<nat>>, item: map<nat, Obj>, rlist: seq<nat>, wlist: seq<nat>, hands: map<nat, nat>)
    requires Lists(next, rlist, wlist, true) && NoneLost(next, hands, rlist, wlist) &&
      Holding(next, item, rlist, wlist, 1)
    ensures var next' := next[wlist[0] := None];
      Lists(next', rlist, wlist, false) && NoneLost(next', hands, rlist, wlist) && Holding(next', item, rlist, wlist, 1)
  {
    assert wlist == [wlist[0]] && wlist[0] in wlist;
    ChainedStays(next, next[wlist[0] := None], rlist);
  }

  lemma FoundSteps(s: State, n: nat, a: nat)
    requires Inv(s) && s.reader == Found(n, a)
    ensures Safe(ReadStep(s))
  {
    assert a == s.rlist[1] && a in s.rlist[1..];
    HeldIsLive(s.refs, s.others, s.item, a);
    SameEnds(s, Called(n, a));
    HandOn(s.pushed, s.consumed, s.item, s.rlist, Unspliced(s));
  }

  lemma HandOn(pushed: seq<Obj>, consumed: seq<Obj>, item: map<nat, Obj>, rlist: seq<nat>, w: seq<nat>)
    requires |rlist| > 1 && InOrder(pushed, consumed, item, rlist[1..], w) && rlist[1] in item
    ensures InOrder(pushed, consumed + [item[rlist[1]]], item, rlist[2..], w)
  {
    var x := item[rlist[1]];
    assert rlist[1..] == [rlist[1]] + rlist[2..];
    assert ItemsOf(item, rlist[1..]) == [x] + ItemsOf(item, rlist[2..]);
    Assoc(consumed, [x], ItemsOf(item, rlist[2..]));
  }

  lemma CalledSteps(s: State, n: nat, a: nat)
    requires Inv(s) && s.reader == Called(n, a)
    ensures Safe(ReadStep(s))
  {
    assert a in s.rlist && a in s.item;
    HeldIsLive(s.refs, s.others, s.item, a);
    SameEnds(s, Dropped(n, a));
    ReleaseRef(s.refs, s.others, s.item, a);
    Release(s.next, s.item, s.rlist, s.wlist, s.hands, Splicing(s.reader));
    ReleaseHands(s.item, s.pushers, s.hands, a);
    SameItems(s.pushed, s.consumed, s.item, s.item - {a}, Unread(s), Unspliced(s));
  }

  // While the reader deals with one object, the ends and the lock stay as they are.
  lemma SameEnds(s: State, reader: ReadPc)
    requires Inv(s) && ((s.reader.Found? && reader.Called?) || (s.reader.Called? && reader.Dropped?))
    requires reader.node == s.reader.node && reader.after == s.reader.after
    ensures ReaderAt(reader, s.rlist, s.wlist)
    ensures ReadEnds(reader, s.rlist, s.rhead, s.rtail, s.rnums)
    ensures WriteEnds(reader, HolderPc(s.lock, s.pushers), s.rlist, s.wlist, s.whead, s.wtail, s.wnums)
    ensures Owned(s.lock, s.pushers, reader)
  {}

  lemma ReleaseHands(item: map<nat, Obj>, pushers: map<nat, PushPc>, hands: map<nat, nat>, a: nat)
    requires Hands(item, pushers, hands) && a !in hands
    ensures Hands(item - {a}, pushers, hands)
  {}

  lemma ReleaseRef(refs: multiset<Obj>, others: multiset<Obj>, item: map<nat, Obj>, n: nat)
    requires RefsCount(refs, others, item) && n in item
    ensures RefsCount(refs - multiset{item[n]}, others, item - {n})
  {
    HeldIsLive(refs, others, item, n);
    HoldersDrop(item, n);
  }

  lemma Release(next: map<nat, Option<nat>>, item: map<nat, Obj>, rlist: seq<nat>, wlist: seq<nat>,
      hands: map<nat, nat>, splicing: bool)
    requires Lists(next, rlist, wlist, splicing) && NoneLost(next, hands, rlist, wlist) &&
      Holding(next, item, rlist, wlist, 1)
    requires |rlist| > 1
    ensures Holding(next, item - {rlist[1]}, rlist, wlist, 2)
    ensures rlist[1] !in hands && rlist[1] !in rlist[2..] && rlist[1] !in wlist[1..]
  {
    assert rlist[1] in rlist;
  }

  lemma DroppedSteps(s: State, n: nat, a: nat)
    requires Inv(s) && s.reader == Dropped(n, a)
    ensures Safe(ReadStep(s))
  {
    FreeHead(s.next, s.item, s.rlist, s.wlist, s.hands);
    assert s.rlist[1..][1..] == s.rlist[2..];
    assert ReadEnds(Freed(a), s.rlist[1..], s.rhead, s.rtail, s.rnums);
    assert PointsOn(s.next, s.rlist, 0);
  }

  lemma FreeHead(next: map<nat, Option<nat>>, item: map<nat, Obj>, rlist: seq<nat>, wlist: seq<nat>,
      hands: map<nat, nat>)
    requires Lists(next, rlist, wlist, false) && NoneLost(next, hands, rlist, wlist) &&
      Holding(next, item, rlist, wlist, 2)
    requires |rlist| > 1
    ensures var next', rlist' := next - {rlist[0]}, rlist[1..];
      && Lists(next', rlist', wlist, false)
      && NoneLost(next', hands, rlist', wlist)
      && Holding(next', item, rlist', wlist, 1)
  {
    assert rlist == [rlist[0]] + rlist[1..];
    assert rlist[0] in rlist && rlist[0] !in rlist[1..];
    ChainedNodes(next, rlist);
    ChainedStays(next, next - {rlist[0]}, wlist);
    forall i: nat | i < |rlist[1..]| ensures PointsOn(next - {rlist[0]}, rlist[1..], i) {
      assert PointsOn(next, rlist, i + 1) && rlist[1..][i] in rlist[1..];
    }
  }

  // ---------------------------------------------------------------------------
  // Runs

  /** No step touches freed memory, and every step keeps the invariant. */
  lemma StepSafe(s: State, a: Action)
    requires Inv(s)
    ensures Safe(Step(s, a))
  {
    match a
    case Begin(t, x, n) => BeginSteps(s, t, x, n);
    case Push(t) => PushSteps(s, t);
    case Read => ReadSteps(s);
    case _ => EnvironmentSteps(s, a);
  }

  // A schedule's actions in turn; one that cannot be taken now is passed over.
  function Run(s: State, schedule: seq<Action>): Outcome
    decreases |schedule|
  {
    if schedule == [] then Ok(s) else
      match Step(s, schedule[0])
      case Blocked => Run(s, schedule[1..])
      case Crash => Crash
      case Ok(s') => Run(s', schedule[1..])
  }

  lemma {:induction false} RunSafe(s: State, schedule: seq<Action>)
    requires Inv(s)
    ensures Run(s, schedule).Ok? && Inv(Run(s, schedule).state)
    decreases |schedule|
  {
    if schedule != [] {
      StepSafe(s, schedule[0]);
      match Step(s, schedule[0])
      case Blocked => RunSafe(s, schedule[1..]);
      case Ok(s') => RunSafe(s', schedule[1..]);
    }
  }

  ghost predicate Waits(item: map<nat, Obj>, ns: seq<nat>, xs: seq<Obj>) {
    |xs| == |ns| && forall i :: 0 <= i < |ns| ==> ns[i] in item && item[ns[i]] == xs[i]
  }

  /** Whatever the schedule, no step touches a freed node or object. What was pushed is, in order, what
      the callback was handed, what waits in the read list and what waits in the write list; the lists
      share no node; and where no thread is inside the lock or freeing a node the counters count them. */
  lemma Delivered(rnode: nat, wnode: nat, others: multiset<Obj>, schedule: seq<Action>)
    returns (s': State, r: seq<Obj>, w: seq<Obj>)
    requires rnode != wnode
    ensures Run(Created(rnode, wnode, others), schedule) == Ok(s')
    ensures s'.pushed == s'.consumed + r + w && Waits(s'.item, Unread(s'), r) && Waits(s'.item, Unspliced(s'), w)
    ensures forall n :: n in s'.rlist ==> n !in s'.wlist
    ensures s'.lock == Nobody && s'.reader == Top ==> s'.rnums == |r| && s'.wnums == |w|
  {
    var s := Created(rnode, wnode, others);
    CreatedInv(rnode, wnode, others);
    RunSafe(s, schedule);
    s' := Run(s, schedule).state;
    r, w := ItemsOf(s'.item, Unread(s')), ItemsOf(s'.item, Unspliced(s'));
  }

  // ---------------------------------------------------------------------------
  // Nothing is left behind

  // On a pass of the reader that no pusher disturbs: all that is left of the write list is its head
  // once the lock has been left.
  ghost predicate Passing(s: State) {
    && Inv(s) && !s.lock.Pusher? && !s.reader.Top?
    && (s.reader.Entered? || s.reader.Moving? || |s.wlist| == 1)
  }

  function Phase(reader: ReadPc): nat {
    match reader
    case Entered => 8
    case Moving(done, _) => if done <= 5 then 7 - done else 2
    case Leaving => 1
    case _ => 0
  }

  function Rank(reader: ReadPc): nat {
    match reader
    case Freed(_) => 6
    case Uncounted(_) => 5
    case Looking(_) => 4
    case Found(_, _) => 3
    case Called(_, _) => 2
    case Dropped(_, _) => 1
    case _ => 0
  }

  // A step takes the reader further: to a later phase, or on in its walk over the list.
  predicate Further(s: State, s': State) {
    || Phase(s'.reader) < Phase(s.reader)
    || (Phase(s'.reader) == Phase(s.reader) && 6 * |s'.rlist| + Rank(s'.reader) < 6 * |s.rlist| + Rank(s.reader))
  }

  // Outside the lock the reader walks over the read list.
  lemma WalksOn(s: State)
    requires ReadStep(s).Ok? && !s.reader.Top? && !s.reader.Entered? && !s.reader.Moving? && !s.reader.Leaving?
    ensures var s' := ReadStep(s).state;
      && s'.pushed == s.pushed && s'.lock == s.lock && s'.wlist == s.wlist
      && (s'.reader.Top? || (!s'.reader.Entered? && !s'.reader.Moving? && Further(s, s')))
  {
    match s.reader
    case Looking(_) =>
    case Found(_, _) =>
    case Called(_, _) =>
    case Dropped(_, _) =>
    case Freed(_) =>
    case Uncounted(_) =>
  }

  // Inside the lock it gets on with the splice.
  lemma SplicesOn(s: State)
    requires ReadStep(s).Ok? && (s.reader.Entered? || s.reader.Moving? || s.reader.Leaving?)
    requires s.reader.Moving? ==> s.reader.done <= 5
    ensures var s' := ReadStep(s).state;
      && s'.pushed == s.pushed && (s'.lock == s.lock || s'.lock == Nobody)
      && (s'.wlist == s.wlist || (s'.reader.Moving? && |s'.wlist| == 1))
      && Phase(s'.reader) < Phase(s.reader) && !s'.reader.Entered? && !s'.reader.Top?
      && (s'.reader.Moving? ==> !s.reader.Entered? || s.wnums >= 1)
  {}

  lemma PassGoesOn(s: State)
    requires Passing(s)
    ensures var r := ReadStep(s);
      && r.Ok? && Inv(r.state) && r.state.pushed == s.pushed
      && if r.state.reader.Top? then r.state.consumed == s.pushed else Passing(r.state) && Further(s, r.state)
  {
    ReadSteps(s);
    PassStart(s);
    if s.reader.Entered? || s.reader.Moving? || s.reader.Leaving? {
      SplicesOn(s);
    } else {
      WalksOn(s);
      if s.reader.Looking? {
        PassEmpty(s);
      }
    }
  }

  lemma PassStart(s: State)
    requires Passing(s)
    ensures ReadStep(s) != Blocked && |s.rlist| > 0
    ensures s.reader.Moving? ==> s.reader.done <= 5 && |s.wlist| == 1
    ensures s.reader.Entered? && s.wnums < 1 ==> |s.wlist| == 1
  {
    assert HolderPc(s.lock, s.pushers) == Idle;
  }

  // A pass ends where nothing waits.
  lemma PassEmpty(s: State)
    requires Inv(s) && s.reader.Looking? && |s.wlist| == 1
    ensures ReadStep(s).Ok? && ReadStep(s).state.reader.Top? ==> s.consumed == s.pushed
  {
    assert PointsOn(s.next, s.rlist, 0);
    if |s.rlist| == 1 {
      assert ItemsOf(s.item, Unread(s)) == [] && ItemsOf(s.item, Unspliced(s)) == [];
    }
  }

  // At the end the reader is back at its start, and everything pushed has been handed on.
  ghost predicate HandsOnAll(s: State, schedule: seq<Action>) {
    var r := Run(s, schedule);
    r.Ok? && r.state.reader == Top && r.state.pushed == s.pushed && r.state.consumed == s.pushed
  }

  /** Left alone from the moment it holds the lock, the reader comes back to its start having handed on
      everything pushed. */
  lemma {:induction false} PassEnds(s: State) returns (schedule: seq<Action>)
    requires Passing(s)
    ensures forall a :: a in schedule ==> a == Read
    ensures HandsOnAll(s, schedule)
    decreases Phase(s.reader), 6 * |s.rlist| + Rank(s.reader)
  {
    PassGoesOn(s);
    var s' := ReadStep(s).state;
    var rest := [];
    if !s'.reader.Top? {
      rest := PassEnds(s');
    } else {
      assert Run(s', rest) == Ok(s');
    }
    schedule := [Read] + rest;
    ReadFirst(s, s', rest);
  }

  lemma ReadFirst(s: State, s': State, rest: seq<Action>)
    requires ReadStep(s) == Ok(s')
    ensures Run(s, [Read] + rest) == Run(s', rest)
  {
    assert ([Read] + rest)[1..] == rest;
  }

  // What is left of the queue while it is taken down: two lists, one of them its head alone.
  ghost predicate Remains(next: map<nat, Option<nat>>, item: map<nat, Obj>, refs: multiset<Obj>, others: multiset<Obj>,
      rlist: seq<nat>, wlist: seq<nat>)
  {
    && Lists(next, rlist, wlist, false) && NoneLost(next, map[], rlist, wlist) && Holding(next, item, rlist, wlist, 1)
    && RefsCount(refs, others, item) && |wlist| == 1
  }

  /** sis_fast_queue_destroy, with the reader stopped and no push under way: every node is freed once,
      and every reference the queue held is given back once. */
  method Destroy(s: State) returns (next: map<nat, Option<nat>>, item: map<nat, Obj>, refs: multiset<Obj>)
    requires Inv(s) && s.reader == Top && s.hands == map[] && s.lock == Nobody
    ensures next == map[] && item == map[] && refs == s.others
  {
    var rtail, wtail;
    ghost var rlist, wlist;
    next, rtail, wtail, rlist, wlist := MoveAll(s);
    item, refs := s.item, s.refs;
    var node := s.rhead;
    assert PointsOn(next, rlist, 0);
    while next[node].Some?
      invariant Remains(next, item, refs, s.others, rlist, wlist) && PointsOn(next, rlist, 0)
      invariant node == rlist[0] && rtail == Last(rlist) && wtail == wlist[0]
      decreases |rlist|
    {
      next, item, refs, node := FreeFirst(next, item, refs, node, s.others, rlist, wlist);
      rlist := rlist[1..];
    }
    LastTwo(next, item, refs, s.others, rlist, wlist);
    next := Free(next, rtail);
    next := Free(next, wtail);
  }

  // The splice that the clearing starts with, under the lock.
  method MoveAll(s: State)
    returns (next: map<nat, Option<nat>>, rtail: nat, wtail: nat, ghost rlist: seq<nat>, ghost wlist: seq<nat>)
    requires Inv(s) && s.reader == Top && s.hands == map[] && s.lock == Nobody
    ensures Remains(next, s.item, s.refs, s.others, rlist, wlist)
    ensures s.rhead == rlist[0] && rtail == Last(rlist) && wtail == wlist[0]
  {
    next, rtail, wtail, rlist, wlist := s.next, s.rtail, s.wtail, s.rlist, s.wlist;
    if s.wnums >= 1 {
      Splice(next, s.item, rlist, wlist, s.hands);
      next := next[rtail := next[s.whead]];
      rlist, wlist := rlist + wlist[1..], wlist[..1];
      rtail := wtail;
      Cut(next, s.item, rlist, wlist, s.hands);
      next := next[s.whead := None];
      wtail := s.whead;
    }
  }

  // One round of the clearing: the object of the next node and the node before it are given up.
  method FreeFirst(next0: map<nat, Option<nat>>, item0: map<nat, Obj>, refs0: multiset<Obj>, node0: nat,
                   ghost others: multiset<Obj>, ghost rlist: seq<nat>, ghost wlist: seq<nat>)
    returns (next: map<nat, Option<nat>>, item: map<nat, Obj>, refs: multiset<Obj>, node: nat)
    requires Remains(next0, item0, refs0, others, rlist, wlist) && PointsOn(next0, rlist, 0)
    requires node0 == rlist[0] && next0[node0].Some?
    ensures |rlist| > 1 && Remains(next, item, refs, others, rlist[1..], wlist) && PointsOn(next, rlist[1..], 0) &&
      node == rlist[1]
  {
    node := next0[node0].value;
    HeldIsLive(refs0, others, item0, node);
    ReleaseRef(refs0, others, item0, node);
    Release(next0, item0, rlist, wlist, map[], false);
    FreeHead(next0, item0 - {node}, rlist, wlist, map[]);
    refs := refs0 - multiset{item0[node]};
    item := item0 - {node};
    next := Free(next0, node0);
  }

  lemma LastTwo(next: map<nat, Option<nat>>, item: map<nat, Obj>, refs: multiset<Obj>, others: multiset<Obj>,
      rlist: seq<nat>, wlist: seq<nat>)
    requires Remains(next, item, refs, others, rlist, wlist) && |rlist| == 1
    ensures next.Keys == {rlist[0], wlist[0]} && rlist[0] != wlist[0] && item == map[] && refs == others
  {
    ChainedNodes(next, rlist);
    ChainedNodes(next, wlist);
    assert rlist == [rlist[0]] && wlist == [wlist[0]];
    assert rlist[0] in rlist && wlist[0] in wlist;
    assert item == map[];
    assert forall x :: Holders(item, x) == {};
  }

  // sis_unlock_node_destroy: only a live node may be freed.
  method Free(next: map<nat, Option<nat>>, n: nat) returns (next': map<nat, Option<nat>>)
    requires n in next
    ensures next' == next - {n}
  {
    next' := next - {n};
  }
}
