/** The and/or evaluator of src/core/sis_method.c: methods on one level are alternatives, a method and
    the level under it both count; one pass over the linked nodes folds the answer, in place, into the
    flag of the first root. */
module Judge {
  import opened Sequences


  // A method with its arguments.
  type Call(==, !new)

  class Node {
    const call: Call
    var ok: bool
    var next: Node?
    var prev: Node?
    // the last of the children
    var child: Node?
    var father: Node?

    constructor (call: Call)
      ensures this.call == call && !ok && next == null && prev == null && child == null && father == null
    {
      this.call := call;
      ok, next, prev, child, father := false, null, null, null, null;
    }
  }

  // The shape of a linked tree: its nodes, level by level.
  datatype Tree = Tree(node: Node, kids: seq<Tree>)

  ghost function Nodes(ts: seq<Tree>): set<Node> {
    if ts == [] then {} else {ts[0].node} + Nodes(ts[0].kids) + Nodes(ts[1..])
  }

  // Nothing occurs twice.
  ghost predicate Apart(ts: seq<Tree>) {
    ts != [] ==>
      && ts[0].node !in Nodes(ts[0].kids)
      && Apart(ts[0].kids) && Apart(ts[1..])
      && {ts[0].node} + Nodes(ts[0].kids) !! Nodes(ts[1..])
  }

  // Node i of a level points as it should; after is what follows the last one.
  ghost predicate Placed(ts: seq<Tree>, i: nat, father: Node?, after: Node?)
    requires i < |ts|
    reads ts[i].node`next, ts[i].node`prev, ts[i].node`child, ts[i].node`father
  {
    var n, kids := ts[i].node, ts[i].kids;
    && n.next == (if i + 1 < |ts| then ts[i + 1].node else after)
    && n.prev == (if i == 0 then null else ts[i - 1].node)
    && n.child == (if kids == [] then null else kids[|kids| - 1].node)
    && n.father == father
  }

  ghost function Tops(ts: seq<Tree>): set<Node> {
    set i | 0 <= i < |ts| :: ts[i].node
  }

  // The nodes of one level point to one another as they should.
  ghost predicate LevelTo(ts: seq<Tree>, father: Node?, after: Node?)
    reads Tops(ts)`next, Tops(ts)`prev, Tops(ts)`child, Tops(ts)`father
  {
    forall i: nat :: i < |ts| ==> Placed(ts, i, father, after)
  }

  ghost predicate Level(ts: seq<Tree>, father: Node?)
    reads Tops(ts)`next, Tops(ts)`prev, Tops(ts)`child, Tops(ts)`father
  {
    LevelTo(ts, father, null)
  }

  // The nodes under a level.
  ghost function Lower(ts: seq<Tree>): set<Node> {
    if ts == [] then {} else Nodes(ts[0].kids) + Lower(ts[1..])
  }

  /** So do those of all levels under it. */
  ghost predicate Deep(ts: seq<Tree>)
    reads Lower(ts)`next, Lower(ts)`prev, Lower(ts)`child, Lower(ts)`father
  {
    if ts == [] then true else
      TopsAreNodes(ts[0].kids);
      LowerAreNodes(ts[0].kids);
      Level(ts[0].kids, ts[0].node) && Deep(ts[0].kids) && Deep(ts[1..])
  }

  lemma {:induction false} LowerAreNodes(ts: seq<Tree>)
    ensures Lower(ts) <= Nodes(ts)
  {
    if ts != [] {
      LowerAreNodes(ts[1..]);
    }
  }

  lemma {:induction false} TopsAreNodes(ts: seq<Tree>)
    ensures Tops(ts) <= Nodes(ts)
  {
    if ts != [] {
      TopsAreNodes(ts[1..]);
      assert ts == [ts[0]] + ts[1..];
    }
  }

  /** What a method comes to: its own answer, and that of some method under it if there are any. */
  ghost predicate Eval(proc: Call -> bool, t: Tree) {
    proc(t.node.call) && (t.kids == [] || exists k :: k in t.kids && Eval(proc, k))
  }

  ghost predicate Any(proc: Call -> bool, ts: seq<Tree>) {
    exists t :: t in ts && Eval(proc, t)
  }

  // The nodes a pass over a level comes to: a node's children only if its own answer is yes.
  ghost function Reached(proc: Call -> bool, ts: seq<Tree>): set<Node> {
    if ts == [] then {} else
      {ts[0].node} + (if proc(ts[0].node.call) then Reached(proc, ts[0].kids) else {}) + Reached(proc, ts[1..])
  }

  ghost function Weight(ts: seq<Tree>): nat {
    if ts == [] then 0 else 1 + Weight(ts[0].kids) + Weight(ts[1..])
  }

  lemma {:induction false} ReachedAreNodes(proc: Call -> bool, ts: seq<Tree>)
    ensures Reached(proc, ts) <= Nodes(ts)
  {
    if ts != [] {
      ReachedAreNodes(proc, ts[0].kids);
      ReachedAreNodes(proc, ts[1..]);
    }
  }

  // sis_method_node_first
  method First(node: Node, ghost ts: seq<Tree>, ghost i: nat, ghost father: Node?) returns (first: Node)
    requires Level(ts, father) && i < |ts| && node == ts[i].node
    ensures first == ts[0].node
  {
    first := node;
    ghost var j: nat := i;
    assert Placed(ts, j, father, null);
    while first.prev != null
      invariant j < |ts| && first == ts[j].node && Placed(ts, j, father, null)
      decreases j
    {
      first := first.prev;
      j := j - 1;
      assert Placed(ts, j, father, null);
    }
  }

  lemma AnyOf(proc: Call -> bool, ts: seq<Tree>)
    requires ts != []
    ensures Any(proc, ts) <==> Eval(proc, ts[0]) || Any(proc, ts[1..])
  {
    assert ts == [ts[0]] + ts[1..];
  }

  // The nodes of a shape at hand are there.
  lemma {:induction false} NodesExist(ts: seq<Tree>)
    ensures forall n :: n in Nodes(ts) ==> allocated(n)
    ensures Lower(ts) <= Nodes(ts) && Tops(ts) <= Nodes(ts)
  {
    LowerAreNodes(ts);
    TopsAreNodes(ts);
    if ts != [] {
      NodesExist(ts[0].kids);
      NodesExist(ts[1..]);
    }
  }

  // The node of t and what is under it.
  ghost predicate Under(t: Tree)
    reads Nodes([t])`next, Nodes([t])`prev, Nodes([t])`child, Nodes([t])`father
  {
    assert Nodes([t]) == {t.node} + Nodes(t.kids) by { assert [t][1..] == []; }
    TopsAreNodes(t.kids);
    LowerAreNodes(t.kids);
    && t.node.child == (if t.kids == [] then null else t.kids[|t.kids| - 1].node)
    && Level(t.kids, t.node) && Deep(t.kids) && Apart(t.kids) && t.node !in Nodes(t.kids)
  }

  // The level ts under father from its i-th node on.
  ghost predicate From(ts: seq<Tree>, i: nat, rest: seq<Tree>, father: Node?)
    reads (Tops(ts) + Nodes(rest))`next, (Tops(ts) + Nodes(rest))`prev, (Tops(ts) + Nodes(rest))`child,
      (Tops(ts) + Nodes(rest))`father
  {
    LowerAreNodes(rest);
    && i < |ts| && rest == ts[i..] && Level(ts, father) && Deep(rest) && Apart(rest)
    && father !in Nodes(rest) && father != ts[0].node && (i > 0 ==> ts[0].node !in Nodes(rest))
  }

  lemma Enter(t: Tree)
    requires Under(t) && t.kids != []
    ensures From(t.kids, 0, t.kids, t.node)
  {
    TopsAreNodes(t.kids);
    assert t.kids[0].node in Tops(t.kids);
  }

  lemma OneFurther(ts: seq<Tree>, i: nat, rest: seq<Tree>, father: Node?)
    requires From(ts, i, rest, father)
    ensures rest[0] == ts[i] && Under(rest[0]) && Placed(ts, i, father, null)
    ensures i + 1 < |ts| ==> From(ts, i + 1, rest[1..], father)
    ensures i + 1 == |ts| ==> rest[1..] == []
  {
    assert Placed(ts, i, father, null);
    assert ts[i..][1..] == ts[i + 1..];
  }

  // What a pass over the nodes from rest on may change, father and first of the level aside.
  lemma ReachedParts(proc: Call -> bool, ts: seq<Tree>, i: nat, rest: seq<Tree>, father: Node?)
    requires From(ts, i, rest, father)
    ensures var t, r := rest[0], Reached(proc, rest[1..]);
      && t.node in Reached(proc, rest) && r <= Reached(proc, rest) && (i == 0 <==> t.node == ts[0].node)
      && Reached(proc, rest) == {t.node} + (if proc(t.node.call) then Reached(proc, t.kids) else {}) + r
      && t.node !in r && t.node !in Reached(proc, t.kids) && Reached(proc, t.kids) !! r
      && father !in Reached(proc, rest) && (i > 0 ==> ts[0].node !in Reached(proc, rest))
  {
    ReachedAreNodes(proc, rest[0].kids);
    ReachedAreNodes(proc, rest[1..]);
    ReachedAreNodes(proc, rest);
  }

  // A node's own answer and, if it is yes, that of the level under it.
  method JudgeNode(proc: Call -> bool, node: Node, ghost t: Tree)
    requires node == t.node && Under(t)
    modifies node`ok, (if proc(node.call) then Reached(proc, t.kids) else {})`ok
    ensures node.ok <==> Eval(proc, t)
    ensures proc(node.call) ==> forall n :: n in Reached(proc, t.kids) ==> !n.ok
    decreases Weight(t.kids), 1
  {
    ReachedAreNodes(proc, t.kids);
    NodesExist(t.kids);
    node.ok := proc(node.call);
    if node.child != null && node.ok {
      Enter(t);
      var first := First(node.child, t.kids, |t.kids| - 1, node);
      JudgeFrom(proc, node, first, t.kids, 0, t.kids, node);
    }
  }

  /** _sis_method_class_judge, from the i-th node of a level on: the answer of the rest of the level goes,
      with what the first node has gathered before, to the father's flag, or stays with the first root. */
  method JudgeFrom(proc: Call -> bool, onode: Node, node: Node, ghost ts: seq<Tree>, ghost i: nat,
      ghost rest: seq<Tree>, ghost father: Node?)
    requires From(ts, i, rest, father) && node == ts[i].node
    requires if i > 0 then onode == ts[0].node else onode == node || onode == father
    modifies Reached(proc, rest)`ok, ts[0].node`ok, (if father == null then {} else {father})`ok
    ensures var v := (i > 0 && old(ts[0].node.ok)) || Any(proc, rest);
      if father == null then ts[0].node.ok == v else father.ok == (old(father.ok) && v) && !ts[0].node.ok
    ensures forall n :: n in Reached(proc, rest) && n != ts[0].node ==> !n.ok
    decreases Weight(rest), 0
  {
    OneFurther(ts, i, rest, father);
    ReachedParts(proc, ts, i, rest, father);
    AnyOf(proc, rest);
    ReachedAreNodes(proc, rest);
    NodesExist(rest);
    NodesExist(ts);
    JudgeOne(proc, onode, node, ts, i, rest[0], father);
    GoOn(proc, node, ts, i, rest, father);
  }

  // One node of a level, its answer handed to the first.
  method JudgeOne(proc: Call -> bool, onode: Node, node: Node, ghost ts: seq<Tree>, ghost i: nat, ghost t: Tree,
      ghost father: Node?)
    requires i < |ts| && t == ts[i] && node == t.node && Level(ts, father) && Under(t)
    requires ts[0].node !in Nodes(t.kids) && (i > 0 ==> ts[0].node != node)
    requires if i > 0 then onode == ts[0].node else onode == node || onode == father
    modifies node`ok, ts[0].node`ok, (if proc(node.call) then Reached(proc, t.kids) else {})`ok
    ensures ts[0].node.ok == ((i > 0 && old(ts[0].node.ok)) || Eval(proc, t))
    ensures i > 0 ==> !node.ok
    ensures proc(node.call) ==> forall n :: n in Reached(proc, t.kids) ==> !n.ok
    decreases Weight(t.kids), 2
  {
    ReachedAreNodes(proc, t.kids);
    NodesExist(t.kids);
    NodesExist(ts);
    JudgeNode(proc, node, t);
    Fold(onode, node, ts, i, father);
  }

  // On to the next node; after the last one the first hands the answer of the level to the father.
  method GoOn(proc: Call -> bool, node: Node, ghost ts: seq<Tree>, ghost i: nat, ghost rest: seq<Tree>,
      ghost father: Node?)
    requires From(ts, i, rest, father) && node == ts[i].node
    modifies Reached(proc, rest[1..])`ok, ts[0].node`ok, (if father == null then {} else {father})`ok
    ensures var v := old(ts[0].node.ok) || Any(proc, rest[1..]);
      if father == null then ts[0].node.ok == v else father.ok == (old(father.ok) && v) && !ts[0].node.ok
    ensures forall n :: n in Reached(proc, rest[1..]) && n != ts[0].node ==> !n.ok
    decreases Weight(rest[1..]), 1
  {
    OneFurther(ts, i, rest, father);
    if node.next != null {
      NodesExist(ts);
      NodesExist(rest);
      var first := First(node, ts, i, father);
      OneFurther(ts, i, rest, father);
      JudgeFrom(proc, first, node.next, ts, i + 1, rest[1..], father);
    } else if node.father != null {
      var first := First(node, ts, i, father);
      node.father.ok := node.father.ok && first.ok;
      first.ok := false;
    }
  }

  // A node that is not the first of its level hands its flag to the first.
  method Fold(onode: Node, node: Node, ghost ts: seq<Tree>, ghost i: nat, ghost father: Node?)
    requires i < |ts| && node == ts[i].node && Level(ts, father)
    requires if i > 0 then onode == ts[0].node else onode == node || onode == father
    modifies node`ok, ts[0].node`ok
    ensures i == 0 || onode == node ==> node.ok == old(node.ok) && ts[0].node.ok == old(ts[0].node.ok)
    ensures i > 0 && onode != node ==> ts[0].node.ok == (old(ts[0].node.ok) || old(node.ok)) && !node.ok
  {
    if onode != node {
      var first := First(node, ts, i, father);
      if first == onode {
        onode.ok := onode.ok || node.ok;
        node.ok := false;
      }
    }
  }

  // ---------------------------------------------------------------------------
  // Loading

  // A configuration entry: a command with its arguments, or an argument of the command around it.
  datatype Entry = Entry(call: Call, command: bool, entries: seq<Entry>)

  // The commands of a level whose method is known, and under each its own.
  datatype Plan = Plan(call: Call, kids: seq<Plan>)

  function Planned(known: Call -> bool, es: seq<Entry>): seq<Plan> {
    if es == [] then [] else
      (if es[0].command && known(es[0].call) then [Plan(es[0].call, Planned(known, es[0].entries))] else [])
      + Planned(known, es[1..])
  }

  /** What a plan comes to, without any tree. */
  predicate Holds(proc: Call -> bool, p: Plan) {
    proc(p.call) && (p.kids == [] || exists k :: k in p.kids && Holds(proc, k))
  }

  function PlansOf(ts: seq<Tree>): (r: seq<Plan>)
    ensures |r| == |ts|
  {
    if ts == [] then [] else [Plan(ts[0].node.call, PlansOf(ts[0].kids))] + PlansOf(ts[1..])
  }

  lemma {:induction false} PlansPush(ts: seq<Tree>, t: Tree)
    ensures PlansOf(ts + [t]) == PlansOf(ts) + [Plan(t.node.call, PlansOf(t.kids))]
  {
    if ts == [] {
      EmptyLeft([t]);
      assert [t][1..] == [];
    } else {
      TailOfConcat(ts, [t]);
      PlansPush(ts[1..], t);
    }
  }

  lemma {:induction false} PlannedPush(known: Call -> bool, es: seq<Entry>, e: Entry)
    ensures Planned(known, es + [e]) == Planned(known, es) + Planned(known, [e])
  {
    if es == [] {
      EmptyLeft([e]);
      EmptyLeft(Planned(known, [e]));
    } else {
      TailOfConcat(es, [e]);
      PlannedPush(known, es[1..], e);
      Assoc(if es[0].command && known(es[0].call) then [Plan(es[0].call, Planned(known, es[0].entries))] else [],
            Planned(known, es[1..]), Planned(known, [e]));
    }
  }

  function LastOf(ts: seq<Tree>): Node? { if ts == [] then null else ts[|ts| - 1].node }

  // A level as far as it has been loaded.
  ghost predicate Built(ts: seq<Tree>, father: Node?, last: Node?)
    reads Nodes(ts)`next, Nodes(ts)`prev, Nodes(ts)`child, Nodes(ts)`father
  {
    TopsAreNodes(ts);
    LowerAreNodes(ts);
    Level(ts, father) && Deep(ts) && Apart(ts) && last == LastOf(ts) && father !in Nodes(ts)
  }

  lemma {:induction false} NodesPush(ts: seq<Tree>, t: Tree)
    ensures Nodes(ts + [t]) == Nodes(ts) + {t.node} + Nodes(t.kids)
  {
    if ts == [] {
      EmptyLeft([t]);
      assert [t][1..] == [];
    } else {
      TailOfConcat(ts, [t]);
      NodesPush(ts[1..], t);
    }
  }

  lemma {:induction false} DeepPush(ts: seq<Tree>, t: Tree)
    requires Deep(ts) && Level(t.kids, t.node) && Deep(t.kids)
    ensures Deep(ts + [t])
  {
    if ts == [] {
      EmptyLeft([t]);
      assert [t][1..] == [];
    } else {
      TailOfConcat(ts, [t]);
      DeepPush(ts[1..], t);
    }
  }

  lemma {:induction false} ApartPush(ts: seq<Tree>, t: Tree)
    requires Apart(ts) && Apart(t.kids) && t.node !in Nodes(t.kids) && {t.node} + Nodes(t.kids) !! Nodes(ts)
    ensures Apart(ts + [t])
  {
    if ts == [] {
      EmptyLeft([t]);
      assert [t][1..] == [];
    } else {
      TailOfConcat(ts, [t]);
      ApartPush(ts[1..], t);
      NodesPush(ts[1..], t);
    }
  }

  lemma LevelPush(ts: seq<Tree>, t: Tree, father: Node?)
    requires LevelTo(ts, father, t.node) && t.node.next == null && t.node.prev == LastOf(ts) && t.node.father == father
    requires t.node.child == LastOf(t.kids)
    ensures Level(ts + [t], father)
  {
    var ts' := ts + [t];
    forall i: nat | i < |ts'| ensures Placed(ts', i, father, null) {
      if i < |ts| {
        assert Placed(ts, i, father, t.node);
      }
    }
  }

  lemma {:induction false} TopsApart(ts: seq<Tree>, i: nat, j: nat)
    requires Apart(ts) && i < j < |ts|
    ensures ts[i].node != ts[j].node
  {
    TopsAreNodes(ts[1..]);
    if i == 0 {
      assert ts[j].node == ts[1..][j - 1].node && ts[1..][j - 1].node in Tops(ts[1..]);
    } else {
      TopsApart(ts[1..], i - 1, j - 1);
    }
  }

  lemma {:induction false} TopsNotLower(ts: seq<Tree>)
    requires Apart(ts)
    ensures Tops(ts) !! Lower(ts)
  {
    if ts != [] {
      TopsNotLower(ts[1..]);
      TopsAreNodes(ts[1..]);
      LowerAreNodes(ts[1..]);
      assert forall i :: 0 < i < |ts| ==> ts[i] == ts[1..][i - 1];
    }
  }

  // The new node goes behind the last one and becomes the father's child.
  method Link(last: Node?, father: Node?, node: Node, ghost ts: seq<Tree>)
    requires Built(ts, father, last) && node !in Nodes(ts) && node != father
    requires node.next == null && node.prev == null && node.father == null
    modifies (if last == null then {} else {last})`next, (if father == null then {} else {father})`child, node`prev,
      node`father
    ensures LevelTo(ts, father, node) && Deep(ts) && node.next == old(node.next) && node.child == old(node.child)
    ensures node.prev == LastOf(ts) && node.father == father && (father != null ==> father.child == node)
  {
    NodesExist(ts);
    if last != null {
      LinkNext(last, node, ts, father);
      node.prev := last;
    }
    if father != null {
      father.child := node;
      node.father := father;
    }
  }

  method LinkNext(last: Node, node: Node, ghost ts: seq<Tree>, ghost father: Node?)
    requires Level(ts, father) && Deep(ts) && Apart(ts) && last == LastOf(ts)
    modifies last`next
    ensures LevelTo(ts, father, node) && Deep(ts)
  {
    NodesExist(ts);
    TopsNotLower(ts);
    LastIsNode(ts);
    forall i: nat | i < |ts| ensures Placed(ts, i, father, null) && (i + 1 < |ts| ==> ts[i].node != last) {
      if i + 1 < |ts| {
        TopsApart(ts, i, |ts| - 1);
      }
    }
    last.next := node;
  }

  lemma LastIsNode(ts: seq<Tree>)
    ensures ts != [] ==> LastOf(ts) in Tops(ts) && LastOf(ts) in Nodes(ts)
  {
    TopsAreNodes(ts);
  }

  // Behind a level comes a node with what is under it.
  lemma BuiltPush(ts: seq<Tree>, t: Tree, father: Node?)
    requires LevelTo(ts, father, t.node) && Deep(ts) && Apart(ts) && father !in Nodes(ts)
    requires t.node.next == null && t.node.prev == LastOf(ts) && t.node.father == father
    requires Built(t.kids, t.node, t.node.child)
    requires {t.node} + Nodes(t.kids) !! Nodes(ts) && father !in {t.node} + Nodes(t.kids)
    ensures Built(ts + [t], father, t.node) && Nodes(ts + [t]) == Nodes(ts) + {t.node} + Nodes(t.kids)
  {
    LevelPush(ts, t, father);
    DeepPush(ts, t);
    ApartPush(ts, t);
    NodesPush(ts, t);
  }

  /** _sis_method_node_load: the entry's node is linked behind the last one and under the father, with
      what is under it; an unknown method is left out with all that is under it. */
  method Load(known: Call -> bool, last: Node?, father: Node?, e: Entry, ghost ts: seq<Tree>)
    returns (r: Node?, ghost ts': seq<Tree>)
    requires Built(ts, father, last)
    modifies (if last == null then {} else {last})`next, (if father == null then {} else {father})`child
    ensures Built(ts', father, r) && forall n :: n in Nodes(ts') ==> n in Nodes(ts) || fresh(n)
    ensures PlansOf(ts') == PlansOf(ts) + if known(e.call) then [Plan(e.call, Planned(known, e.entries))] else []
    ensures father != null ==> father.child == if known(e.call) then r else old(father.child)
    ensures !known(e.call) ==> r == last && ts' == ts
    decreases e, 0
  {
    if !known(e.call) {
      return last, ts;
    }
    NodesExist(ts);
    var node := new Node(e.call);
    Link(last, father, node, ts);
    ghost var kids := LoadBelow(known, node, e.entries, ts, father);
    r, ts' := node, ts + [Tree(node, kids)];
    BuiltPush(ts, Tree(node, kids), father);
    PlansPush(ts, Tree(node, kids));
  }

  // What is under a node that is linked in already
  method LoadBelow(known: Call -> bool, node: Node, es: seq<Entry>, ghost ts: seq<Tree>, ghost father: Node?)
    returns (ghost kids: seq<Tree>)
    requires LevelTo(ts, father, node) && Deep(ts) && node !in Nodes(ts) && node.child == null
    modifies node`child
    ensures LevelTo(ts, father, node) && Deep(ts)
    ensures Loaded(known, es, kids, node, node.child) && forall n :: n in Nodes(kids) ==> fresh(n)
    decreases es, 1
  {
    NodesExist(ts);
    var last;
    last, kids := LoadLevel(known, node, es);
  }

  // A level with the plans of some entries.
  ghost predicate Loaded(known: Call -> bool, es: seq<Entry>, ts: seq<Tree>, father: Node?, last: Node?)
    reads Nodes(ts)`next, Nodes(ts)`prev, Nodes(ts)`child, Nodes(ts)`father
  {
    Built(ts, father, last) && PlansOf(ts) == Planned(known, es)
  }

  // The commands among the entries, loaded one after the other.
  method LoadLevel(known: Call -> bool, father: Node?, es: seq<Entry>) returns (last: Node?, ghost ts: seq<Tree>)
    requires father != null ==> father.child == null
    modifies (if father == null then {} else {father})`child
    ensures Loaded(known, es, ts, father, last) && forall n :: n in Nodes(ts) ==> fresh(n)
    ensures father != null ==> father.child == last
    decreases es, 0
  {
    last, ts := null, [];
    var i := 0;
    while i < |es|
      invariant 0 <= i <= |es| && Loaded(known, es[..i], ts, father, last) && forall n :: n in Nodes(ts) ==> fresh(n)
      invariant father != null ==> father.child == last
    {
      LastIsNode(ts);
      last, ts := LoadEntry(known, last, father, es[i], es[..i], ts);
      assert es[..i + 1] == es[..i] + [es[i]];
      i := i + 1;
    }
    assert es[..i] == es;
  }

  // One entry of a level, if it is a command.
  method LoadEntry(known: Call -> bool, last: Node?, father: Node?, e: Entry, ghost es: seq<Entry>, ghost ts: seq<Tree>)
    returns (r: Node?, ghost ts': seq<Tree>)
    requires Loaded(known, es, ts, father, last) && (father != null ==> father.child == last)
    modifies (if last == null then {} else {last})`next, (if father == null then {} else {father})`child
    ensures Loaded(known, es + [e], ts', father, r) && forall n :: n in Nodes(ts') ==> n in Nodes(ts) || fresh(n)
    ensures father != null ==> father.child == r
    decreases e, 1
  {
    PlannedPush(known, es, e);
    PlannedOne(known, e);
    r, ts' := last, ts;
    if e.command {
      r, ts' := Load(known, last, father, e, ts);
    }
    LastIsNode(ts');
  }

  lemma PlannedOne(known: Call -> bool, e: Entry)
    ensures Planned(known, [e]) == if e.command && known(e.call) then [Plan(e.call, Planned(known, e.entries))] else []
  {
    assert Planned(known, [e][1..]) == [];
  }

  // ---------------------------------------------------------------------------
  // Both together

  lemma {:induction false} EvalIsHolds(proc: Call -> bool, ts: seq<Tree>)
    ensures forall i :: 0 <= i < |ts| ==> (Eval(proc, ts[i]) <==> Holds(proc, PlansOf(ts)[i]))
  {
    if ts != [] {
      var t, ps := ts[0], PlansOf(ts);
      EvalIsHolds(proc, t.kids);
      EvalIsHolds(proc, ts[1..]);
      assert forall k :: k in t.kids ==> exists i :: 0 <= i < |t.kids| && t.kids[i] == k;
      assert forall k :: k in PlansOf(t.kids) ==> exists i :: 0 <= i < |t.kids| && PlansOf(t.kids)[i] == k;
      forall i | 0 <= i < |ts| ensures Eval(proc, ts[i]) <==> Holds(proc, ps[i]) {
        if i > 0 {
          assert ts[i] == ts[1..][i - 1] && ps[i] == PlansOf(ts[1..])[i - 1];
        }
      }
    }
  }

  /** A configuration loaded and judged: the first root's flag says whether some known root command
      holds, those not known having been left out with all that is under them. */
  method LoadAndJudge(known: Call -> bool, proc: Call -> bool, es: seq<Entry>) returns (first: Node?)
    ensures first == null <==> Planned(known, es) == []
    ensures first != null ==> (first.ok <==> exists p :: p in Planned(known, es) && Holds(proc, p))
  {
    var last;
    ghost var ts;
    last, ts := LoadLevel(known, null, es);
    if last == null {
      return null;
    }
    NodesExist(ts);
    first := First(last, ts, |ts| - 1, null);
    LevelFromStart(ts);
    EvalIsHolds(proc, ts);
    ReachedAreNodes(proc, ts);
    JudgeFrom(proc, first, first, ts, 0, ts, null);
    AnyIsPlanned(proc, ts, PlansOf(ts));
  }

  lemma LevelFromStart(ts: seq<Tree>)
    requires ts != [] && Level(ts, null) && Deep(ts) && Apart(ts)
    ensures From(ts, 0, ts, null) && ts[0].node in Nodes(ts)
  {}

  lemma AnyIsPlanned(proc: Call -> bool, ts: seq<Tree>, ps: seq<Plan>)
    requires |ts| == |ps| && forall i :: 0 <= i < |ts| ==> (Eval(proc, ts[i]) <==> Holds(proc, ps[i]))
    ensures Any(proc, ts) <==> exists p :: p in ps && Holds(proc, p)
  {
    if Any(proc, ts) {
      var t :| t in ts && Eval(proc, t);
      var i :| 0 <= i < |ts| && ts[i] == t;
      assert ps[i] in ps;
    }
    if exists p :: p in ps && Holds(proc, p) {
      var p :| p in ps && Holds(proc, p);
      var i :| 0 <= i < |ps| && ps[i] == p;
      assert ts[i] in ts;
    }
  }
}
