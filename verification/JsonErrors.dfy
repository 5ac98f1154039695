/** Which texts the JSON loader refuses (src/core/sis_json.c). A container that gets no position back from an
    element overwrites the error pointer with null, so most errors are forgotten on the way out. What is left is
    told here by reading the text once from left to right with a stack of open brackets. */
module JsonErrors {
  import opened Memory
  import opened Options
  import opened Sequences
  import opened Json

  // ---------------------------------------------------------------------------
  // Reading from left to right

  // An open bracket, and whether the value it begins had a key
  datatype Frame = Frame(kind: Kind, keyed: bool)

  /** How the reading ends, with the number of brackets open there: the value is complete; a string is not closed
      or a key has no colon and no comma behind it; the text is over behind an element; or no value can begin. */
  datatype Verdict = Done | Broken(depth: nat) | RanOut(depth: nat) | Stuck

  // At the place of a value, to fill a node in that has a key or not
  function Want(stack: seq<Frame>, keyed: bool, t: Text): Verdict
    decreases |t|, 0
  {
    if Head(t) == QUOTE then
      (match StringEnd(t[1..], QUOTE)
       case None => Broken(|stack|)
       case Some(len) => if keyed then Follow(stack, true, t[1..][len + 1..]) else BehindKey(stack, t[1..][len + 1..]))
    else if Head(t) == MINUS || IsDigit(Head(t)) then Follow(stack, keyed, t[NumberEnd(t)..])
    else if Head(t) == OPEN_ARRAY || Head(t) == OPEN_OBJECT then
      var kind, v := if Head(t) == OPEN_ARRAY then Array else Object, Skip(t[1..]);
      if Head(v) == CloseOf(kind) then Follow(stack, keyed, v[1..])
      else Want(stack + [Frame(kind, keyed)], kind == Array, v)
    else Stuck
  }

  // Behind a key, whatever stands before the next colon or comma is passed over, brackets too.
  function BehindKey(stack: seq<Frame>, t: Text): Verdict
    decreases |t|, 2
  {
    var at := ToColon(t);
    if Head(at) == 0 then Broken(|stack|)
    else if at[0] == COLON then Want(stack, true, Skip(at[1..]))
    else Follow(stack, true, at)
  }

  // Behind a value: a value that comes without a comma is read as well.
  function Follow(stack: seq<Frame>, keyed: bool, t: Text): Verdict
    decreases |t|, 1
  {
    if stack == [] then Done else
      var u, top := Skip(t), stack[|stack| - 1];
      if Head(u) == 0 then RanOut(|stack|)
      else if u[0] == CloseOf(top.kind) then Follow(stack[..|stack| - 1], top.keyed, u[1..])
      else if u[0] == COMMA then Want(stack, top.kind == Array, Skip(u[1..]))
      else Want(stack, top.kind == Array || keyed, u)
  }

  function Reading(t: Text): Verdict {
    Want([], false, Skip(t))
  }

  // ---------------------------------------------------------------------------
  // The parser reads the same

  ghost predicate Fails(v: Verdict, depth: nat) {
    match v
    case Done => false
    case Broken(d) => d >= depth
    case RanOut(d) => d > depth
    case Stuck => true
  }

  // A value inside the open brackets. Only a break at its own level, or in a container that is the value, is told.
  ghost predicate Outcome(stack: seq<Frame>, p: Parse, v: Verdict) {
    match p.next
    case Some(u) => p.error == None && v == Follow(stack, p.node.key.Some?, u)
    case None => Fails(v, |stack|) && (p.error.Some? <==> v == Broken(|stack|) || v == RanOut(|stack| + 1))
  }

  // A container inside the open brackets, with keyed of its node
  ghost predicate Inside(stack: seq<Frame>, keyed: bool, r: Family, v: Verdict) {
    match r.1
    case Some(u) => r.2 == None && v == Follow(stack, keyed, u)
    case None => Fails(v, |stack|) && v != Broken(|stack|) && (r.2.Some? <==> v == RanOut(|stack| + 1))
  }

  ghost predicate ValueAgrees(stack: seq<Frame>, n: Node, t: Text) {
    Outcome(stack, ParseValue(n, t, None), Want(stack, n.key.Some?, t))
  }

  ghost predicate ChildrenAgree(stack: seq<Frame>, keyed: bool, kind: Kind, done: seq<Node>, index: nat, child: Node,
      v: Text)
  {
    Inside(stack, keyed, Children(kind, done, index, child, v, None),
      Want(stack + [Frame(kind, keyed)], kind == Array || child.key.Some?, Skip(v)))
  }

  ghost predicate ProceedAgrees(stack: seq<Frame>, keyed: bool, kind: Kind, done: seq<Node>, index: nat, p: Parse,
      v: Verdict)
  {
    Inside(stack, keyed, Proceed(kind, done, index, p), v)
  }

  lemma {:induction false} SkipTwice(t: Text)
    ensures Skip(Skip(t)) == Skip(t)
    decreases |t|
  {
    if 0 < Head(t) <= SPACE {
      SkipTwice(t[1..]);
    }
  }

  lemma FollowSkips(stack: seq<Frame>, keyed: bool, t: Text)
    ensures Follow(stack, keyed, Skip(t)) == Follow(stack, keyed, t)
  {
    SkipTwice(t);
  }

  lemma {:induction false} ValueAgree(stack: seq<Frame>, n: Node, t: Text)
    ensures ValueAgrees(stack, n, t)
    decreases |t|, 1
  {
    if Head(t) == QUOTE {
      StringAgrees(stack, n, t);
    } else if Head(t) == OPEN_ARRAY {
      ContainerAgrees(stack, n, Array, t);
    } else if Head(t) == OPEN_OBJECT {
      ContainerAgrees(stack, n, Object, t);
    }
  }

  lemma {:induction false} StringAgrees(stack: seq<Frame>, n: Node, t: Text)
    requires Head(t) == QUOTE
    ensures Outcome(stack, ParseString(n, t, None), Want(stack, n.key.Some?, t))
    decreases |t|, 0
  {
    match StringEnd(t[1..], QUOTE)
    case None =>
    case Some(len) =>
      if n.key.None? {
        MemberAgrees(stack, n.(key := Some(Dup(t[1..], len))), t, t[1..][len + 1..]);
      }
  }

  lemma {:induction false} MemberAgrees(stack: seq<Frame>, n: Node, start: Text, rest: Text)
    requires n.key.Some?
    ensures Outcome(stack, ParseMember(n, start, rest, None), BehindKey(stack, rest))
    decreases |rest|, 2
  {
    var at := ToColon(rest);
    if Head(at) == COLON {
      ValueAgree(stack, n, Skip(at[1..]));
      var p := ParseValue(n, Skip(at[1..]), None);
      if p.next.Some? {
        FollowSkips(stack, p.node.key.Some?, p.next.value);
      }
    }
  }

  lemma {:induction false} ContainerAgrees(stack: seq<Frame>, n: Node, kind: Kind, t: Text)
    requires t != [] && (kind == Array || kind == Object) && t[0] == if kind == Array then OPEN_ARRAY else OPEN_OBJECT
    ensures Outcome(stack, ParseContainer(n, kind, t, None), Want(stack, n.key.Some?, t))
    decreases |t|, 0
  {
    var v := Skip(t[1..]);
    if Head(v) != CloseOf(kind) {
      SkipTwice(t[1..]);
      ChildrenVerdict(stack, n.key.Some?, kind, [], 0, EMPTY, v);
    }
  }

  lemma {:induction false} ChildrenVerdict(stack: seq<Frame>, keyed: bool, kind: Kind, done: seq<Node>, index: nat,
      child: Node, v: Text)
    ensures ChildrenAgree(stack, keyed, kind, done, index, child, v)
    decreases |v|, 2
  {
    if Head(v) != 0 {
      var m := Keyed(kind, child, index);
      var stack' := stack + [Frame(kind, keyed)];
      ValueAgree(stack', m, Skip(v));
      ProceedVerdict(stack, keyed, kind, done, index, ParseValue(m, Skip(v), None), Want(stack', m.key.Some?, Skip(v)));
    }
  }

  lemma {:induction false} ProceedVerdict(stack: seq<Frame>, keyed: bool, kind: Kind, done: seq<Node>, index: nat,
      p: Parse, v: Verdict)
    requires Outcome(stack + [Frame(kind, keyed)], p, v)
    ensures ProceedAgrees(stack, keyed, kind, done, index, p, v)
    decreases if p.next.Some? then |p.next.value| else 0, 3
  {
    if p.next.Some? {
      var u, stack' := Skip(p.next.value), stack + [Frame(kind, keyed)];
      assert stack'[|stack'| - 1] == Frame(kind, keyed) && stack'[..|stack'| - 1] == stack;
      SkipTwice(p.next.value);
      if Head(u) != 0 && u[0] == COMMA {
        ChildrenVerdict(stack, keyed, kind, done + [p.node], index + 1, EMPTY, u[1..]);
      } else if Head(u) != 0 && u[0] != CloseOf(kind) {
        ChildrenVerdict(stack, keyed, kind, done, index + 1, p.node, u);
      }
    }
  }

  // ---------------------------------------------------------------------------
  // What is refused

  /** The parser reads a value to its end exactly when the reading does. */
  lemma CompleteExactly(t: Text)
    ensures ParseValue(EMPTY, Skip(t), None).next.Some? <==> Reading(t) == Done
  {
    ValueAgree([], EMPTY, Skip(t));
  }

  /** Every text: it is refused exactly when it is empty, when a string or a key at the outermost level is broken
      off, or when it is over right behind an element of the outermost bracket. Every other text is accepted,
      complete or not. */
  lemma LoadRefuses(t: Text)
    ensures Load(t) == None <==> t == [] || Reading(t) == Broken(0) || Reading(t) == RanOut(1)
  {
    ValueAgree([], EMPTY, Skip(t));
  }

  // ---------------------------------------------------------------------------
  // With one closing bracket more at the end of the text

  predicate NoNul(s: Text) { forall i :: 0 <= i < |s| ==> s[i] != 0 }

  lemma HeadOf(t: Text, c: Byte)
    requires t != []
    ensures t + [c] != [] && (t + [c])[0] == t[0] && Head(t + [c]) == Head(t) && (t + [c])[1..] == t[1..] + [c]
  {}

  lemma NoNulRest(t: Text, n: nat)
    requires NoNul(t) && n <= |t|
    ensures NoNul(t[n..])
  {}

  lemma {:induction false} SkipMore(t: Text, c: Byte)
    requires NoNul(t) && IsClose(c)
    ensures Skip(t + [c]) == Skip(t) + [c] && NoNul(Skip(t))
    decreases |t|
  {
    if t == [] {
      EmptyLeft([c]);
    } else {
      HeadOf(t, c);
      NoNulRest(t, 1);
      SkipMore(t[1..], c);
    }
  }

  lemma {:induction false} StringEndMore(t: Text, before: Byte, c: Byte)
    requires NoNul(t) && IsClose(c)
    ensures StringEnd(t + [c], before) == StringEnd(t, before)
    decreases |t|
  {
    if t == [] {
      EmptyLeft([c]);
      assert [c][1..] == [];
    } else {
      HeadOf(t, c);
      NoNulRest(t, 1);
      StringEndMore(t[1..], t[0], c);
    }
  }

  lemma {:induction false} ToColonMore(t: Text, c: Byte)
    requires NoNul(t) && IsClose(c)
    ensures NoNul(ToColon(t))
    ensures ToColon(t) != [] ==> ToColon(t + [c]) == ToColon(t) + [c]
    ensures ToColon(t) == [] ==> Head(ToColon(t + [c])) == 0
    decreases |t|
  {
    if t == [] {
      EmptyLeft([c]);
      assert [c][1..] == [];
    } else {
      HeadOf(t, c);
      NoNulRest(t, 1);
      ToColonMore(t[1..], c);
    }
  }

  lemma {:induction false} NumberEndMore(t: Text, c: Byte)
    requires IsClose(c)
    ensures NumberEnd(t + [c]) == NumberEnd(t)
    decreases |t|
  {
    if t == [] {
      EmptyLeft([c]);
    } else {
      HeadOf(t, c);
      NumberEndMore(t[1..], c);
    }
  }

  // With the bracket the reading is complete if it was before, or if just the outermost bracket was missing.
  ghost predicate Closes(v: Verdict, w: Verdict, kind: Kind, c: Byte) {
    w == Done <==> v == Done || (v == RanOut(1) && c == CloseOf(kind))
  }

  ghost predicate WantCloses(stack: seq<Frame>, keyed: bool, t: Text, t': Text, c: Byte)
    requires stack != []
  {
    Closes(Want(stack, keyed, t), Want(stack, keyed, t'), stack[0].kind, c)
  }

  ghost predicate FollowCloses(stack: seq<Frame>, keyed: bool, t: Text, t': Text, c: Byte)
    requires stack != []
  {
    Closes(Follow(stack, keyed, t), Follow(stack, keyed, t'), stack[0].kind, c)
  }

  // A closing bracket is no value.
  lemma NoValue(stack: seq<Frame>, keyed: bool, c: Byte)
    requires IsClose(c)
    ensures Want(stack, keyed, [c]) == Stuck && Want(stack, keyed, []) == Stuck
  {}

  lemma {:induction false} WantMore(stack: seq<Frame>, keyed: bool, t: Text, c: Byte)
    requires NoNul(t) && IsClose(c) && stack != []
    ensures WantCloses(stack, keyed, t, t + [c], c)
    decreases |t|, 0
  {
    if t == [] {
      EmptyLeft([c]);
      NoValue(stack, keyed, c);
      return;
    }
    HeadOf(t, c);
    NoNulRest(t, 1);
    if t[0] == QUOTE {
      StringMore(stack, keyed, t, t + [c], c);
    } else if t[0] == MINUS || IsDigit(t[0]) {
      var len := NumberEnd(t);
      NumberEndMore(t, c);
      NoNulRest(t, len);
      assert (t + [c])[len..] == t[len..] + [c];
      FollowMore(stack, keyed, t[len..], c);
    } else if t[0] == OPEN_ARRAY {
      OpenMore(stack, keyed, Array, t, t + [c], c);
    } else if t[0] == OPEN_OBJECT {
      OpenMore(stack, keyed, Object, t, t + [c], c);
    }
  }

  lemma {:induction false} StringMore(stack: seq<Frame>, keyed: bool, t: Text, t': Text, c: Byte)
    requires t != [] && t[0] == QUOTE && t' != [] && t'[0] == QUOTE && t'[1..] == t[1..] + [c]
    requires NoNul(t[1..]) && IsClose(c) && stack != []
    ensures WantCloses(stack, keyed, t, t', c)
    decreases |t| - 1, 3
  {
    StringEndMore(t[1..], QUOTE, c);
    match StringEnd(t[1..], QUOTE)
    case None =>
    case Some(len) =>
      var rest := t[1..][len + 1..];
      assert t'[1..][len + 1..] == rest + [c];
      NoNulRest(t[1..], len + 1);
      if keyed {
        FollowMore(stack, true, rest, c);
      } else {
        KeyMore(stack, rest, c);
      }
  }

  lemma {:induction false} KeyMore(stack: seq<Frame>, t: Text, c: Byte)
    requires NoNul(t) && IsClose(c) && stack != []
    ensures Closes(BehindKey(stack, t), BehindKey(stack, t + [c]), stack[0].kind, c)
    decreases |t|, 2
  {
    ToColonMore(t, c);
    var at := ToColon(t);
    if at != [] {
      HeadOf(at, c);
      if at[0] == COLON {
        NoNulRest(at, 1);
        SkipMore(at[1..], c);
        WantMore(stack, true, Skip(at[1..]), c);
      } else {
        FollowMore(stack, true, at, c);
      }
    }
  }

  lemma {:induction false} OpenMore(stack: seq<Frame>, keyed: bool, kind: Kind, t: Text, t': Text, c: Byte)
    requires t != [] && t' != [] && t[0] == t'[0] && t'[1..] == t[1..] + [c] && NoNul(t[1..]) && IsClose(c) &&
      stack != []
    requires (kind == Array && t[0] == OPEN_ARRAY) || (kind == Object && t[0] == OPEN_OBJECT)
    ensures WantCloses(stack, keyed, t, t', c)
    decreases |t| - 1, 3
  {
    var v, deeper := Skip(t[1..]), stack + [Frame(kind, keyed)];
    SkipMore(t[1..], c);
    if v == [] {
      EmptyLeft([c]);
      NoValue(deeper, kind == Array, c);
      assert [c][1..] == [];
    } else {
      HeadOf(v, c);
      NoNulRest(v, 1);
      if v[0] == CloseOf(kind) {
        FollowMore(stack, keyed, v[1..], c);
      } else {
        WantMore(deeper, kind == Array, v, c);
      }
    }
  }

  lemma {:induction false} FollowMore(stack: seq<Frame>, keyed: bool, t: Text, c: Byte)
    requires NoNul(t) && IsClose(c) && stack != []
    ensures FollowCloses(stack, keyed, t, t + [c], c)
    decreases |t|, 1
  {
    SkipMore(t, c);
    var u, top, outer := Skip(t), stack[|stack| - 1], stack[..|stack| - 1];
    if u == [] {
      EmptyLeft([c]);
      NoValue(stack, top.kind == Array || keyed, c);
      assert [c][1..] == [];
      return;
    }
    HeadOf(u, c);
    NoNulRest(u, 1);
    if u[0] == CloseOf(top.kind) {
      if outer != [] {
        FollowMore(outer, top.keyed, u[1..], c);
      }
    } else if u[0] == COMMA {
      SkipMore(u[1..], c);
      WantMore(stack, top.kind == Array, Skip(u[1..]), c);
    } else {
      WantMore(stack, top.kind == Array || keyed, u, c);
    }
  }

  lemma OutermostOpens(kind: Kind, v: Text)
    requires (Head(v) == OPEN_ARRAY && kind == Array) || (Head(v) == OPEN_OBJECT && kind == Object)
    ensures var w := Skip(v[1..]);
      Want([], false, v) == if Head(w) == CloseOf(kind) then Done else Want([Frame(kind, false)], kind == Array, w)
  {
    EmptyLeft([Frame(kind, false)]);
  }

  // Inside a bracket nothing breaks off at the outermost level.
  lemma OneOpen(kind: Kind, t: Text)
    ensures Want([Frame(kind, false)], kind == Array, Skip(t)) != Broken(0)
  {
    EmptyLeft([Frame(kind, false)]);
    ChildrenVerdict([], false, kind, [], 0, EMPTY, t);
  }

  /** Said by the texts themselves: one without NUL that begins with a bracket is refused exactly when it has
      something behind that bracket, is not complete, and would be with the matching bracket at its end. */
  lemma MissingBracket(t: Text)
    requires NoNul(t) && (Head(Skip(t)) == OPEN_ARRAY || Head(Skip(t)) == OPEN_OBJECT)
    ensures var close := if Head(Skip(t)) == OPEN_ARRAY then CLOSE_ARRAY else CLOSE_OBJECT;
      Load(t) == None <==> Skip(Skip(t)[1..]) != [] && Reading(t) != Done && Reading(t + [close]) == Done
  {
    var v := Skip(t);
    var kind := if Head(v) == OPEN_ARRAY then Array else Object;
    var c := CloseOf(kind);
    LoadRefuses(t);
    SkipMore(t, c);
    HeadOf(v, c);
    NoNulRest(v, 1);
    SkipMore(v[1..], c);
    var w := Skip(v[1..]);
    OutermostOpens(kind, v);
    OutermostOpens(kind, v + [c]);
    if w == [] {
      NoValue([Frame(kind, false)], kind == Array, c);
    } else {
      HeadOf(w, c);
      if w[0] != c {
        OneOpen(kind, v[1..]);
        WantMore([Frame(kind, false)], kind == Array, w, c);
      }
    }
  }

  /** Over behind an element inside two brackets: accepted, though inside one: refused. */
  lemma InnerErrorForgotten()
    ensures Reading([OPEN_ARRAY, ZERO]) == RanOut(1) && Load([OPEN_ARRAY, ZERO]) == None
    ensures Reading([OPEN_ARRAY, OPEN_ARRAY, ZERO]) == RanOut(2) && Load([OPEN_ARRAY, OPEN_ARRAY, ZERO]) != None
  {
    var t, u := [OPEN_ARRAY, ZERO], [OPEN_ARRAY, OPEN_ARRAY, ZERO];
    LoadRefuses(t);
    LoadRefuses(u);
    assert u[1..] == t && t[1..] == [ZERO] && [ZERO][1..] == [];
    assert NumberEnd([ZERO]) == 1;
    assert Skip(u) == u && Skip(t) == t && Skip([ZERO]) == [ZERO];
    var one, two := [Frame(Array, false)], [Frame(Array, false)] + [Frame(Array, true)];
    assert [] + one == one;
    assert |two| == 2 && Follow(one, true, []) == RanOut(1) && Follow(two, true, []) == RanOut(2);
    assert Want(one, true, [ZERO]) == RanOut(1) && Want(two, true, [ZERO]) == RanOut(2);
    assert Want(one, true, t) == RanOut(2);
  }
}
