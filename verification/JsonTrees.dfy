/** Which whole trees read back from their compact text: exactly those where a member without value stands last in
    its object only when nothing but closing brackets follows in the text. */
module JsonTrees {
  import opened Memory
  import opened Options
  import opened Sequences
  import opened Json
  import opened JsonRoundTrip

  // A member without value
  predicate Bare(c: Node) { c.kind == Null && c.value == None && c.children == [] }

  /** A tree of clean strings, clean keys and right numbers. In an object there may be members without value and
      members without key anywhere. */
  predicate Plain(n: Node)
    decreases n, 0
  {
    match n.kind
    case Int => n.value.Some? && NumberText(Int, n.value.value) && n.children == []
    case Double => n.value.Some? && NumberText(Double, n.value.value) && n.children == []
    case String => n.value.Some? && CleanString(n.value.value) && n.children == []
    case Null => false
    case Root => false
    case _ => n.value == None && PlainChildren(n.kind, n.children, 0)
  }

  // The elements of an array are numbered.
  predicate PlainChild(kind: Kind, c: Node, index: nat)
    decreases c, 1
  {
    if kind == Array then c.key == Some(Decimal(index)) && Plain(c)
    else (c.key.Some? ==> CleanKey(c.key.value)) && (Bare(c) || Plain(c))
  }

  predicate PlainChildren(kind: Kind, cs: seq<Node>, index: nat)
    decreases cs, 2
  {
    cs == [] || (PlainChild(kind, cs[0], index) && PlainChildren(kind, cs[1..], index + 1))
  }

  /** With spine, nothing but closing brackets follows the tree in the text. */
  predicate Settled(n: Node, spine: bool)
    decreases n, 0
  {
    n.children == [] || SettledChildren(n.kind, n.children, 0, spine)
  }

  predicate SettledChildren(kind: Kind, cs: seq<Node>, index: nat, spine: bool)
    requires cs != []
    decreases cs, 2
  {
    && SettledChild(kind, cs[0], index, |cs| == 1, spine)
    && (|cs| == 1 || SettledChildren(kind, cs[1..], index + 1, spine))
  }

  // A bare member with a key may be last only on the spine. One without a key prints as nothing at all: it reads
  // back behind a comma, as the last thing before the closing brackets. A value without a key never does.
  predicate SettledChild(kind: Kind, c: Node, index: nat, last: bool, spine: bool)
    decreases c, 1
  {
    if kind == Array then Settled(c, last && spine)
    else if c.key.None? then Bare(c) && last && spine && index > 0
    else if Bare(c) then last ==> spine
    else Settled(c, last && spine)
  }

  // ---------------------------------------------------------------------------
  // The text of a tree, with what comes behind it

  function QuoteText(s: Text, more: Text): Text {
    [QUOTE] + (Escape(s) + ([QUOTE] + more))
  }

  function OpenOf(kind: Kind): Byte {
    if kind == Array then OPEN_ARRAY else OPEN_OBJECT
  }

  function TextOf(n: Node, more: Text): Text
    requires Plain(n)
    decreases n, 0
  {
    if n.kind == Int || n.kind == Double then n.value.value + more
    else if n.kind == String then QuoteText(n.value.value, more)
    else [OpenOf(n.kind)] + ChildrenText(n.kind, n.children, 0, [CloseOf(n.kind)] + more)
  }

  function ChildText(kind: Kind, c: Node, index: nat, more: Text): Text
    requires PlainChild(kind, c, index)
    decreases c, 1
  {
    if kind == Array then TextOf(c, more) else
      var x := if Bare(c) then more else [COLON] + TextOf(c, more);
      if c.key.Some? then QuoteText(c.key.value, x) else x
  }

  function ChildrenText(kind: Kind, cs: seq<Node>, index: nat, more: Text): Text
    requires PlainChildren(kind, cs, index)
    decreases cs, 2
  {
    if cs == [] then more
    else ChildText(kind, cs[0], index, if |cs| == 1 then more
      else [COMMA] + ChildrenText(kind, cs[1..], index + 1, more))
  }

  lemma {:induction false} ValuePrints(n: Node, more: Text)
    requires Plain(n)
    ensures Print(n).Some? && Print(n).value + more == TextOf(n, more)
    decreases n, 0
  {
    if n.kind == String {
      QuotedTail(n.value.value, more);
    } else if n.kind == Array || n.kind == Object {
      if n.children == [] {
        assert [OpenOf(n.kind), CloseOf(n.kind)] + more == [OpenOf(n.kind)] + ([CloseOf(n.kind)] + more);
      } else {
        ChildrenPrint(n.kind, n.children, 0, [CloseOf(n.kind)] + more);
        var x := PrintChildren(n.kind, n.children).value;
        assert [OpenOf(n.kind)] + x + [CloseOf(n.kind)] + more == [OpenOf(n.kind)] + (x + ([CloseOf(n.kind)] + more));
      }
    }
  }

  lemma Regroup(x: Text, b: Byte, y: Text, more: Text)
    ensures x + ([b] + y) + more == x + ([b] + (y + more))
  {}

  lemma {:induction false} ChildPrints(kind: Kind, c: Node, index: nat, more: Text)
    requires (kind == Array || kind == Object) && PlainChild(kind, c, index)
    ensures PrintChild(kind, c).Some? && PrintChild(kind, c).value + more == ChildText(kind, c, index, more)
    decreases c, 1
  {
    if kind == Array {
      ValuePrints(c, more);
    } else {
      var x := more;
      if !Bare(c) {
        ValuePrints(c, more);
        x := [COLON] + TextOf(c, more);
        Regroup(Quoted(c.key), COLON, Print(c).value, more);
      }
      if c.key.Some? {
        QuotedTail(c.key.value, x);
      } else {
        EmptyLeft(x);
      }
    }
  }

  lemma {:induction false} ChildrenPrint(kind: Kind, cs: seq<Node>, index: nat, more: Text)
    requires (kind == Array || kind == Object) && PlainChildren(kind, cs, index) && cs != []
    ensures PrintChildren(kind, cs).Some? && PrintChildren(kind, cs).value + more == ChildrenText(kind, cs, index, more)
    decreases cs, 2
  {
    if |cs| == 1 {
      ChildPrints(kind, cs[0], index, more);
    } else {
      ChildrenPrint(kind, cs[1..], index + 1, more);
      var y := PrintChildren(kind, cs[1..]).value;
      ChildPrints(kind, cs[0], index, [COMMA] + (y + more));
      Regroup(PrintChild(kind, cs[0]).value, COMMA, y, more);
    }
  }

  // ---------------------------------------------------------------------------
  // Where the parser stops in such a text

  predicate IsMark(b: Byte) { b == OPEN_ARRAY || b == OPEN_OBJECT || b == COMMA || b == COLON }

  // At the end, or at a mark that no value begins with
  predicate Stop(t: Text) {
    t == [] || t[0] == COMMA || t[0] == COLON || IsClose(t[0])
  }

  // Brackets, commas, colons, strings and numbers, with no two values in a row
  predicate Tidy(t: Text)
    decreases |t|
  {
    if t == [] then true
    else if IsMark(t[0]) then Tidy(t[1..])
    else if IsClose(t[0]) then Stop(t[1..]) && Tidy(t[1..])
    else if t[0] == QUOTE then
      (match StringEnd(t[1..], QUOTE)
       case None => false
       case Some(len) => Stop(t[1..][len + 1..]) && Tidy(t[1..][len + 1..]))
    else 0 < NumberEnd(t) && Stop(t[NumberEnd(t)..]) && Tidy(t[NumberEnd(t)..])
  }

  lemma TidyMark(b: Byte, t: Text)
    requires Tidy(t) && (IsMark(b) || (IsClose(b) && Stop(t)))
    ensures Tidy([b] + t)
  {
    assert ([b] + t)[1..] == t;
  }

  lemma TidyQuote(s: Text, more: Text)
    requires CleanString(s) && Tidy(more) && Stop(more)
    ensures Tidy(QuoteText(s, more))
  {
    QuotedEnd(s, more);
    QuotedTail(s, more);
  }

  lemma TidyNumber(kind: Kind, v: Text, more: Text)
    requires NumberText(kind, v) && Tidy(more) && Stop(more)
    ensures Tidy(v + more)
  {
    NumberRun(v, more);
    assert (v + more)[|v|..] == more && (v + more)[0] == v[0];
  }

  lemma {:induction false} TidyValue(n: Node, more: Text)
    requires Plain(n) && Tidy(more) && Stop(more)
    ensures Tidy(TextOf(n, more))
    decreases n, 0
  {
    if n.kind == String {
      TidyQuote(n.value.value, more);
    } else if n.kind == Int || n.kind == Double {
      TidyNumber(n.kind, n.value.value, more);
    } else {
      TidyMark(CloseOf(n.kind), more);
      TidyChildren(n.kind, n.children, 0, [CloseOf(n.kind)] + more);
      TidyMark(OpenOf(n.kind), ChildrenText(n.kind, n.children, 0, [CloseOf(n.kind)] + more));
    }
  }

  lemma {:induction false} TidyChild(kind: Kind, c: Node, index: nat, more: Text)
    requires PlainChild(kind, c, index) && Tidy(more) && Stop(more)
    ensures Tidy(ChildText(kind, c, index, more))
    decreases c, 1
  {
    if kind == Array {
      TidyValue(c, more);
    } else {
      var x := more;
      if !Bare(c) {
        TidyValue(c, more);
        x := [COLON] + TextOf(c, more);
        TidyMark(COLON, TextOf(c, more));
      }
      if c.key.Some? {
        TidyQuote(c.key.value, x);
      }
    }
  }

  lemma {:induction false} TidyChildren(kind: Kind, cs: seq<Node>, index: nat, more: Text)
    requires PlainChildren(kind, cs, index) && Tidy(more) && Stop(more)
    ensures Tidy(ChildrenText(kind, cs, index, more))
    decreases cs, 2
  {
    if |cs| == 1 {
      TidyChild(kind, cs[0], index, more);
    } else if cs != [] {
      TidyChildren(kind, cs[1..], index + 1, more);
      var y := ChildrenText(kind, cs[1..], index + 1, more);
      TidyMark(COMMA, y);
      TidyChild(kind, cs[0], index, [COMMA] + y);
    }
  }

  lemma TidyStart(t: Text)
    requires Tidy(t)
    ensures Skip(t) == t && (t != [] ==> t[0] != 0)
  {}

  lemma {:induction false} ColonLands(t: Text)
    requires Tidy(t) && Stop(t)
    ensures Tidy(ToColon(t)) && Stop(ToColon(t)) &&
      (ToColon(t) != [] ==> ToColon(t)[0] == COLON || ToColon(t)[0] == COMMA)
    decreases |t|
  {
    if t != [] && t[0] != COMMA && t[0] != COLON {
      ColonLands(t[1..]);
    }
  }

  ghost predicate Lands(next: Option<Text>) {
    next.Some? ==> Tidy(next.value) && Stop(next.value)
  }

  ghost predicate ValueLanding(n: Node, t: Text, e: Option<Text>) {
    Lands(ParseValue(n, t, e).next)
  }

  ghost predicate ChildrenLanding(kind: Kind, done: seq<Node>, index: nat, child: Node, v: Text, e: Option<Text>) {
    Lands(Children(kind, done, index, child, v, e).1)
  }

  ghost predicate ProceedLanding(kind: Kind, done: seq<Node>, index: nat, p: Parse) {
    Lands(Proceed(kind, done, index, p).1)
  }

  // In a tidy text, whatever the parser is filling in, it stops in front of such a mark.
  lemma {:induction false} ValueLands(n: Node, t: Text, e: Option<Text>)
    requires Tidy(t)
    ensures ValueLanding(n, t, e)
    decreases |t|, 1
  {
    if t != [] {
      TidyStart(t);
      if t[0] == QUOTE {
        var len := StringEnd(t[1..], QUOTE).value;
        if n.key.None? {
          MemberLands(n.(key := Some(Dup(t[1..], len))), t, t[1..][len + 1..], e);
        }
      } else if t[0] == OPEN_ARRAY {
        ContainerLands(n, Array, t, e);
      } else if t[0] == OPEN_OBJECT {
        ContainerLands(n, Object, t, e);
      }
    }
  }

  lemma {:induction false} MemberLands(n: Node, start: Text, rest: Text, e: Option<Text>)
    requires Tidy(rest) && Stop(rest)
    ensures Lands(ParseMember(n, start, rest, e).next)
    decreases |rest|, 2
  {
    ColonLands(rest);
    var at := ToColon(rest);
    if at != [] && at[0] == COLON {
      TidyStart(at[1..]);
      ValueLands(n, at[1..], e);
      var p := ParseValue(n, at[1..], e);
      if p.next.Some? {
        TidyStart(p.next.value);
      }
    }
  }

  lemma {:induction false} ContainerLands(n: Node, kind: Kind, t: Text, e: Option<Text>)
    requires t != [] && Tidy(t) && t[0] == OpenOf(kind)
    ensures Lands(ParseContainer(n, kind, t, e).next)
    decreases |t|, 0
  {
    var v := t[1..];
    TidyStart(v);
    if Head(v) != CloseOf(kind) {
      ChildrenLand(kind, [], 0, EMPTY, v, e);
    }
  }

  lemma {:induction false} ChildrenLand(kind: Kind, done: seq<Node>, index: nat, child: Node, v: Text, e: Option<Text>)
    requires Tidy(v)
    ensures ChildrenLanding(kind, done, index, child, v, e)
    decreases |v|, 2
  {
    TidyStart(v);
    if v != [] {
      var m := Keyed(kind, child, index);
      ValueLands(m, v, e);
      ProceedLands(kind, done, index, ParseValue(m, v, e));
    }
  }

  lemma {:induction false} ProceedLands(kind: Kind, done: seq<Node>, index: nat, p: Parse)
    requires Lands(p.next)
    ensures ProceedLanding(kind, done, index, p)
    decreases if p.next.Some? then |p.next.value| else 0, 3
  {
    if p.next.Some? {
      var u := p.next.value;
      TidyStart(u);
      if u != [] && u[0] == COMMA {
        ChildrenLand(kind, done + [p.node], index + 1, EMPTY, u[1..], p.error);
      } else if u != [] && u[0] != CloseOf(kind) {
        ChildrenLand(kind, done, index + 1, p.node, u, p.error);
      }
    }
  }

  // ---------------------------------------------------------------------------
  // Settled trees read back

  // What comes behind a value: on the spine no comma and no colon any more, else closing brackets and a comma
  ghost predicate Rest(more: Text, spine: bool) {
    Tidy(more) && Ends(more) && Head(ToColon(more)) == if spine then 0 else COMMA
  }

  lemma RestClose(kind: Kind, more: Text, spine: bool)
    requires Rest(more, spine)
    ensures Rest([CloseOf(kind)] + more, spine)
  {
    TidyMark(CloseOf(kind), more);
    assert ([CloseOf(kind)] + more)[1..] == more;
  }

  lemma RestComma(y: Text)
    requires Tidy(y)
    ensures Rest([COMMA] + y, false)
  {
    TidyMark(COMMA, y);
  }

  // On the spine the end of the text may come instead of the rest.
  ghost predicate After(next: Option<Text>, error: Option<Text>, more: Text, e: Option<Text>, spine: bool) {
    (next == Some(more) && error == e) || (spine && next == None && error == None)
  }

  ghost predicate ValueBack(n: Node, t: Text, e: Option<Text>, more: Text, spine: bool) {
    var p := ParseValue(EMPTY.(key := n.key), t, e);
    p.node == n && After(p.next, p.error, more, e, spine)
  }

  function Begun(kind: Kind, index: nat): Node {
    if kind == Array then EMPTY.(key := Some(Decimal(index))) else EMPTY
  }

  ghost predicate ChildBack(kind: Kind, index: nat, t: Text, e: Option<Text>, c: Node, more: Text, spine: bool) {
    var p := ParseValue(Begun(kind, index), t, e);
    p.node == c && ((p.next == Some(more) && p.error == e) || (spine && p.next == None))
  }

  ghost predicate ChildrenBack(kind: Kind, done: seq<Node>, index: nat, v: Text, e: Option<Text>, cs: seq<Node>,
      more: Text, spine: bool)
  {
    var r := Children(kind, done, index, EMPTY, v, e);
    r.0 == cs && After(r.1, r.2, more, e, spine)
  }

  // A child begins with no blank, and with a closing bracket only if it has neither key nor value.
  lemma ChildBegins(kind: Kind, c: Node, index: nat, more: Text)
    requires PlainChild(kind, c, index) && Stop(more) && more != []
    ensures ChildText(kind, c, index, more) != []
    ensures IsClose(ChildText(kind, c, index, more)[0]) ==> kind != Array && c == EMPTY
  {}

  lemma {:induction false} ValueReads(n: Node, more: Text, e: Option<Text>, spine: bool)
    requires Plain(n) && Settled(n, spine) && Rest(more, spine) && (n.key.Some? || n.kind != String)
    ensures ValueBack(n, TextOf(n, more), e, more, spine)
    decreases n, 0
  {
    var m := EMPTY.(key := n.key);
    if n.kind == Int || n.kind == Double {
      NumberReadBack(m, n.kind, n.value.value, more, e);
    } else if n.kind == String {
      QuotedTail(n.value.value, more);
      StringReadBack(m, n.value.value, more, e);
    } else if n.children == [] {
      assert TextOf(n, more)[1..] == [CloseOf(n.kind)] + more && ([CloseOf(n.kind)] + more)[1..] == more;
    } else {
      ChildrenRead(n.kind, n.children, [], 0, more, e, spine);
      EmptyLeft(n.children);
      ContainerReads(n, more, e, spine);
    }
  }

  lemma ContainerReads(n: Node, more: Text, e: Option<Text>, spine: bool)
    requires Plain(n) && (n.kind == Array || n.kind == Object) && n.children != [] && Settled(n, spine) &&
      Rest(more, spine)
    requires ChildrenBack(n.kind, [], 0, ChildrenText(n.kind, n.children, 0, [CloseOf(n.kind)] + more), e, n.children,
      more, spine)
    ensures ValueBack(n, TextOf(n, more), e, more, spine)
  {
    ContainerBegins(n, more, spine);
    assert SettledChild(n.kind, n.children[0], 0, |n.children| == 1, spine);
  }

  lemma ContainerBegins(n: Node, more: Text, spine: bool)
    requires Plain(n) && (n.kind == Array || n.kind == Object) && n.children != [] && Rest(more, spine)
    ensures var t := TextOf(n, more); var v := ChildrenText(n.kind, n.children, 0, [CloseOf(n.kind)] + more);
      && t != [] && t[0] == OpenOf(n.kind) && t[1..] == v && Skip(v) == v && v != []
      && (v[0] == CloseOf(n.kind) ==> n.kind == Object && n.children[0] == EMPTY)
  {
    var kind, cs, close := n.kind, n.children, [CloseOf(n.kind)] + more;
    RestClose(kind, more, spine);
    TidyChildren(kind, cs, 0, close);
    TidyStart(ChildrenText(kind, cs, 0, close));
    ChildBegins(kind, cs[0], 0, if |cs| == 1 then close else [COMMA] + ChildrenText(kind, cs[1..], 1, close));
  }

  lemma {:induction false} ChildrenRead(kind: Kind, cs: seq<Node>, done: seq<Node>, index: nat, more: Text,
      e: Option<Text>, spine: bool)
    requires (kind == Array || kind == Object) && PlainChildren(kind, cs, index) && cs != []
    requires SettledChildren(kind, cs, index, spine) && Rest(more, spine)
    ensures ChildrenBack(kind, done, index, ChildrenText(kind, cs, index, [CloseOf(kind)] + more), e, done + cs, more,
      spine)
    decreases cs, 2
  {
    var c, close := cs[0], [CloseOf(kind)] + more;
    RestClose(kind, more, spine);
    if |cs| == 1 {
      ChildReads(kind, c, index, true, close, e, spine);
      LastReads(kind, done, index, ChildText(kind, c, index, close), c, more, e, spine);
      assert cs == [c];
    } else {
      ChildrenRead(kind, cs[1..], done + [c], index + 1, more, e, spine);
      var y := ChildrenText(kind, cs[1..], index + 1, close);
      TidyChildren(kind, cs[1..], index + 1, close);
      RestComma(y);
      ChildReads(kind, c, index, false, [COMMA] + y, e, spine);
      assert done + [c] + cs[1..] == done + cs;
      NextReads(kind, done, index, ChildText(kind, c, index, [COMMA] + y), c, y, e);
    }
  }

  ghost predicate Opens(t: Text) { t != [] && t[0] != 0 && Skip(t) == t }

  lemma LastReads(kind: Kind, done: seq<Node>, index: nat, x: Text, c: Node, more: Text, e: Option<Text>, spine: bool)
    requires Opens(x) && ChildBack(kind, index, x, e, c, [CloseOf(kind)] + more, spine)
    ensures ChildrenBack(kind, done, index, x, e, done + [c], more, spine)
  {
    assert ([CloseOf(kind)] + more)[1..] == more;
  }

  // Behind a child that was read the loop goes on with the next.
  lemma NextReads(kind: Kind, done: seq<Node>, index: nat, x: Text, c: Node, y: Text, e: Option<Text>)
    requires Opens(x) && ChildBack(kind, index, x, e, c, [COMMA] + y, false)
    ensures Children(kind, done, index, EMPTY, x, e) == Children(kind, done + [c], index + 1, EMPTY, y, e)
  {
    assert ([COMMA] + y)[1..] == y;
  }

  lemma {:induction false} ChildReads(kind: Kind, c: Node, index: nat, last: bool, more: Text, e: Option<Text>,
      spine: bool)
    requires (kind == Array || kind == Object) && PlainChild(kind, c, index) &&
      SettledChild(kind, c, index, last, spine)
    requires Rest(more, last && spine) && Head(more) == if last then CloseOf(kind) else COMMA
    ensures Opens(ChildText(kind, c, index, more))
    ensures ChildBack(kind, index, ChildText(kind, c, index, more), e, c, more, last && spine)
    decreases c, 1
  {
    ChildOpens(kind, c, index, more, last && spine);
    if kind == Array {
      ValueReads(c, more, e, last && spine);
    } else if c.key.Some? {
      if Bare(c) {
        BareReads(c, more, e);
      } else {
        ValueReads(c, more, e, last && spine);
        MemberReads(c, more, e, last && spine);
      }
    }
  }

  lemma ChildOpens(kind: Kind, c: Node, index: nat, more: Text, spine: bool)
    requires PlainChild(kind, c, index) && Rest(more, spine) && more != []
    ensures Opens(ChildText(kind, c, index, more))
  {
    TidyChild(kind, c, index, more);
    TidyStart(ChildText(kind, c, index, more));
    ChildBegins(kind, c, index, more);
  }

  lemma CleanKeyTaken(k: Text, more: Text, e: Option<Text>)
    requires CleanKey(k)
    ensures ParseValue(EMPTY, QuoteText(k, more), e) == ParseMember(EMPTY.(key := Some(k)), QuoteText(k, more), more, e)
  {
    QuotedTail(k, more);
    QuotedEnd(k, more);
    EscapeOfKey(k);
    assert QUOTE !in k;
  }

  // A member without value leaves off at the next comma, and at the end of the text where there is none.
  lemma BareReads(c: Node, more: Text, e: Option<Text>)
    requires Bare(c) && c.key.Some? && CleanKey(c.key.value) && Head(ToColon(more)) != COLON
    ensures var p := ParseValue(EMPTY, QuoteText(c.key.value, more), e);
      p.node == c && if Head(ToColon(more)) == COMMA then p.next == Some(ToColon(more)) &&
        p.error == e else p.next == None
  {
    CleanKeyTaken(c.key.value, more, e);
  }

  // A member with a value is read as the value is.
  lemma MemberTaken(c: Node, more: Text, e: Option<Text>, spine: bool)
    requires Plain(c) && c.key.Some? && CleanKey(c.key.value) && Rest(more, spine)
    ensures var p := ParseValue(EMPTY.(key := c.key), TextOf(c, more), e);
      ParseValue(EMPTY, QuoteText(c.key.value, [COLON] + TextOf(c, more)), e) ==
        Parse(p.node, SkipFrom(p.next), p.error)
  {
    var x := TextOf(c, more);
    CleanKeyTaken(c.key.value, [COLON] + x, e);
    TidyValue(c, more);
    TidyStart(x);
    assert ([COLON] + x)[1..] == x;
  }

  lemma MemberReads(c: Node, more: Text, e: Option<Text>, spine: bool)
    requires Plain(c) && c.key.Some? && CleanKey(c.key.value) && Rest(more, spine)
    requires ValueBack(c, TextOf(c, more), e, more, spine)
    ensures ChildBack(Object, 0, QuoteText(c.key.value, [COLON] + TextOf(c, more)), e, c, more, spine)
  {
    MemberTaken(c, more, e, spine);
    TidyStart(more);
  }

  // ---------------------------------------------------------------------------
  // Other trees do not

  ghost predicate Extends(r: seq<Node>, done: seq<Node>) { |r| > |done| && r[..|done|] == done }

  ghost predicate ChildrenExtend(kind: Kind, done: seq<Node>, index: nat, child: Node, v: Text, e: Option<Text>) {
    Extends(Children(kind, done, index, child, v, e).0, done)
  }

  ghost predicate ProceedExtends(kind: Kind, done: seq<Node>, index: nat, p: Parse) {
    Extends(Proceed(kind, done, index, p).0, done)
  }

  // The children read before stay, and there is at least one more.
  lemma {:induction false} ChildrenKeep(kind: Kind, done: seq<Node>, index: nat, child: Node, v: Text, e: Option<Text>)
    ensures ChildrenExtend(kind, done, index, child, v, e)
    decreases |v|, 2
  {
    if Head(v) != 0 {
      ProceedKeeps(kind, done, index, ParseValue(Keyed(kind, child, index), Skip(v), e));
    }
  }

  lemma {:induction false} ProceedKeeps(kind: Kind, done: seq<Node>, index: nat, p: Parse)
    ensures ProceedExtends(kind, done, index, p)
    decreases if p.next.Some? then |p.next.value| else 0, 3
  {
    if p.next.Some? {
      var u := Skip(p.next.value);
      if Head(u) != 0 && u[0] != CloseOf(kind) {
        if u[0] == COMMA {
          ChildrenKeep(kind, done + [p.node], index + 1, EMPTY, u[1..], p.error);
          assert (done + [p.node])[..|done|] == done;
        } else {
          ChildrenKeep(kind, done, index + 1, p.node, u, p.error);
        }
      }
    }
  }

  // In a tidy text the children of a child stay as they were read, even where the child is filled in once more.
  lemma ChildStays(kind: Kind, done: seq<Node>, index: nat, p: Parse)
    requires Lands(p.next)
    ensures Holds(Proceed(kind, done, index, p).0, |done|, p.node.children)
  {
    if p.next.Some? {
      var u := p.next.value;
      TidyStart(u);
      if u != [] && u[0] == COMMA {
        ChildrenKeep(kind, done + [p.node], index + 1, EMPTY, u[1..], p.error);
        PrefixHolds(Children(kind, done + [p.node], index + 1, EMPTY, u[1..], p.error).0, done, p.node);
      } else if u != [] && u[0] != CloseOf(kind) {
        NoValueThere(kind, done, index + 1, p.node, u, p.error);
      }
    }
  }

  ghost predicate Holds(r: seq<Node>, i: nat, cs: seq<Node>) { i < |r| && r[i].children == cs }

  lemma PrefixHolds(r: seq<Node>, done: seq<Node>, c: Node)
    requires Extends(r, done + [c])
    ensures Holds(r, |done|, c.children)
  {
    assert r[|done|] == r[..|done| + 1][|done|];
  }

  lemma NoValueThere(kind: Kind, done: seq<Node>, index: nat, child: Node, u: Text, e: Option<Text>)
    requires u != [] && (u[0] == COLON || IsClose(u[0]))
    ensures Holds(Children(kind, done, index, child, u, e).0, |done|, child.children)
  {}

  ghost predicate ValueOff(n: Node, t: Text, e: Option<Text>, spine: bool) {
    var p := ParseValue(EMPTY.(key := n.key), t, e);
    p.node.children != n.children || (p.next == None && !spine)
  }

  ghost predicate ChildOff(kind: Kind, index: nat, t: Text, e: Option<Text>, c: Node, spine: bool) {
    var p := ParseValue(Begun(kind, index), t, e);
    p.node.children != c.children || (p.next == None && !spine)
  }

  ghost predicate ChildrenOff(kind: Kind, done: seq<Node>, index: nat, v: Text, e: Option<Text>, cs: seq<Node>,
      spine: bool)
  {
    var r := Children(kind, done, index, EMPTY, v, e);
    r.0 != cs || (r.1 == None && !spine)
  }

  lemma {:induction false} ValueFails(n: Node, more: Text, e: Option<Text>, spine: bool)
    requires Plain(n) && !Settled(n, spine) && Rest(more, spine)
    ensures ValueOff(n, TextOf(n, more), e, spine)
    decreases n, 0
  {
    ContainerBegins(n, more, spine);
    var v := ChildrenText(n.kind, n.children, 0, [CloseOf(n.kind)] + more);
    if v[0] != CloseOf(n.kind) {
      ChildrenFail(n.kind, n.children, [], 0, more, e, spine);
      EmptyLeft(n.children);
    }
  }

  lemma {:induction false} ChildrenFail(kind: Kind, cs: seq<Node>, done: seq<Node>, index: nat, more: Text,
      e: Option<Text>, spine: bool)
    requires (kind == Array || kind == Object) && PlainChildren(kind, cs, index) && cs != []
    requires !SettledChildren(kind, cs, index, spine) && Rest(more, spine)
    requires index == 0 ==> Head(ChildrenText(kind, cs, index, [CloseOf(kind)] + more)) != CloseOf(kind)
    ensures ChildrenOff(kind, done, index, ChildrenText(kind, cs, index, [CloseOf(kind)] + more), e, done + cs, spine)
    decreases cs, 2
  {
    var c, close, last := cs[0], [CloseOf(kind)] + more, |cs| == 1;
    RestClose(kind, more, spine);
    var behind := close;
    if !last {
      var y := ChildrenText(kind, cs[1..], index + 1, close);
      TidyChildren(kind, cs[1..], index + 1, close);
      RestComma(y);
      behind := [COMMA] + y;
      if SettledChild(kind, c, index, last, spine) {
        ChildrenFail(kind, cs[1..], done + [c], index + 1, more, e, spine);
        ChildReads(kind, c, index, false, behind, e, spine);
        assert done + [c] + cs[1..] == done + cs;
        NextReads(kind, done, index, ChildText(kind, c, index, behind), c, y, e);
        return;
      }
    }
    ChildOpens(kind, c, index, behind, last && spine);
    if kind == Object && c.key.None? {
      NoKeyThere(kind, done, index, ChildText(kind, c, index, behind), e);
      assert cs[0] != EMPTY ==> (done + cs)[|done|] != EMPTY;
    } else if kind == Object && Bare(c) {
      BareRunsOn(kind, cs, done, index, close, e);
    } else {
      ChildFails(kind, c, index, behind, e, last && spine);
      OffStays(kind, cs, done, index, behind, e, spine);
    }
  }

  lemma {:induction false} ChildFails(kind: Kind, c: Node, index: nat, more: Text, e: Option<Text>, spine: bool)
    requires (kind == Array || kind == Object) && PlainChild(kind, c, index) && Plain(c) && !Settled(c, spine)
    requires kind == Object ==> c.key.Some?
    requires Rest(more, spine)
    ensures ChildOff(kind, index, ChildText(kind, c, index, more), e, c, spine)
    decreases c, 1
  {
    ValueFails(c, more, e, spine);
    if kind == Object {
      MemberTaken(c, more, e, spine);
    }
  }

  lemma OffStays(kind: Kind, cs: seq<Node>, done: seq<Node>, index: nat, more: Text, e: Option<Text>, spine: bool)
    requires cs != [] && PlainChild(kind, cs[0], index) && Rest(more, |cs| == 1 && spine)
    requires var x := ChildText(kind, cs[0], index, more);
      Opens(x) && ChildOff(kind, index, x, e, cs[0], |cs| == 1 && spine)
    ensures ChildrenOff(kind, done, index, ChildText(kind, cs[0], index, more), e, done + cs, spine)
  {
    var x := ChildText(kind, cs[0], index, more);
    var p := ParseValue(Begun(kind, index), x, e);
    TidyChild(kind, cs[0], index, more);
    ValueLands(Begun(kind, index), x, e);
    ChildStays(kind, done, index, p);
    assert (done + cs)[|done|] == cs[0];
  }

  // A bare member that is the last of its object, with a comma further on, takes the object along to the comma.
  lemma BareRunsOn(kind: Kind, cs: seq<Node>, done: seq<Node>, index: nat, more: Text, e: Option<Text>)
    requires kind == Object && |cs| == 1 && PlainChild(kind, cs[0], index) && Bare(cs[0]) && cs[0].key.Some? &&
      Rest(more, false)
    requires Opens(ChildText(kind, cs[0], index, more))
    ensures ChildrenOff(kind, done, index, ChildText(kind, cs[0], index, more), e, done + cs, false)
  {
    var c := cs[0];
    BareReads(c, more, e);
    var u := ToColon(more);
    ChildrenKeep(kind, done + [c], index + 1, EMPTY, u[1..], e);
  }

  // Where a member without key was printed there is nothing to read.
  lemma NoKeyThere(kind: Kind, done: seq<Node>, index: nat, t: Text, e: Option<Text>)
    requires kind == Object && t != [] && (t[0] == COMMA || t[0] == COLON || IsClose(t[0]))
    ensures Children(kind, done, index, EMPTY, t, e) == (done + [EMPTY], None, None)
  {}

  /** A tree of clean strings, clean keys and right numbers reads back from its compact text as the same tree, its
      order and nesting, kinds, keys and values, if and only if it is settled; a string by itself never does, as
      the parser takes it for a key. */
  lemma RoundTripExactly(n: Node)
    requires Plain(n) && n.key == None
    ensures Print(n).Some?
    ensures Load(Print(n).value) == Some(n) <==> Settled(n, true) && n.kind != String
  {
    ValuePrints(n, []);
    var t := Print(n).value;
    EmptyRight(t);
    TidyValue(n, []);
    TidyStart(t);
    if n.kind == String {
      QuotedTail(n.value.value, []);
      KeyTaken(EMPTY, t, None);
    } else if Settled(n, true) {
      ValueReads(n, [], None, true);
    } else {
      ValueFails(n, [], None, true);
    }
  }

  lemma OneChild(kind: Kind, c: Node, index: nat)
    ensures PlainChildren(kind, [c], index) == PlainChild(kind, c, index)
    ensures SettledChildren(kind, [c], index, true) == SettledChild(kind, c, index, true, true)
    ensures SettledChildren(kind, [c], index, false) == SettledChild(kind, c, index, true, false)
  {
    assert [c][1..] == [];
  }

  /** A member without value as the last of its object: {"k"} reads back. */
  lemma BareLastReads(k: Text)
    requires CleanKey(k)
    ensures var n := Node(Object, None, None, [Node(Null, Some(k), None, [])]);
      Print(n).Some? && Load(Print(n).value) == Some(n)
  {
    var bare := Node(Null, Some(k), None, []);
    OneChild(Object, bare, 0);
    RoundTripExactly(Node(Object, None, None, [bare]));
  }

  /** The same object with something behind it: [{"k"},1] does not. */
  lemma BareLastFails(k: Text, d: Text)
    requires CleanKey(k) && NumberText(Int, d)
    ensures var inner := Node(Object, Some(Decimal(0)), None, [Node(Null, Some(k), None, [])]);
      var n := Node(Array, None, None, [inner, Node(Int, Some(Decimal(1)), Some(d), [])]);
      Print(n).Some? && Load(Print(n).value) != Some(n)
  {
    var bare, one := Node(Null, Some(k), None, []), Node(Int, Some(Decimal(1)), Some(d), []);
    var inner := Node(Object, Some(Decimal(0)), None, [bare]);
    OneChild(Object, bare, 0);
    OneChild(Array, one, 1);
    assert !Settled(inner, false) by {
      assert !SettledChildren(Object, inner.children, 0, false);
    }
    assert !SettledChild(Array, inner, 0, false, true);
    assert [inner, one][1..] == [one];
    assert PlainChildren(Array, [inner, one], 0) && !SettledChildren(Array, [inner, one], 0, true);
    RoundTripExactly(Node(Array, None, None, [inner, one]));
  }
}
