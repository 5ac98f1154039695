/** Blanks in JSON text: the bytes from 1 to 32 may stand before, between and behind the brackets, commas, colons,
    strings and numbers of a text, and make no difference to what it is loaded as. */
module JsonBlanks {
  import opened Memory
  import opened Options
  import opened Sequences
  import opened Json
  import opened JsonRoundTrip
  import opened JsonTrees

  predicate Blank(b: Byte) { 1 <= b <= 32 }

  /** The text is the tokens in order, with any blanks before, between and behind them. */
  predicate Spaced(t: Text, ts: seq<Text>)
    decreases |t|
  {
    if t != [] && Blank(t[0]) then Spaced(t[1..], ts)
    else if ts == [] then t == []
    else ts[0] != [] && ts[0] <= t && Spaced(t[|ts[0]|..], ts[1..])
  }

  // The same, with no blank in front
  predicate At(t: Text, ts: seq<Text>) { Spaced(t, ts) && (t == [] || !Blank(t[0])) }

  // ---------------------------------------------------------------------------
  // Tokens

  predicate IsMarkToken(x: Text) { |x| == 1 && IsMark(x[0]) }
  predicate IsCloseToken(x: Text) { |x| == 1 && IsClose(x[0]) }
  predicate IsStringToken(x: Text) { |x| >= 2 && x[0] == QUOTE && StringEnd(x[1..], QUOTE) == Some(|x| - 2) }

  predicate IsNumberToken(x: Text) {
    x != [] && (x[0] == MINUS || IsDigit(x[0])) && forall i :: 0 <= i < |x| ==> IsNumberByte(x[i])
  }

  predicate Stops(ts: seq<Text>) { ts == [] || ts[0] == [COMMA] || ts[0] == [COLON] || IsCloseToken(ts[0]) }

  // No two values in a row, and something behind every comma
  predicate Follows(x: Text, ts: seq<Text>) {
    if IsMarkToken(x) then x == [COMMA] ==> ts != []
    else (IsCloseToken(x) || IsStringToken(x) || IsNumberToken(x)) && Stops(ts)
  }

  predicate TidyTokens(ts: seq<Text>) {
    ts == [] || (Follows(ts[0], ts[1..]) && TidyTokens(ts[1..]))
  }

  // ---------------------------------------------------------------------------
  // What the scanners of the parser do in such a text

  lemma {:induction false} SkipsBlanks(t: Text, ts: seq<Text>)
    requires Spaced(t, ts) && TidyTokens(ts)
    ensures At(Skip(t), ts)
    decreases |t|
  {
    if t != [] && Blank(t[0]) {
      SkipsBlanks(t[1..], ts);
    }
  }

  lemma FirstToken(t: Text, ts: seq<Text>)
    requires At(t, ts) && TidyTokens(ts)
    ensures ts == [] <==> t == []
    ensures ts != [] ==> |ts[0]| <= |t| && t == ts[0] + t[|ts[0]|..] && Spaced(t[|ts[0]|..], ts[1..])
    ensures ts != [] ==> t[0] == ts[0][0] != 0
  {}

  lemma OneByteToken(t: Text, ts: seq<Text>)
    requires At(t, ts) && TidyTokens(ts) && ts != [] && |ts[0]| == 1
    ensures t != [] && t[0] == ts[0][0] && Spaced(t[1..], ts[1..])
  {}

  function ToColonToken(ts: seq<Text>): (r: seq<Text>)
    ensures |r| <= |ts| && (r != [] ==> r[0] == [COLON] || r[0] == [COMMA])
  {
    if ts == [] || ts[0] == [COLON] || ts[0] == [COMMA] then ts else ToColonToken(ts[1..])
  }

  lemma {:induction false} ColonFound(t: Text, ts: seq<Text>)
    requires Spaced(t, ts) && TidyTokens(ts) && Stops(ts)
    ensures At(ToColon(t), ToColonToken(ts)) && TidyTokens(ToColonToken(ts))
    decreases |t|
  {
    if t != [] {
      if Blank(t[0]) {
        ColonFound(t[1..], ts);
      } else {
        FirstToken(t, ts);
        if ts[0] != [COLON] && ts[0] != [COMMA] {
          ColonFound(t[1..], ts[1..]);
        }
      }
    }
  }

  lemma {:induction false} StringEndStays(x: Text, y: Text, before: Byte)
    requires StringEnd(x, before).Some?
    ensures StringEnd(x + y, before) == StringEnd(x, before)
    decreases |x|
  {
    TailOfConcat(x, y);
    if !(x[0] == QUOTE && before != BACKSLASH) {
      StringEndStays(x[1..], y, x[0]);
    }
  }

  lemma {:induction false} EndIsQuote(x: Text, before: Byte)
    requires StringEnd(x, before).Some?
    ensures x[StringEnd(x, before).value] == QUOTE
    decreases |x|
  {
    if !(x[0] == QUOTE && before != BACKSLASH) {
      EndIsQuote(x[1..], x[0]);
    }
  }

  // The string token at the front of a text
  lemma StringToken(t: Text, x: Text)
    requires IsStringToken(x) && x <= t
    ensures StringEnd(t[1..], QUOTE) == Some(|x| - 2)
    ensures t[1..][..|x| - 2] == x[1..][..|x| - 2] && t[1..][|x| - 1..] == t[|x|..]
    ensures t[1..][|x| - 2] == QUOTE
  {
    assert t == x + t[|x|..];
    TailOfConcat(x, t[|x|..]);
    StringEndStays(x[1..], t[|x|..], QUOTE);
    EndIsQuote(x[1..], QUOTE);
  }

  lemma NumberToken(t: Text, ts: seq<Text>)
    requires At(t, ts) && TidyTokens(ts) && ts != [] && IsNumberToken(ts[0])
    ensures NumberEnd(t) == |ts[0]| && t[..|ts[0]|] == ts[0]
  {
    FirstToken(t, ts);
    var rest := t[|ts[0]|..];
    assert Stops(ts[1..]);
    if rest != [] && !Blank(rest[0]) {
      FirstToken(rest, ts[1..]);
    }
    NumberRun(ts[0], rest);
  }

  // ---------------------------------------------------------------------------
  // Nodes that are the same but for keys taken from an empty string: such a key runs on through the text behind it.

  predicate KeyLike(a: Option<Text>, b: Option<Text>) {
    a == b || (a.Some? && b.Some? && RunOn(a.value) && RunOn(b.value))
  }

  predicate RunOn(key: Text) { key != [] && key[0] == QUOTE }

  ghost predicate Like(a: Node, b: Node)
    decreases a, 0
  {
    a.kind == b.kind && a.value == b.value && KeyLike(a.key, b.key) && LikeAll(a.children, b.children)
  }

  ghost predicate LikeAll(xs: seq<Node>, ys: seq<Node>)
    decreases xs
  {
    |xs| == |ys| && forall i :: 0 <= i < |xs| ==> Like(xs[i], ys[i])
  }

  lemma LikePush(xs: seq<Node>, ys: seq<Node>, a: Node, b: Node)
    requires LikeAll(xs, ys) && Like(a, b)
    ensures LikeAll(xs + [a], ys + [b])
  {}

  lemma {:induction false} LikeEither(a: Node, b: Node)
    requires Like(a, b)
    ensures Like(b, a)
    decreases a
  {
    forall i | 0 <= i < |a.children| ensures Like(b.children[i], a.children[i]) {
      LikeEither(a.children[i], b.children[i]);
    }
  }

  // No key of a tree of clean keys is such a one.
  lemma {:induction false} LikePlain(a: Node, b: Node)
    requires Plain(a) && Like(a, b) && a.key == b.key
    ensures a == b
    decreases a, 0
  {
    if a.kind == Array || a.kind == Object {
      LikePlainAll(a.kind, a.children, b.children, 0);
    } else {
      assert a.children == [] && b.children == [];
    }
  }

  lemma {:induction false} LikePlainAll(kind: Kind, xs: seq<Node>, ys: seq<Node>, index: nat)
    requires PlainChildren(kind, xs, index) && LikeAll(xs, ys)
    ensures xs == ys
    decreases xs, 1
  {
    if xs != [] {
      LikePlainAll(kind, xs[1..], ys[1..], index + 1);
      LikePlainChild(kind, xs[0], ys[0], index);
      assert xs == [xs[0]] + xs[1..] && ys == [ys[0]] + ys[1..];
    }
  }

  lemma {:induction false} LikePlainChild(kind: Kind, x: Node, y: Node, index: nat)
    requires PlainChild(kind, x, index) && Like(x, y)
    ensures x == y
    decreases x, 1
  {
    if kind == Array {
      DecimalKey(index);
      LikePlain(x, y);
    } else if Bare(x) {
      assert y.children == [];
    } else {
      LikePlain(x, y);
    }
  }

  lemma {:induction false} DecimalKey(n: nat)
    ensures Decimal(n) != [] && !RunOn(Decimal(n))
  {
    if n >= 10 {
      DecimalKey(n / 10);
    }
  }

  // ---------------------------------------------------------------------------
  // Two texts of the same tokens are read alike

  predicate Both(e: Option<Text>, d: Option<Text>) { e.Some? <==> d.Some? }

  // Where the parser goes on in the two texts: at the end of neither, or before the same tokens
  ghost predicate GoOn(p: Option<Text>, q: Option<Text>, rest: Option<seq<Text>>) {
    match rest
    case None => p == None && q == None
    case Some(ts) =>
      p.Some? && q.Some? && TidyTokens(ts) && Stops(ts) && Spaced(p.value, ts) && Spaced(q.value, ts)
  }

  ghost predicate Alike(p: Parse, q: Parse, rest: Option<seq<Text>>) {
    Like(p.node, q.node) && Both(p.error, q.error) && GoOn(p.next, q.next, rest)
  }

  ghost predicate AlikeAll(r: Family, w: Family, rest: Option<seq<Text>>) {
    LikeAll(r.0, w.0) && Both(r.2, w.2) && GoOn(r.1, w.1, rest)
  }

  // The two texts, in front of the same tokens
  ghost predicate Twins(t: Text, u: Text, ts: seq<Text>) { TidyTokens(ts) && At(t, ts) && At(u, ts) }

  ghost predicate Shorter(rest: Option<seq<Text>>, ts: seq<Text>) { rest.Some? ==> |rest.value| < |ts| }

  lemma TwinsSkip(t: Text, u: Text, ts: seq<Text>)
    requires Spaced(t, ts) && Spaced(u, ts) && TidyTokens(ts)
    ensures Twins(Skip(t), Skip(u), ts)
  {
    SkipsBlanks(t, ts);
    SkipsBlanks(u, ts);
  }

  lemma {:induction false} ValuesAlike(n: Node, m: Node, t: Text, u: Text, ts: seq<Text>, e: Option<Text>,
      d: Option<Text>)
    returns (rest: Option<seq<Text>>)
    requires Twins(t, u, ts) && Like(n, m) && Both(e, d)
    ensures Alike(ParseValue(n, t, e), ParseValue(m, u, d), rest) && Shorter(rest, ts)
    decreases |ts|, 1
  {
    FirstToken(t, ts);
    FirstToken(u, ts);
    rest := None;
    if ts != [] {
      if t[0] == QUOTE {
        rest := StringsAlike(n, m, t, u, ts, e, d);
      } else if t[0] == MINUS || IsDigit(t[0]) {
        NumberToken(t, ts);
        NumberToken(u, ts);
        rest := Some(ts[1..]);
      } else if t[0] == OPEN_ARRAY {
        rest := ContainersAlike(n, m, Array, t, u, ts, e, d);
      } else if t[0] == OPEN_OBJECT {
        rest := ContainersAlike(n, m, Object, t, u, ts, e, d);
      }
    }
  }

  lemma StringParsed(n: Node, t: Text, x: Text, e: Option<Text>)
    requires IsStringToken(x) && x <= t
    ensures Head(t) == QUOTE
    ensures ParseString(n, t, e) ==
      if n.key.None? then ParseMember(n.(key := Some(Dup(t[1..], |x| - 2))), t, t[|x|..], e)
      else Parse(n.(value := Some(Unescape(x[1..][..|x| - 2])), kind := String), Some(t[|x|..]), e)
  {
    StringToken(t, x);
  }

  lemma KeysAlike(t: Text, u: Text, x: Text)
    requires IsStringToken(x) && x <= t && x <= u
    ensures KeyLike(Some(Dup(t[1..], |x| - 2)), Some(Dup(u[1..], |x| - 2)))
  {
    StringToken(t, x);
    StringToken(u, x);
  }

  lemma {:induction false} StringsAlike(n: Node, m: Node, t: Text, u: Text, ts: seq<Text>, e: Option<Text>,
      d: Option<Text>)
    returns (rest: Option<seq<Text>>)
    requires Twins(t, u, ts) && Like(n, m) && Both(e, d) && ts != [] && ts[0][0] == QUOTE && Head(t) == Head(u) == QUOTE
    ensures Alike(ParseString(n, t, e), ParseString(m, u, d), rest) && Shorter(rest, ts)
    decreases |ts|, 0
  {
    var x := ts[0];
    FirstToken(t, ts);
    FirstToken(u, ts);
    StringParsed(n, t, x, e);
    StringParsed(m, u, x, d);
    if n.key == None {
      var k, l := Dup(t[1..], |x| - 2), Dup(u[1..], |x| - 2);
      KeysAlike(t, u, x);
      rest := MembersAlike(n.(key := Some(k)), m.(key := Some(l)), t, u, t[|x|..], u[|x|..], ts[1..], e, d);
    } else {
      rest := Some(ts[1..]);
    }
  }

  lemma {:induction false} MembersAlike(n: Node, m: Node, t: Text, u: Text, y: Text, z: Text, ts: seq<Text>,
      e: Option<Text>, d: Option<Text>)
    returns (rest: Option<seq<Text>>)
    requires TidyTokens(ts) && Stops(ts) && Spaced(y, ts) && Spaced(z, ts) && Like(n, m) && Both(e, d)
    ensures Alike(ParseMember(n, t, y, e), ParseMember(m, u, z, d), rest)
    ensures rest.Some? ==> |rest.value| <= |ts|
    decreases |ts|, 2
  {
    var at, ys, zs := ToColonToken(ts), ToColon(y), ToColon(z);
    ColonFound(y, ts);
    ColonFound(z, ts);
    FirstToken(ys, at);
    FirstToken(zs, at);
    rest := None;
    if at != [] {
      if at[0] == [COLON] {
        TwinsSkip(ys[1..], zs[1..], at[1..]);
        rest := ValuesAlike(n, m, Skip(ys[1..]), Skip(zs[1..]), at[1..], e, d);
        if rest.Some? {
          SkipsBlanks(ParseValue(n, Skip(ys[1..]), e).next.value, rest.value);
          SkipsBlanks(ParseValue(m, Skip(zs[1..]), d).next.value, rest.value);
        }
      } else {
        rest := Some(at);
      }
    }
  }

  lemma {:induction false} ContainersAlike(n: Node, m: Node, kind: Kind, t: Text, u: Text, ts: seq<Text>,
      e: Option<Text>, d: Option<Text>)
    returns (rest: Option<seq<Text>>)
    requires Twins(t, u, ts) && Like(n, m) && Both(e, d)
    requires (kind == Array || kind == Object) && ts != [] && ts[0][0] == OpenOf(kind) && t != [] && u != []
    ensures Alike(ParseContainer(n, kind, t, e), ParseContainer(m, kind, u, d), rest) && Shorter(rest, ts)
    decreases |ts|, 0
  {
    FirstToken(t, ts);
    FirstToken(u, ts);
    var more := ts[1..];
    TwinsSkip(t[1..], u[1..], more);
    var v, w := Skip(t[1..]), Skip(u[1..]);
    FirstToken(v, more);
    FirstToken(w, more);
    if Head(v) == CloseOf(kind) {
      rest := Some(more[1..]);
    } else {
      rest := LoopsAlike(kind, [], [], 0, EMPTY, EMPTY, v, w, more, e, d);
    }
  }

  lemma {:induction false} LoopsAlike(kind: Kind, xs: seq<Node>, ys: seq<Node>, index: nat, c: Node, b: Node, v: Text,
      w: Text, ts: seq<Text>, e: Option<Text>, d: Option<Text>)
    returns (rest: Option<seq<Text>>)
    requires TidyTokens(ts) && Spaced(v, ts) && Spaced(w, ts) && (ts == [] ==> v == [] && w == [])
    requires LikeAll(xs, ys) && Like(c, b) && Both(e, d)
    ensures AlikeAll(Children(kind, xs, index, c, v, e), Children(kind, ys, index, b, w, d), rest) && Shorter(rest, ts)
    decreases |ts|, 2
  {
    if ts == [] {
      LikePush(xs, ys, c, b);
      return None;
    }
    var f, g := Keyed(kind, c, index), Keyed(kind, b, index);
    TwinsSkip(v, w, ts);
    rest := ValuesAlike(f, g, Skip(v), Skip(w), ts, e, d);
    rest := ProceedAlike(kind, xs, ys, index, ParseValue(f, Skip(v), e), ParseValue(g, Skip(w), d), rest);
  }

  lemma {:induction false} ProceedAlike(kind: Kind, xs: seq<Node>, ys: seq<Node>, index: nat, p: Parse, q: Parse,
      behind: Option<seq<Text>>)
    returns (rest: Option<seq<Text>>)
    requires LikeAll(xs, ys) && Alike(p, q, behind)
    ensures AlikeAll(Proceed(kind, xs, index, p), Proceed(kind, ys, index, q), rest)
    ensures rest.Some? ==> behind.Some? && |rest.value| < |behind.value|
    decreases if behind.Some? then |behind.value| else 0, 3
  {
    LikePush(xs, ys, p.node, q.node);
    rest := None;
    if behind.Some? {
      var ts := behind.value;
      var v, w := Skip(p.next.value), Skip(q.next.value);
      TwinsSkip(p.next.value, q.next.value, ts);
      FirstToken(v, ts);
      FirstToken(w, ts);
      if ts != [] {
        if v[0] == CloseOf(kind) {
          rest := Some(ts[1..]);
        } else if v[0] == COMMA {
          rest := LoopsAlike(kind, xs + [p.node], ys + [q.node], index + 1, EMPTY, EMPTY, v[1..], w[1..], ts[1..],
            p.error, q.error);
        } else {
          rest := NothingThere(kind, xs, ys, index + 1, p.node, q.node, v, w, ts, p.error, q.error);
        }
      }
    }
  }

  // No value begins with a colon or a closing bracket.
  lemma NothingThere(kind: Kind, xs: seq<Node>, ys: seq<Node>, index: nat, c: Node, b: Node, v: Text, w: Text,
      ts: seq<Text>, e: Option<Text>, d: Option<Text>)
    returns (rest: Option<seq<Text>>)
    requires Twins(v, w, ts) && ts != [] && LikeAll(xs, ys) && Like(c, b)
    requires v != [] && w != [] && v[0] == w[0] && (v[0] == COLON || IsClose(v[0]))
    ensures AlikeAll(Children(kind, xs, index, c, v, e), Children(kind, ys, index, b, w, d), rest) && rest == None
  {
    LikePush(xs, ys, Keyed(kind, c, index), Keyed(kind, b, index));
    rest := None;
  }

  /** Whatever the tokens, as long as no two values come in a row and something comes behind every comma: texts
      that differ in the blanks between them are both refused, or load as the same but for keys that are empty. */
  lemma LoadsAlike(t: Text, u: Text, ts: seq<Text>)
    requires TidyTokens(ts) && ts != [] && Spaced(t, ts) && Spaced(u, ts)
    ensures Load(t).Some? <==> Load(u).Some?
    ensures Load(t).Some? ==> Like(Load(t).value, Load(u).value)
  {
    TwinsSkip(t, u, ts);
    assert Like(EMPTY, EMPTY);
    var rest := ValuesAlike(EMPTY, EMPTY, Skip(t), Skip(u), ts, None, None);
  }

  // ---------------------------------------------------------------------------
  // Trees

  // The tokens of a tree, with those that come behind it
  function ValueTokens(n: Node, more: seq<Text>): seq<Text>
    requires Plain(n)
    decreases n, 0
  {
    if n.kind == Int || n.kind == Double then [n.value.value] + more
    else if n.kind == String then [Quoted(n.value)] + more
    else [[OpenOf(n.kind)]] + ChildrenTokens(n.kind, n.children, 0, [[CloseOf(n.kind)]] + more)
  }

  function ChildTokens(kind: Kind, c: Node, index: nat, more: seq<Text>): seq<Text>
    requires PlainChild(kind, c, index)
    decreases c, 1
  {
    if kind == Array then ValueTokens(c, more) else
      var x := if Bare(c) then more else [[COLON]] + ValueTokens(c, more);
      if c.key.Some? then [Quoted(c.key)] + x else x
  }

  function ChildrenTokens(kind: Kind, cs: seq<Node>, index: nat, more: seq<Text>): seq<Text>
    requires PlainChildren(kind, cs, index)
    decreases cs, 2
  {
    if cs == [] then more
    else ChildTokens(kind, cs[0], index, if |cs| == 1 then more
      else [[COMMA]] + ChildrenTokens(kind, cs[1..], index + 1, more))
  }

  /** The tokens of a tree: its brackets, commas, colons, quoted strings and numbers. */
  function Tokens(n: Node): seq<Text>
    requires Plain(n)
  {
    ValueTokens(n, [])
  }

  // The tokens one after the other
  function Joined(ts: seq<Text>): Text {
    if ts == [] then [] else ts[0] + Joined(ts[1..])
  }

  lemma JoinedFirst(x: Text, ts: seq<Text>)
    ensures Joined([x] + ts) == x + Joined(ts)
  {
    assert ([x] + ts)[1..] == ts;
  }

  lemma {:induction false} ValueJoins(n: Node, more: seq<Text>)
    requires Plain(n)
    ensures Joined(ValueTokens(n, more)) == TextOf(n, Joined(more))
    decreases n, 0
  {
    if n.kind == Int || n.kind == Double {
      JoinedFirst(n.value.value, more);
    } else if n.kind == String {
      JoinedFirst(Quoted(n.value), more);
      QuotedTail(n.value.value, Joined(more));
    } else {
      var close := [[CloseOf(n.kind)]] + more;
      JoinedFirst([CloseOf(n.kind)], more);
      ChildrenJoin(n.kind, n.children, 0, close);
      JoinedFirst([OpenOf(n.kind)], ChildrenTokens(n.kind, n.children, 0, close));
    }
  }

  lemma {:induction false} ChildJoins(kind: Kind, c: Node, index: nat, more: seq<Text>)
    requires PlainChild(kind, c, index)
    ensures Joined(ChildTokens(kind, c, index, more)) == ChildText(kind, c, index, Joined(more))
    decreases c, 1
  {
    if kind == Array {
      ValueJoins(c, more);
    } else {
      var x := more;
      if !Bare(c) {
        ValueJoins(c, more);
        x := [[COLON]] + ValueTokens(c, more);
        JoinedFirst([COLON], ValueTokens(c, more));
      }
      if c.key.Some? {
        JoinedFirst(Quoted(c.key), x);
        QuotedTail(c.key.value, Joined(x));
      }
    }
  }

  lemma {:induction false} ChildrenJoin(kind: Kind, cs: seq<Node>, index: nat, more: seq<Text>)
    requires PlainChildren(kind, cs, index)
    ensures Joined(ChildrenTokens(kind, cs, index, more)) == ChildrenText(kind, cs, index, Joined(more))
    decreases cs, 2
  {
    if |cs| == 1 {
      ChildJoins(kind, cs[0], index, more);
    } else if cs != [] {
      ChildrenJoin(kind, cs[1..], index + 1, more);
      var y := ChildrenTokens(kind, cs[1..], index + 1, more);
      JoinedFirst([COMMA], y);
      ChildJoins(kind, cs[0], index, [[COMMA]] + y);
    }
  }

  lemma TokenFirst(x: Text, ts: seq<Text>)
    requires TidyTokens(ts) && Follows(x, ts)
    ensures TidyTokens([x] + ts) && [x] + ts != []
  {
    assert ([x] + ts)[1..] == ts;
  }

  lemma QuotedToken(s: Text)
    requires CleanString(s)
    ensures IsStringToken(Quoted(Some(s)))
  {
    QuotedEnd(s, []);
    QuotedTail(s, []);
    EmptyRight([QUOTE]);
    EmptyRight(Quoted(Some(s)));
  }

  lemma {:induction false} ValueTidy(n: Node, more: seq<Text>)
    requires Plain(n) && TidyTokens(more) && Stops(more)
    ensures TidyTokens(ValueTokens(n, more)) && ValueTokens(n, more) != []
    decreases n, 0
  {
    if n.kind == Int || n.kind == Double {
      TokenFirst(n.value.value, more);
    } else if n.kind == String {
      QuotedToken(n.value.value);
      TokenFirst(Quoted(n.value), more);
    } else {
      var close := [[CloseOf(n.kind)]] + more;
      TokenFirst([CloseOf(n.kind)], more);
      ChildrenTidy(n.kind, n.children, 0, close);
      TokenFirst([OpenOf(n.kind)], ChildrenTokens(n.kind, n.children, 0, close));
    }
  }

  lemma {:induction false} ChildTidy(kind: Kind, c: Node, index: nat, more: seq<Text>)
    requires PlainChild(kind, c, index) && TidyTokens(more) && Stops(more) && more != []
    ensures TidyTokens(ChildTokens(kind, c, index, more)) && ChildTokens(kind, c, index, more) != []
    decreases c, 1
  {
    if kind == Array {
      ValueTidy(c, more);
    } else {
      var x := more;
      if !Bare(c) {
        ValueTidy(c, more);
        x := [[COLON]] + ValueTokens(c, more);
        TokenFirst([COLON], ValueTokens(c, more));
      }
      if c.key.Some? {
        QuotedToken(c.key.value);
        TokenFirst(Quoted(c.key), x);
      }
    }
  }

  lemma {:induction false} ChildrenTidy(kind: Kind, cs: seq<Node>, index: nat, more: seq<Text>)
    requires PlainChildren(kind, cs, index) && TidyTokens(more) && Stops(more) && more != []
    ensures TidyTokens(ChildrenTokens(kind, cs, index, more)) && ChildrenTokens(kind, cs, index, more) != []
    decreases cs, 2
  {
    if |cs| == 1 {
      ChildTidy(kind, cs[0], index, more);
    } else if cs != [] {
      ChildrenTidy(kind, cs[1..], index + 1, more);
      var y := ChildrenTokens(kind, cs[1..], index + 1, more);
      TokenFirst([COMMA], y);
      ChildTidy(kind, cs[0], index, [[COMMA]] + y);
    }
  }

  lemma {:induction false} JoinedSpaced(ts: seq<Text>)
    requires TidyTokens(ts)
    ensures Spaced(Joined(ts), ts)
  {
    if ts != [] {
      JoinedSpaced(ts[1..]);
      assert Joined(ts)[|ts[0]|..] == Joined(ts[1..]) && Joined(ts)[0] == ts[0][0];
    }
  }

  /** The tokens of a tree, one after the other, are its compact text. */
  lemma TokensPrint(n: Node)
    requires Plain(n)
    ensures Print(n) == Some(Joined(Tokens(n))) && TidyTokens(Tokens(n)) && Tokens(n) != []
  {
    ValuePrints(n, []);
    EmptyRight(Print(n).value);
    ValueJoins(n, []);
    ValueTidy(n, []);
  }

  /** A tree of clean strings, clean keys and right numbers is what any text of its tokens loads as, with whatever
      blanks before, between and behind them, if and only if it is settled and no string by itself. */
  lemma SpacedExactly(n: Node, t: Text)
    requires Plain(n) && n.key == None && Spaced(t, Tokens(n))
    ensures Load(t) == Some(n) <==> Settled(n, true) && n.kind != String
  {
    var compact := Joined(Tokens(n));
    TokensPrint(n);
    JoinedSpaced(Tokens(n));
    LoadsAlike(compact, t, Tokens(n));
    RoundTripExactly(n);
    if Load(compact) == Some(n) {
      LikePlain(n, Load(t).value);
    } else if Load(t) == Some(n) {
      LikeEither(Load(compact).value, n);
      LikePlain(n, Load(compact).value);
    }
  }
}
