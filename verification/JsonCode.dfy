/** The parser and the compact printer of src/core/sis_json.c as they run: loops over moving pointers, an output
    buffer whose size is counted first, and the in-place replacement of escaped quotes. Each does what its
    function in Json says. */
module JsonCode {
  import opened Memory
  import opened Options
  import opened Sequences
  import opened Json
  import JsonBlanks
  import JsonRoundTrip
  import JsonTrees

  // ---------------------------------------------------------------------------
  // Parsing

  method SkipBlanks(t0: Text) returns (t: Text)
    ensures t == Skip(t0)
  {
    t := t0;
    while 0 < Head(t) <= SPACE
      invariant Skip(t) == Skip(t0)
      decreases |t|
    {
      t := t[1..];
    }
  }

  lemma UnescapeStep(s: Text, i: nat)
    requires i < |s|
    ensures Unescape(s[i..]) ==
      if i + 1 < |s| && s[i] == BACKSLASH && s[i + 1] == QUOTE then [QUOTE] + Unescape(s[i + 2..])
      else [s[i]] + Unescape(s[i + 1..])
  {
    assert s[i..][1..] == s[i + 1..];
    assert i + 1 < |s| ==> s[i..][2..] == s[i + 2..];
  }

  /** _sis_replace_string: the text is rewritten in place and ends at the length returned. */
  method ReplaceString(text: array<Byte>) returns (len: nat)
    modifies text
    ensures len <= text.Length && text[..len] == Unescape(old(text[..]))
  {
    var str := text[..];
    var i := 0;
    len := 0;
    assert str[0..] == str;
    EmptyLeft(Unescape(str));
    while i < |str|
      invariant len <= i <= |str| == text.Length && text[..len] + Unescape(str[i..]) == Unescape(str)
    {
      UnescapeStep(str, i);
      ghost var before := text[..len];
      if str[i] == BACKSLASH && i + 1 < |str| && str[i + 1] == QUOTE {
        text[len] := QUOTE;
        i := i + 1;
      } else {
        text[len] := str[i];
      }
      Assoc(before, [text[len]], Unescape(str[i + 1..]));
      assert text[..len + 1] == before + [text[len]];
      i, len := i + 1, len + 1;
    }
    EmptyRight(text[..len]);
  }

  method Replaced(s: Text) returns (r: Text)
    ensures r == Unescape(s)
  {
    var text := new Byte[|s|];
    forall i | 0 <= i < |s| {
      text[i] := s[i];
    }
    assert text[..] == s;
    var len := ReplaceString(text);
    r := text[..len];
  }

  method FindEnd(t: Text, before: Byte) returns (end: Option<nat>)
    ensures end == StringEnd(t, before)
  {
    var ago, ptr, len := before, t, 0;
    while Head(ptr) != 0 && (ptr[0] != QUOTE || ago == BACKSLASH)
      invariant len + |ptr| == |t| && StringEnd(t, before) == JsonRoundTrip.Further(StringEnd(ptr, ago), len)
      decreases |ptr|
    {
      ago, ptr, len := ptr[0], ptr[1..], len + 1;
    }
    end := if Head(ptr) == 0 then None else Some(len);
  }

  method FindColon(t: Text) returns (ptr: Text)
    ensures ptr == ToColon(t)
  {
    ptr := t;
    while Head(ptr) != 0 && ptr[0] != COLON && ptr[0] != COMMA
      invariant ToColon(ptr) == ToColon(t)
      decreases |ptr|
    {
      ptr := ptr[1..];
    }
  }

  lemma NumberEndStep(t: Text, len: nat)
    requires len <= |t|
    ensures NumberEnd(t[len..]) ==
      if len < |t| && t[len] != 0 && IsNumberByte(t[len]) then NumberEnd(t[len + 1..]) + 1 else 0
  {
    if len < |t| {
      assert t[len..][1..] == t[len + 1..];
    }
  }

  /** _sis_parse_number: a point makes a double when the very next byte of the text is a digit. */
  method ReadNumber(n: Node, t: Text, e: Option<Text>) returns (p: Parse)
    ensures p == ParseNumber(n, t, e)
  {
    var len, isfloat := 0, false;
    assert t[0..] == t;
    while len < |t| && t[len] != 0 && IsNumberByte(t[len])
      invariant len <= |t| && NumberEnd(t) == len + NumberEnd(t[len..])
      invariant isfloat <==> exists i :: 0 <= i < len && t[i] == DOT && i + 1 < |t| && IsDigit(t[i + 1])
      decreases |t| - len
    {
      NumberEndStep(t, len);
      if t[len] == DOT && IsDigit(Head(t[len + 1..])) {
        isfloat := true;
      }
      len := len + 1;
    }
    NumberEndStep(t, len);
    FloatIs(t, len);
    p := Parse(n.(value := Some(Dup(t, len)), kind := if isfloat then Double else Int), Some(t[len..]), e);
  }

  // A digit behind a point of the number is in the number.
  lemma FloatIs(t: Text, len: nat)
    requires len <= |t| && (len < |t| ==> !IsNumberByte(t[len]) || t[len] == 0)
    ensures IsFloat(t[..len]) <==> exists i :: 0 <= i < len && t[i] == DOT && i + 1 < |t| && IsDigit(t[i + 1])
  {
    if i :| 0 <= i < len && t[i] == DOT && i + 1 < |t| && IsDigit(t[i + 1]) {
      assert i + 1 < len;
      assert t[..len][i] == DOT && IsDigit(t[..len][i + 1]);
    }
  }

  /** _sis_parse_string */
  method ReadString(n: Node, t: Text, e: Option<Text>) returns (p: Parse)
    requires Head(t) == QUOTE
    ensures p == ParseString(n, t, e)
    decreases |t|, 0
  {
    var end := FindEnd(t[1..], t[0]);
    if end == None {
      return Parse(n, None, Some(t));
    }
    var len := end.value;
    var ptr := t[1..][len + 1..];
    if n.key.None? {
      var named := n.(key := Some(Dup(t[1..], len)));
      var at := FindColon(ptr);
      if Head(at) == 0 {
        return Parse(named, None, Some(t));
      }
      if at[0] == COLON {
        var start := SkipBlanks(at[1..]);
        var q := ReadValue(named, start, e);
        if q.next == None {
          return q;
        }
        var next := SkipBlanks(q.next.value);
        return Parse(q.node, Some(next), q.error);
      }
      return Parse(named.(value := None, kind := Null), Some(at), e);
    }
    var out := Replaced(t[1..][..len]);
    return Parse(n.(value := Some(out), kind := String), Some(ptr), e);
  }

  ghost predicate Yields(kind: Kind, done: seq<Node>, index: nat, child: Node, v: Text, e: Option<Text>,
      outcome: Family)
  {
    Children(kind, done, index, child, v, e) == outcome
  }

  // One round of a container's loop
  lemma Round(kind: Kind, done: seq<Node>, index: nat, child: Node, v: Text, e: Option<Text>, outcome: Family, p: Parse)
    requires Yields(kind, done, index, child, v, e, outcome) && Head(v) != 0
    requires p == ParseValue(Keyed(kind, child, index), Skip(v), e)
    ensures p.next.Some? ==> |Skip(p.next.value)| < |v|
    ensures ProceedsTo(kind, done, index, p, outcome)
  {
    assert Children(kind, done, index, child, v, e) == Proceed(kind, done, index, p);
  }

  ghost predicate ProceedsTo(kind: Kind, done: seq<Node>, index: nat, p: Parse, outcome: Family) {
    Proceed(kind, done, index, p) == outcome
  }

  lemma AfterRound(kind: Kind, done: seq<Node>, index: nat, p: Parse, outcome: Family)
    requires ProceedsTo(kind, done, index, p, outcome)
    ensures p.next == None ==> outcome == (done + [p.node], None, None)
    ensures p.next.Some? ==> var u := Skip(p.next.value);
      && (Head(u) == 0 ==> outcome == (done + [p.node], None, Some(u)))
      && (Head(u) == CloseOf(kind) ==> outcome == (done + [p.node], Some(u[1..]), p.error))
      && (Head(u) == COMMA ==> Yields(kind, done + [p.node], index + 1, EMPTY, u[1..], p.error, outcome))
      && (Head(u) != 0 && Head(u) != CloseOf(kind) && Head(u) != COMMA ==>
        Yields(kind, done, index + 1, p.node, u, p.error, outcome))
  {}

  /** _sis_parse_array and _sis_parse_object: a child that is followed by neither a comma nor the closing bracket
      is filled in once more. */
  method ReadContainer(n: Node, kind: Kind, t: Text, e: Option<Text>) returns (p: Parse)
    requires t != []
    ensures p == ParseContainer(n, kind, t, e)
    decreases |t|, 0
  {
    var v := SkipBlanks(t[1..]);
    if Head(v) == CloseOf(kind) {
      return Parse(n.(kind := kind), Some(v[1..]), e);
    }
    ghost var outcome := Children(kind, [], 0, EMPTY, v, e);
    var done, child, index, error := [], EMPTY, 0, e;
    while Head(v) != 0
      invariant |v| < |t| && Yields(kind, done, index, child, v, error, outcome)
      decreases |v|
    {
      var start := SkipBlanks(v);
      var q := ReadValue(Keyed(kind, child, index), start, error);
      Round(kind, done, index, child, v, error, outcome, q);
      AfterRound(kind, done, index, q, outcome);
      if q.next == None {
        return Parse(n.(kind := kind, children := done + [q.node]), None, None);
      }
      var u := SkipBlanks(q.next.value);
      if Head(u) == 0 {
        return Parse(n.(kind := kind, children := done + [q.node]), None, Some(u));
      }
      index, error := index + 1, q.error;
      if u[0] == CloseOf(kind) {
        return Parse(n.(kind := kind, children := done + [q.node]), Some(u[1..]), q.error);
      } else if u[0] == COMMA {
        done, child, v := done + [q.node], EMPTY, u[1..];
      } else {
        child, v := q.node, u;
      }
    }
    return Parse(n.(kind := kind, children := done + [child]), None, error);
  }

  /** _sis_parse_value */
  method ReadValue(n: Node, t: Text, e: Option<Text>) returns (p: Parse)
    ensures p == ParseValue(n, t, e)
    decreases |t|, 1
  {
    if Head(t) == QUOTE {
      p := ReadString(n, t, e);
    } else if Head(t) == MINUS || IsDigit(Head(t)) {
      p := ReadNumber(n, t, e);
    } else if Head(t) == OPEN_ARRAY {
      p := ReadContainer(n, Array, t, e);
    } else if Head(t) == OPEN_OBJECT {
      p := ReadContainer(n, Object, t, e);
    } else {
      p := Parse(n, None, e);
    }
  }

  // What a text of a settled tree loads as, with blanks anywhere between its tokens
  ghost predicate LoadsTrees(t: Text, r: Option<Node>) {
    forall n {:trigger JsonBlanks.Tokens(n)} ::
      JsonTrees.Plain(n) && n.key == None && JsonBlanks.Spaced(t, JsonBlanks.Tokens(n)) ==>
        (r == Some(n) <==> JsonTrees.Settled(n, true) && n.kind != String)
  }

  lemma LoadDoes(t: Text)
    ensures LoadsTrees(t, Load(t))
  {
    forall n | JsonTrees.Plain(n) && n.key == None && JsonBlanks.Spaced(t, JsonBlanks.Tokens(n))
      ensures Load(t) == Some(n) <==> JsonTrees.Settled(n, true) && n.kind != String
    {
      JsonBlanks.SpacedExactly(n, t);
    }
  }

  /** sis_json_load */
  method LoadText(t: Text) returns (r: Option<Node>)
    ensures r == Load(t) && LoadsTrees(t, r)
  {
    LoadDoes(t);
    if |t| == 0 {
      return None;
    }
    var start := SkipBlanks(t);
    var p := ReadValue(EMPTY, start, None);
    r := if p.error.Some? then None else Some(p.node);
  }

  // ---------------------------------------------------------------------------
  // Printing

  // memmove to the place a pointer into the buffer points at
  method Put(out: array<Byte>, at: nat, x: Text) returns (end: nat)
    requires at + |x| <= out.Length
    modifies out
    ensures end == at + |x| && out[..end] == old(out[..at]) + x
  {
    forall i | 0 <= i < |x| {
      out[at + i] := x[i];
    }
    end := at + |x|;
    assert out[at..end] == x && out[..at] == old(out[..at]);
    assert out[..end] == out[..at] + out[at..end];
  }

  lemma EscapeStep(s: Text, i: nat)
    requires i < |s|
    ensures Escape(s[i..]) == EscapeByte(s[i]) + Escape(s[i + 1..])
  {
    assert s[i..][1..] == s[i + 1..];
  }

  // The bytes counted for the buffer: exactly those that the escaped text has
  method CountEscaped(s: Text) returns (len: nat)
    ensures len == |Escape(s)|
  {
    len := 0;
    var i := 0;
    assert s[0..] == s;
    while i < |s|
      invariant i <= |s| && len + |Escape(s[i..])| == |Escape(s)|
    {
      EscapeStep(s, i);
      len := len + 1;
      if s[i] in [QUOTE, BACKSLASH, 8, 12, 10, 13, 9] {
        len := len + 1;
      } else if s[i] < SPACE {
        len := len + 5;
      }
      i := i + 1;
    }
  }

  /** _sis_json_to_string: into a buffer of the size counted, with a NUL behind. */
  method PrintString(s: Option<Text>) returns (r: Text)
    ensures r == Quoted(s)
  {
    if s == None {
      return [];
    }
    var str := s.value;
    var len := CountEscaped(str);
    var out := new Byte[len + 3];
    var at := Put(out, 0, [QUOTE]);
    EmptyLeft([QUOTE]);
    var i := 0;
    assert str[0..] == str;
    while i < |str|
      invariant i <= |str| && 0 <= at <= out.Length && out[..at] + Escape(str[i..]) == [QUOTE] + Escape(str)
    {
      EscapeStep(str, i);
      Assoc(out[..at], EscapeByte(str[i]), Escape(str[i + 1..]));
      Fits(out[..at], EscapeByte(str[i]), Escape(str[i + 1..]), [QUOTE] + Escape(str));
      at := Put(out, at, EscapeByte(str[i]));
      i := i + 1;
    }
    EmptyRight(out[..at]);
    at := Put(out, at, [QUOTE]);
    out[at] := 0;
    r := out[..at];
  }

  lemma Fits(a: Text, b: Text, c: Text, whole: Text)
    requires a + b + c == whole
    ensures |a| + |b| + |c| == |whole|
  {
    assert |a + b + c| == |whole|;
  }

  // Texts with commas between
  function Join(pieces: seq<Text>): Text
    requires pieces != []
  {
    if |pieces| == 1 then pieces[0] else pieces[0] + ([COMMA] + Join(pieces[1..]))
  }

  // What the pieces take with a comma behind each
  function Counted(pieces: seq<Text>): nat {
    if pieces == [] then 0 else |pieces[0]| + 1 + Counted(pieces[1..])
  }

  lemma {:induction false} CountedPush(pieces: seq<Text>, x: Text)
    ensures Counted(pieces + [x]) == Counted(pieces) + |x| + 1
    decreases |pieces|
  {
    if pieces == [] {
      EmptyLeft([x]);
      assert [x][1..] == [];
    } else {
      TailOfConcat(pieces, [x]);
      CountedPush(pieces[1..], x);
    }
  }

  lemma {:induction false} JoinSize(pieces: seq<Text>)
    requires pieces != []
    ensures |Join(pieces)| + 1 == Counted(pieces)
    decreases |pieces|
  {
    if |pieces| > 1 {
      JoinSize(pieces[1..]);
    }
  }

  ghost predicate Pieces(kind: Kind, cs: seq<Node>, pieces: seq<Text>) {
    |pieces| <= |cs| && forall i :: 0 <= i < |pieces| ==> PrintChild(kind, cs[i]) == Some(pieces[i])
  }

  lemma PiecesPush(kind: Kind, cs: seq<Node>, pieces: seq<Text>, x: Text)
    requires Pieces(kind, cs, pieces) && |pieces| < |cs| && PrintChild(kind, cs[|pieces|]) == Some(x)
    ensures Pieces(kind, cs, pieces + [x])
  {}

  lemma {:induction false} PiecesJoined(kind: Kind, cs: seq<Node>, pieces: seq<Text>)
    requires Pieces(kind, cs, pieces) && |pieces| == |cs| > 0
    ensures PrintChildren(kind, cs) == Some(Join(pieces))
    decreases |cs|
  {
    if |cs| > 1 {
      PiecesJoined(kind, cs[1..], pieces[1..]);
    }
  }

  lemma {:induction false} PieceMissing(kind: Kind, cs: seq<Node>, i: nat)
    requires i < |cs| && PrintChild(kind, cs[i]) == None
    ensures PrintChildren(kind, cs) == None
    decreases i
  {
    if i > 0 {
      PieceMissing(kind, cs[1..], i - 1);
    }
  }

  // An element, or a member with its key, and the bytes counted for it and a comma
  method PrintPiece(kind: Kind, child: Node) returns (piece: Option<Text>, size: nat)
    ensures piece == PrintChild(kind, child)
    ensures piece.Some? ==> size >= |piece.value| + 1
    decreases child, 2
  {
    size := 0;
    var ret := PrintValue(child);
    if kind == Array {
      if ret.Some? {
        size := |ret.value| + 2;
      }
      return ret, size;
    }
    var str := PrintString(child.key);
    size := |str| + 1;
    if ret == None {
      return Some(str), size;
    }
    return Some(str + ([COLON] + ret.value)), size + |ret.value| + 1;
  }

  /** The pieces of a container, and the size counted for its buffer; none when an element cannot be printed. */
  method PrintPieces(kind: Kind, n: Node) returns (pieces: Option<seq<Text>>, len: nat)
    requires n.children != []
    ensures match pieces
      case None => PrintChildren(kind, n.children) == None
      case Some(ps) => |ps| == |n.children| && Pieces(kind, n.children, ps) && len >= |Join(ps)| + 4
    decreases n.children, 0
  {
    len := if kind == Array then 5 else 7;
    var ps: seq<Text>, i := [], 0;
    while i < |n.children|
      invariant i == |ps| <= |n.children| && Pieces(kind, n.children, ps)
      invariant len >= Counted(ps) + 5
    {
      var piece, size := PrintPiece(kind, n.children[i]);
      if piece == None {
        PieceMissing(kind, n.children, i);
        return None, len;
      }
      len := len + size;
      CountedPush(ps, piece.value);
      PiecesPush(kind, n.children, ps, piece.value);
      ps, i := ps + [piece.value], i + 1;
    }
    JoinSize(ps);
    pieces := Some(ps);
  }

  lemma JoinStep(pieces: seq<Text>, i: nat)
    requires i < |pieces|
    ensures Join(pieces[i..]) == if i == |pieces| - 1 then pieces[i] else pieces[i] + ([COMMA] + Join(pieces[i + 1..]))
  {
    assert pieces[i..][1..] == pieces[i + 1..];
  }

  // The buffer of a container, filled piece by piece
  method Compose(open: Byte, pieces: seq<Text>, close: Byte, len: nat) returns (r: Text)
    requires pieces != [] && len >= |Join(pieces)| + 3
    ensures r == [open] + Join(pieces) + [close]
  {
    var out := new Byte[len];
    var at := Put(out, 0, [open]);
    EmptyLeft([open]);
    ghost var whole := [open] + Join(pieces);
    var i := 0;
    assert pieces[0..] == pieces;
    while i < |pieces|
      invariant i <= |pieces| && 0 <= at <= out.Length
      invariant if i == |pieces| then out[..at] == whole else out[..at] + Join(pieces[i..]) == whole
    {
      JoinStep(pieces, i);
      ghost var before := out[..at];
      if i != |pieces| - 1 {
        ghost var rest := Join(pieces[i + 1..]);
        Assoc(before, pieces[i], [COMMA] + rest);
        Assoc(before + pieces[i], [COMMA], rest);
        Fits(before, pieces[i], [COMMA] + rest, whole);
        at := Put(out, at, pieces[i]);
        at := Put(out, at, [COMMA]);
      } else {
        Fits(before, pieces[i], [], whole) by {
          EmptyRight(before + pieces[i]);
        }
        at := Put(out, at, pieces[i]);
      }
      i := i + 1;
    }
    at := Put(out, at, [close]);
    out[at] := 0;
    r := out[..at];
  }

  /** _sis_json_to_array, _sis_json_to_object, _sis_json_to_value */
  method PrintValue(n: Node) returns (r: Option<Text>)
    ensures r == Print(n)
    decreases n, 1
  {
    match n.kind
    case Int => r := n.value;
    case Double => r := n.value;
    case String =>
      var x := PrintString(n.value);
      r := Some(x);
    case Null => r := None;
    case Array =>
      r := PrintContainer(n, Array, OPEN_ARRAY, CLOSE_ARRAY);
    case _ =>
      r := PrintContainer(n, Object, OPEN_OBJECT, CLOSE_OBJECT);
  }

  method PrintContainer(n: Node, kind: Kind, open: Byte, close: Byte) returns (r: Option<Text>)
    ensures n.children == [] ==> r == Some([open, close])
    ensures n.children != [] ==>
      match PrintChildren(kind, n.children) case None => r == None case Some(x) => r == Some([open] + x + [close])
    decreases n, 0
  {
    if n.children == [] {
      return Some([open, close]);
    }
    var pieces, len := PrintPieces(kind, n);
    if pieces == None {
      return None;
    }
    PiecesJoined(kind, n.children, pieces.value);
    var x := Compose(open, pieces.value, close, len);
    r := Some(x);
  }

  /** Printed and loaded again, a plain tree is what it was exactly when it is settled and no string by itself. */
  method PrintAndLoad(n: Node) returns (text: Option<Text>, again: Option<Node>)
    requires JsonTrees.Plain(n) && n.key == None
    ensures text.Some? && (again == Some(n) <==> JsonTrees.Settled(n, true) && n.kind != String)
  {
    text := PrintValue(n);
    JsonTrees.RoundTripExactly(n);
    again := LoadText(text.value);
  }
}
