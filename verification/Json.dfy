/** JSON text (src/core/sis_json.c): the compact printer and the recursive-descent parser, as functions.
    A pointer into the text is the text from there on, which a NUL byte ends at the latest. A node is filled in
    step by step, and a parser that meets two values in a row fills the same node twice, so every function takes
    the node as it is and gives the node as it leaves it. */
module Json {
  import opened Memory
  import opened Options

  type Text = seq<Byte>

  const SPACE: Byte := 32
  const QUOTE: Byte := 34
  const COMMA: Byte := 44
  const MINUS: Byte := 45
  const DOT: Byte := 46
  const ZERO: Byte := 48
  const COLON: Byte := 58
  const OPEN_ARRAY: Byte := 91
  const BACKSLASH: Byte := 92
  const CLOSE_ARRAY: Byte := 93
  const OPEN_OBJECT: Byte := 123
  const CLOSE_OBJECT: Byte := 125

  datatype Kind = Null | Root | Int | Double | String | Array | Object

  // The pointers next, prev and father are the order and the nesting of the children.
  datatype Node = Node(kind: Kind, key: Option<Text>, value: Option<Text>, children: seq<Node>)

  const EMPTY := Node(Null, None, None, [])

  // The node as filled in, where parsing goes on (None is the null pointer), and the error pointer.
  datatype Parse = Parse(node: Node, next: Option<Text>, error: Option<Text>)

  predicate IsDigit(b: Byte) { ZERO <= b <= 57 }
  predicate IsClose(b: Byte) { b == CLOSE_ARRAY || b == CLOSE_OBJECT }
  predicate IsNumberByte(b: Byte) { IsDigit(b) || b == MINUS || b == DOT }

  // The byte a pointer points at
  function Head(t: Text): Byte {
    if t == [] then 0 else t[0]
  }

  function Skip(t: Text): (r: Text)
    ensures |r| <= |t|
  {
    if 0 < Head(t) <= SPACE then Skip(t[1..]) else t
  }

  function SkipFrom(t: Option<Text>): (r: Option<Text>) {
    if t.Some? then Some(Skip(t.value)) else None
  }

  // The number, in digits
  function Decimal(n: nat): Text {
    if n < 10 then [ZERO + n] else Decimal(n / 10) + [ZERO + n % 10]
  }

  // ---------------------------------------------------------------------------
  // Parsing

  // How many bytes come before the quote that ends a string: the first with no backslash before it.
  function StringEnd(t: Text, before: Byte): (r: Option<nat>)
    ensures r.Some? ==> r.value < |t|
    decreases |t|
  {
    if Head(t) == 0 then None
    else if t[0] == QUOTE && before != BACKSLASH then Some(0)
    else match StringEnd(t[1..], t[0])
      case None => None
      case Some(n) => Some(n + 1)
  }

  function ToNul(t: Text): Text {
    if Head(t) == 0 then [] else [t[0]] + ToNul(t[1..])
  }

  // sis_strdup: a length of zero means up to the NUL.
  function Dup(t: Text, n: nat): Text
    requires n <= |t|
  {
    if n == 0 then ToNul(t) else t[..n]
  }

  // _sis_replace_string: only an escaped quote is undone.
  function Unescape(s: Text): (r: Text)
    ensures |r| <= |s|
  {
    if s == [] then []
    else if |s| > 1 && s[0] == BACKSLASH && s[1] == QUOTE then [QUOTE] + Unescape(s[2..])
    else [s[0]] + Unescape(s[1..])
  }

  // From a colon or a comma on, or from the end
  function ToColon(t: Text): (r: Text)
    ensures |r| <= |t|
    ensures Head(r) == 0 || Head(r) == COLON || Head(r) == COMMA
  {
    if Head(t) == 0 || t[0] == COLON || t[0] == COMMA then t else ToColon(t[1..])
  }

  function NumberEnd(t: Text): (n: nat)
    ensures n <= |t|
  {
    if Head(t) != 0 && IsNumberByte(t[0]) then NumberEnd(t[1..]) + 1 else 0
  }

  predicate IsFloat(s: Text) {
    exists i :: 0 <= i < |s| - 1 && s[i] == DOT && IsDigit(s[i + 1])
  }

  function NumberKind(s: Text): Kind {
    if IsFloat(s) then Double else Int
  }

  function ParseNumber(n: Node, t: Text, e: Option<Text>): Parse {
    var len := NumberEnd(t);
    Parse(n.(value := Some(Dup(t, len)), kind := NumberKind(t[..len])), Some(t[len..]), e)
  }

  // A member behind its key: its value after a colon, or none before a comma
  function ParseMember(n: Node, start: Text, rest: Text, e: Option<Text>): (p: Parse)
    ensures p.next.Some? ==> |p.next.value| <= |rest|
    decreases |rest|, 2
  {
    var at := ToColon(rest);
    if Head(at) == 0 then Parse(n, None, Some(start))
    else if at[0] == COLON then
      var p := ParseValue(n, Skip(at[1..]), e);
      Parse(p.node, SkipFrom(p.next), p.error)
    else
      Parse(n.(value := None, kind := Null), Some(at), e)
  }

  function ParseString(n: Node, t: Text, e: Option<Text>): (p: Parse)
    requires Head(t) == QUOTE
    ensures p.next.Some? ==> |p.next.value| < |t|
    decreases |t|, 0
  {
    match StringEnd(t[1..], QUOTE)
    case None => Parse(n, None, Some(t))
    case Some(len) =>
      var rest := t[1..][len + 1..];
      if n.key.None? then ParseMember(n.(key := Some(Dup(t[1..], len))), t, rest, e)
      else Parse(n.(value := Some(Unescape(t[1..][..len])), kind := String), Some(rest), e)
  }

  function CloseOf(kind: Kind): Byte {
    if kind == Array then CLOSE_ARRAY else CLOSE_OBJECT
  }

  // An element of an array is given its number as key, each time it is filled in.
  function Keyed(kind: Kind, child: Node, index: nat): Node {
    if kind == Array then child.(key := Some(Decimal(index))) else child
  }

  // The children a container has in the end, the position behind it and the error
  type Family = (seq<Node>, Option<Text>, Option<Text>)

  // The loop over the children, at v, with child to be filled in and those in done before it
  function Children(kind: Kind, done: seq<Node>, index: nat, child: Node, v: Text, e: Option<Text>): (r: Family)
    ensures r.1.Some? ==> |r.1.value| < |v|
    decreases |v|, 2
  {
    if Head(v) == 0 then (done + [child], None, e)
    else Proceed(kind, done, index, ParseValue(Keyed(kind, child, index), Skip(v), e))
  }

  // After a child
  function Proceed(kind: Kind, done: seq<Node>, index: nat, p: Parse): (r: Family)
    ensures r.1.Some? ==> p.next.Some? && |r.1.value| < |p.next.value|
    decreases if p.next.Some? then |p.next.value| else 0, 3
  {
    match SkipFrom(p.next)
    case None => (done + [p.node], None, None)
    case Some(u) =>
      if Head(u) == 0 then (done + [p.node], None, Some(u))
      else if u[0] == CloseOf(kind) then (done + [p.node], Some(u[1..]), p.error)
      else if u[0] == COMMA then Children(kind, done + [p.node], index + 1, EMPTY, u[1..], p.error)
      else Children(kind, done, index + 1, p.node, u, p.error)
  }

  function ParseContainer(n: Node, kind: Kind, t: Text, e: Option<Text>): (p: Parse)
    requires t != []
    ensures p.next.Some? ==> |p.next.value| < |t|
    decreases |t|, 0
  {
    var v := Skip(t[1..]);
    if Head(v) == CloseOf(kind) then Parse(n.(kind := kind), Some(v[1..]), e) else
      var r := Children(kind, [], 0, EMPTY, v, e);
      Parse(n.(kind := kind, children := r.0), r.1, r.2)
  }

  function ParseValue(n: Node, t: Text, e: Option<Text>): (p: Parse)
    ensures p.next.Some? ==> |p.next.value| < |t|
    decreases |t|, 1
  {
    if Head(t) == QUOTE then ParseString(n, t, e)
    else if Head(t) == MINUS || IsDigit(Head(t)) then ParseNumber(n, t, e)
    else if Head(t) == OPEN_ARRAY then ParseContainer(n, Array, t, e)
    else if Head(t) == OPEN_OBJECT then ParseContainer(n, Object, t, e)
    else Parse(n, None, e)
  }

  /** sis_json_load: the text is refused when the error pointer is set at the end. */
  function Load(t: Text): Option<Node> {
    if t == [] then None else
      var p := ParseValue(EMPTY, Skip(t), None);
      if p.error.Some? then None else Some(p.node)
  }

  // ---------------------------------------------------------------------------
  // Printing, in the compact form

  // The letter of a short escape, or else u and the value in hexadecimal
  function EscapeByte(b: Byte): Text {
    if b >= SPACE && b != QUOTE && b != BACKSLASH then [b]
    else if b == BACKSLASH || b == QUOTE then [BACKSLASH, b]
    else if b == 8 then [BACKSLASH, 98]
    else if b == 12 then [BACKSLASH, 102]
    else if b == 10 then [BACKSLASH, 110]
    else if b == 13 then [BACKSLASH, 114]
    else if b == 9 then [BACKSLASH, 116]
    else [BACKSLASH, 117, ZERO, ZERO, ZERO + b / 16, if b % 16 < 10 then ZERO + b % 16 else 87 + b % 16]
  }

  function Escape(s: Text): Text {
    if s == [] then [] else EscapeByte(s[0]) + Escape(s[1..])
  }

  function Quoted(s: Option<Text>): Text {
    match s
    case None => []
    case Some(x) => [QUOTE] + Escape(x) + [QUOTE]
  }

  function PrintChild(kind: Kind, c: Node): Option<Text>
    decreases c, 1
  {
    if kind == Array then Print(c) else
      match Print(c)
      case None => Some(Quoted(c.key))
      case Some(x) => Some(Quoted(c.key) + ([COLON] + x))
  }

  // With commas between; None when one cannot be printed
  function PrintChildren(kind: Kind, cs: seq<Node>): Option<Text>
    requires cs != []
    decreases cs, 2
  {
    match PrintChild(kind, cs[0])
    case None => None
    case Some(x) =>
      if |cs| == 1 then Some(x) else
        match PrintChildren(kind, cs[1..])
        case None => None
        case Some(y) => Some(x + ([COMMA] + y))
  }

  function Print(n: Node): Option<Text>
    decreases n, 0
  {
    match n.kind
    case Int => n.value
    case Double => n.value
    case String => Some(Quoted(n.value))
    case Null => None
    case Array =>
      if n.children == [] then Some([OPEN_ARRAY, CLOSE_ARRAY]) else
        (match PrintChildren(Array, n.children)
         case None => None
         case Some(x) => Some([OPEN_ARRAY] + x + [CLOSE_ARRAY]))
    case _ =>
      if n.children == [] then Some([OPEN_OBJECT, CLOSE_OBJECT]) else
        (match PrintChildren(Object, n.children)
         case None => None
         case Some(x) => Some([OPEN_OBJECT] + x + [CLOSE_OBJECT]))
  }
}
