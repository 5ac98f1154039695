/** What the printer of src/core/sis_json.c writes for strings and element numbers, and the spellings of numbers its
    parser knows, by RFC 8259. */
module JsonStandard {
  import opened Memory
  import opened Options
  import opened Sequences
  import opened Json
  import opened JsonRoundTrip
  import opened JsonBlanks
  import JsonTrees

  // ---------------------------------------------------------------------------
  // Strings, section 7

  // What the letter behind a backslash stands for
  function Escaped(letter: Byte): Option<Byte> {
    if letter == Code('"') || letter == Code('\\') || letter == Code('/') then Some(letter)
    else if letter == Code('b') then Some(0x08)
    else if letter == Code('f') then Some(0x0C)
    else if letter == Code('n') then Some(0x0A)
    else if letter == Code('r') then Some(0x0D)
    else if letter == Code('t') then Some(0x09)
    else None
  }

  function HexDigit(b: Byte): Option<nat> {
    if Code('0') <= b <= Code('9') then Some(b - Code('0'))
    else if Code('a') <= b <= Code('f') then Some(b - Code('a') + 10)
    else if Code('A') <= b <= Code('F') then Some(b - Code('A') + 10)
    else None
  }

  // Four digits behind a backslash and a u, of a number below 128
  function HexEscape(t: Text): Option<Byte> {
    if |t| >= 6 && t[1] == Code('u') && t[2] == Code('0') && t[3] == Code('0') && HexDigit(t[4]).Some? &&
      HexDigit(t[5]).Some? && HexDigit(t[4]).value < 8 then Some(HexDigit(t[4]).value * 16 + HexDigit(t[5]).value)
    else None
  }

  // The first byte a string stands for, and how many bytes it is written with
  function FirstOf(t: Text): (r: Option<(Byte, nat)>)
    requires t != []
    ensures r.Some? ==> 0 < r.value.1 <= |t|
  {
    if t[0] != Code('\\') then if t[0] < 0x20 || t[0] == Code('"') then None else Some((t[0], 1))
    else if |t| >= 2 && Escaped(t[1]).Some? then Some((Escaped(t[1]).value, 2))
    else if HexEscape(t).Some? then Some((HexEscape(t).value, 6))
    else None
  }

  // What the text between two quotes stands for
  function Meaning(t: Text): Option<Text> {
    if t == [] then Some([]) else
      match FirstOf(t)
      case None => None
      case Some(f) =>
        var rest := Meaning(t[f.1..]);
        if rest == None then None else Some([f.0] + rest.value)
  }

  lemma ByteMeans(b: Byte, w: Text)
    ensures FirstOf(EscapeByte(b) + w) == Some((b, |EscapeByte(b)|))
  {
    assert b < 32 ==> b / 16 * 16 + b % 16 == b && b / 16 < 2;
  }

  /** A printed string is one of the standard's and stands for just the bytes printed, controls included. */
  lemma {:induction false} PrintedMeans(s: Text)
    ensures Meaning(Escape(s)) == Some(s)
  {
    if s != [] {
      ByteMeans(s[0], Escape(s[1..]));
      PrintedMeans(s[1..]);
      assert Escape(s)[|EscapeByte(s[0])|..] == Escape(s[1..]);
      assert s == [s[0]] + s[1..];
    }
  }

  /** The short forms are taken wherever there are any. */
  lemma ShortForms()
    ensures EscapeByte(0x22) == [Code('\\'), Code('"')] && EscapeByte(0x5C) == [Code('\\'), Code('\\')]
    ensures EscapeByte(0x08) == [Code('\\'), Code('b')] && EscapeByte(0x0C) == [Code('\\'), Code('f')]
    ensures EscapeByte(0x0A) == [Code('\\'), Code('n')] && EscapeByte(0x0D) == [Code('\\'), Code('r')]
    ensures EscapeByte(0x09) == [Code('\\'), Code('t')]
  {}

  // ---------------------------------------------------------------------------
  // Numbers, section 6

  predicate Digits(t: Text) { forall i :: 0 <= i < |t| ==> Code('0') <= t[i] <= Code('9') }

  // The number that digits stand for
  function Denoted(t: Text): nat
    requires Digits(t)
  {
    if t == [] then 0 else 10 * Denoted(t[..|t| - 1]) + (t[|t| - 1] - Code('0'))
  }

  /** An element's key is its number in decimal digits, with no zero in front. */
  lemma {:induction false} DecimalDenotes(n: nat)
    ensures var t := Decimal(n); t != [] && Digits(t) && Denoted(t) == n && (t[0] == Code('0') ==> |t| == 1 && n == 0)
  {
    if n >= 10 {
      DecimalDenotes(n / 10);
      var front := Decimal(n / 10);
      assert Decimal(n)[..|front|] == front;
    } else {
      assert Decimal(n)[..0] == [];
    }
  }

  function Signed(minus: bool, t: Text): Text { if minus then [Code('-')] + t else t }

  /** The standard's numbers without an exponent are texts of the two kinds: without a fraction integers, and with
      one doubles. */
  lemma WholeIsInt(minus: bool, whole: Text)
    requires whole != [] && Digits(whole)
    ensures NumberText(Int, Signed(minus, whole))
  {}

  lemma FractionIsDouble(minus: bool, whole: Text, part: Text)
    requires whole != [] && Digits(whole) && part != [] && Digits(part)
    ensures NumberText(Double, Signed(minus, whole + ([Code('.')] + part)))
  {
    var v := Signed(minus, whole + ([Code('.')] + part));
    var i := if minus then |whole| + 1 else |whole|;
    assert v[i] == DOT && IsDigit(v[i + 1]);
  }

  // ---------------------------------------------------------------------------
  // The six structural characters, section 2

  // A token in front, and a blank
  lemma TokenInFront(x: Text, t: Text, ts: seq<Text>)
    requires x != [] && !Blank(x[0]) && Spaced(t, ts)
    ensures Spaced(x + t, [x] + ts)
  {
    assert (x + t)[|x|..] == t && ([x] + ts)[1..] == ts;
  }

  lemma BlankInFront(t: Text, ts: seq<Text>)
    requires Spaced(t, ts)
    ensures Spaced([Code(' ')] + t, ts)
  {
    assert ([Code(' ')] + t)[1..] == t;
  }

  lemma ObjectTokens(k: Text, v: Text, n: Node)
    requires CleanKey(k) && NumberText(Int, v) && n == Node(Object, None, None, [Node(Int, Some(k), Some(v), [])])
    ensures JsonTrees.Plain(n) && JsonTrees.Settled(n, true)
    ensures Tokens(n) == [[Code('{')]] + ([Quoted(Some(k))] + ([[Code(':')]] + ([v] + [[Code('}')]])))
  {
    var c, close := n.children[0], [[Code('}')]];
    JsonTrees.OneChild(Object, c, 0);
    EmptyRight(close);
    assert ValueTokens(c, close) == [v] + close;
    assert ChildTokens(Object, c, 0, close) == [Quoted(Some(k))] + ([[Code(':')]] + ([v] + close));
    assert ChildrenTokens(Object, [c], 0, close) == ChildTokens(Object, c, 0, close);
  }

  lemma ArrayTokens(v: Text, w: Text, c: Node, d: Node)
    requires NumberText(Int, v) && NumberText(Double, w)
    requires c == Node(Int, Some(Decimal(0)), Some(v), []) && d == Node(Double, Some(Decimal(1)), Some(w), [])
    ensures var n := Node(Array, None, None, [c, d]);
      && JsonTrees.Plain(n) && JsonTrees.Settled(n, true)
      && Tokens(n) == [[Code('[')]] + ([v] + ([[Code(',')]] + ([w] + [[Code(']')]])))
  {
    JsonTrees.OneChild(Array, d, 1);
    assert [c, d][1..] == [d];
    EmptyRight([[Code(']')]]);
    assert JsonTrees.PlainChildren(Array, [c, d], 0) && JsonTrees.SettledChildren(Array, [c, d], 0, true);
    var close := [[Code(']')]];
    assert ValueTokens(d, close) == [w] + close;
    assert ChildTokens(Array, d, 1, close) == [w] + close;
    assert ChildrenTokens(Array, [d], 1, close) == [w] + close;
    var rest := [[Code(',')]] + ([w] + close);
    assert ValueTokens(c, rest) == [v] + rest;
    assert ChildTokens(Array, c, 0, rest) == [v] + rest;
    assert ChildrenTokens(Array, [c, d], 0, close) == [v] + rest;
  }

  lemma SpacedObject(q: Text, v: Text)
    requires q != [] && v != [] && !Blank(q[0]) && !Blank(v[0])
    ensures Spaced([Code('{')] + (q + ([Code(':')] + ([Code(' ')] + (v + [Code('}')])))),
      [[Code('{')]] + ([q] + ([[Code(':')]] + ([v] + [[Code('}')]]))))
  {
    Closes(Code('}'));
    TokenInFront(v, [Code('}')], [[Code('}')]]);
    BlankInFront(v + [Code('}')], [v] + [[Code('}')]]);
    var ts, t := [v] + [[Code('}')]], [Code(' ')] + (v + [Code('}')]);
    TokenInFront([Code(':')], t, ts);
    TokenInFront(q, [Code(':')] + t, [[Code(':')]] + ts);
    TokenInFront([Code('{')], q + ([Code(':')] + t), [q] + ([[Code(':')]] + ts));
  }

  lemma Closes(b: Byte)
    requires !Blank(b)
    ensures Spaced([b], [[b]])
  {
    TokenInFront([b], [], []);
    EmptyRight([b]);
    EmptyRight([[b]]);
  }

  lemma SpacedArray(v: Text, w: Text)
    requires v != [] && w != [] && !Blank(v[0]) && !Blank(w[0])
    ensures Spaced([Code('[')] + (v + ([Code(' ')] + ([Code(',')] + ([Code(' ')] + (w + [Code(']')]))))),
      [[Code('[')]] + ([v] + ([[Code(',')]] + ([w] + [[Code(']')]]))))
  {
    Closes(Code(']'));
    TokenInFront(w, [Code(']')], [[Code(']')]]);
    BlankInFront(w + [Code(']')], [w] + [[Code(']')]]);
    var ts, t := [w] + [[Code(']')]], [Code(' ')] + (w + [Code(']')]);
    TokenInFront([Code(',')], t, ts);
    BlankInFront([Code(',')] + t, [[Code(',')]] + ts);
    TokenInFront(v, [Code(' ')] + ([Code(',')] + t), [[Code(',')]] + ts);
    TokenInFront([Code('[')], v + ([Code(' ')] + ([Code(',')] + t)), [v] + ([[Code(',')]] + ts));
  }

  /** One member with a number, and a blank behind the colon */
  lemma SmallObject(k: Text, v: Text)
    requires CleanKey(k) && NumberText(Int, v)
    ensures var q := [Code('"')] + k + [Code('"')];
      Load([Code('{')] + (q + ([Code(':')] + ([Code(' ')] + (v + [Code('}')]))))) ==
        Some(Node(Object, None, None, [Node(Int, Some(k), Some(v), [])]))
  {
    var q, n := [Code('"')] + k + [Code('"')], Node(Object, None, None, [Node(Int, Some(k), Some(v), [])]);
    EscapeOfKey(k);
    assert QUOTE !in k && Quoted(Some(k)) == q;
    ObjectTokens(k, v, n);
    SpacedObject(q, v);
    SpacedExactly(n, [Code('{')] + (q + ([Code(':')] + ([Code(' ')] + (v + [Code('}')])))));
  }

  /** Two elements, and a blank on either side of the comma */
  lemma SmallArray(v: Text, w: Text)
    requires NumberText(Int, v) && NumberText(Double, w)
    ensures Load([Code('[')] + (v + ([Code(' ')] + ([Code(',')] + ([Code(' ')] + (w + [Code(']')])))))) ==
      Some(Node(Array, None, None,
        [Node(Int, Some([Code('0')]), Some(v), []), Node(Double, Some([Code('1')]), Some(w), [])]))
  {
    var c, d := Node(Int, Some([Code('0')]), Some(v), []), Node(Double, Some([Code('1')]), Some(w), []);
    assert Decimal(0) == [Code('0')] && Decimal(1) == [Code('1')];
    ArrayTokens(v, w, c, d);
    SpacedArray(v, w);
    SpacedExactly(Node(Array, None, None, [c, d]),
      [Code('[')] + (v + ([Code(' ')] + ([Code(',')] + ([Code(' ')] + (w + [Code(']')]))))));
  }
}
