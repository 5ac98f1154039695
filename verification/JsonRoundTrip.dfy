/** When the parts of printed JSON read back as they were: exactly which strings, keys and numbers do, whatever
    stands around them. */
module JsonRoundTrip {
  import opened Memory
  import opened Options
  import opened Sequences
  import opened Json

  predicate CleanByte(b: Byte) { b >= SPACE && b != BACKSLASH }

  // No backslash and no control byte
  predicate CleanString(s: Text) { forall i :: 0 <= i < |s| ==> CleanByte(s[i]) }

  predicate CleanKey(s: Text) {
    s != [] && CleanString(s) && forall i :: 0 <= i < |s| ==> s[i] != QUOTE
  }

  // Text that reads as a number of the kind
  predicate NumberText(kind: Kind, v: Text) {
    && v != [] && (v[0] == MINUS || IsDigit(v[0]))
    && (forall i :: 0 <= i < |v| ==> IsNumberByte(v[i]))
    && kind == NumberKind(v)
  }

  // What may come after a value
  predicate Ends(t: Text) {
    Head(t) == 0 || Head(t) == COMMA || Head(t) == CLOSE_ARRAY || Head(t) == CLOSE_OBJECT
  }

  // ---------------------------------------------------------------------------
  // Strings

  // No quote that a backslash does not stand before, and no NUL
  predicate Hidden(x: Text, before: Byte) {
    forall i :: 0 <= i < |x| ==> x[i] != 0 && (x[i] == QUOTE ==> Before(x, i, before) == BACKSLASH)
  }

  function Before(x: Text, i: nat, before: Byte): Byte
    requires i <= |x|
  {
    if i == 0 then before else x[i - 1]
  }

  function Last(x: Text, before: Byte): Byte {
    if x == [] then before else x[|x| - 1]
  }

  function Further(r: Option<nat>, n: nat): Option<nat> {
    match r
    case None => None
    case Some(k) => Some(k + n)
  }

  // The search for the closing quote goes over hidden bytes.
  lemma {:induction false} GoesOver(x: Text, y: Text, before: Byte)
    requires Hidden(x, before)
    ensures StringEnd(x + y, before) == Further(StringEnd(y, Last(x, before)), |x|)
    decreases |x|
  {
    if x == [] {
      EmptyLeft(y);
    } else {
      TailOfConcat(x, y);
      var t, u := x + y, x[1..];
      GoesOver(u, y, x[0]);
      assert Last(u, x[0]) == Last(x, before);
      assert Head(t) != 0 && t[0] == x[0] && !(t[0] == QUOTE && before != BACKSLASH);
      assert StringEnd(t, before) == Further(StringEnd(t[1..], t[0]), 1);
    }
  }

  lemma EscapeByteHidden(b: Byte, before: Byte)
    ensures Hidden(EscapeByte(b), before) && EscapeByte(b) != []
    ensures CleanByte(b) ==> Last(EscapeByte(b), before) != BACKSLASH
  {}

  lemma HiddenJoin(x: Text, y: Text, before: Byte)
    requires Hidden(x, before) && Hidden(y, Last(x, before))
    ensures Hidden(x + y, before) && Last(x + y, before) == Last(y, Last(x, before))
  {
    forall i | 0 <= i < |x + y| ensures (x + y)[i] != 0 &&
      ((x + y)[i] == QUOTE ==> Before(x + y, i, before) == BACKSLASH) {
      if i >= |x| {
        assert (x + y)[i] == y[i - |x|];
        assert i > 0 ==> (x + y)[i - 1] == if i == |x| then Last(x, before) else y[i - |x| - 1];
      }
    }
  }

  lemma {:induction false} EscapeHidden(s: Text, before: Byte)
    ensures Hidden(Escape(s), before)
    ensures CleanString(s) && before != BACKSLASH ==> Last(Escape(s), before) != BACKSLASH
    decreases |s|
  {
    if s != [] {
      EscapeByteHidden(s[0], before);
      EscapeHidden(s[1..], Last(EscapeByte(s[0]), before));
      HiddenJoin(EscapeByte(s[0]), Escape(s[1..]), before);
    }
  }

  // One escaped byte undone. A backslash or a control byte comes out longer than it went in.
  lemma UnescapeByte(b: Byte, w: Text)
    requires w == [] || w[0] != QUOTE
    ensures CleanByte(b) ==> Unescape(EscapeByte(b) + w) == [b] + Unescape(w)
    ensures !CleanByte(b) ==> |Unescape(EscapeByte(b) + w)| > 1 + |Unescape(w)|
  {
    var x := EscapeByte(b);
    if |x| == 1 {
      assert (x + w)[1..] == w;
    } else if |x| == 2 {
      assert (x + w)[2..] == w && (x + w)[1..] == [x[1]] + w;
      assert ([x[1]] + w)[1..] == w;
    } else {
      CopiesPlain(x, w, 0);
    }
  }

  // Bytes that are no backslash are copied.
  lemma {:induction false} CopiesPlain(x: Text, w: Text, i: nat)
    requires i <= |x| && (forall j :: 0 <= j < |x| ==> x[j] != QUOTE && (j > 0 ==> x[j] != BACKSLASH))
    requires |x| > 1
    ensures |Unescape(x[i..] + w)| == |x| - i + |Unescape(w)|
    decreases |x| - i
  {
    if i == |x| {
      EmptyLeft(w);
    } else {
      TailOfConcat(x[i..], w);
      assert x[i..][1..] == x[i + 1..];
      CopiesPlain(x, w, i + 1);
    }
  }

  lemma EscapeStarts(s: Text)
    ensures Escape(s) != [] ==> Escape(s)[0] != QUOTE
    ensures s != [] ==> Escape(s) != []
  {}

  lemma {:induction false} UnescapeOfEscape(s: Text)
    requires CleanString(s)
    ensures Unescape(Escape(s)) == s
    decreases |s|
  {
    if s != [] {
      EscapeStarts(s[1..]);
      UnescapeByte(s[0], Escape(s[1..]));
      UnescapeOfEscape(s[1..]);
    }
  }

  // What a string with a backslash or a control byte reads back as is longer than the string.
  lemma {:induction false} UnescapeLonger(s: Text, z: Text)
    ensures |Unescape(Escape(s) + z)| >= |s|
    ensures !CleanString(s) ==> |Unescape(Escape(s) + z)| > |s|
    decreases |s|
  {
    if s != [] {
      var x, w := EscapeByte(s[0]), Escape(s[1..]) + z;
      Assoc(x, Escape(s[1..]), z);
      UnescapeLonger(s[1..], z);
      assert CleanByte(s[0]) && CleanString(s[1..]) ==> CleanString(s);
      if w == [] || w[0] != QUOTE {
        UnescapeByte(s[0], w);
      } else {
        EscapeStarts(s[1..]);
        assert s[1..] == [];
        TailOfConcat(x, w);
        LastByteLonger(s[0], w);
      }
    }
  }

  lemma LastByteLonger(b: Byte, w: Text)
    requires w != [] && w[0] == QUOTE
    ensures |Unescape(EscapeByte(b) + w)| >= 1 && (!CleanByte(b) ==> |Unescape(EscapeByte(b) + w)| >= 2)
  {
    var x := EscapeByte(b);
    if |x| == 2 {
      assert (x + w)[1..] == [x[1]] + w;
    }
  }

  // Where the scan of a quoted string stops: at its own closing quote if it is clean, and never before that.
  lemma QuotedEnd(s: Text, more: Text)
    ensures var u, len := Escape(s) + ([QUOTE] + more), StringEnd(Escape(s) + ([QUOTE] + more), QUOTE);
      && (len.Some? ==>
          && len.value >= |Escape(s)|
          && u[..len.value] == Escape(s) + ([QUOTE] + more)[..len.value - |Escape(s)|])
      && (CleanString(s) ==> len == Some(|Escape(s)|) && u[..len.value] == Escape(s) && u[len.value + 1..] == more)
  {
    var q := [QUOTE] + more;
    EscapeHidden(s, QUOTE);
    GoesOver(Escape(s), q, QUOTE);
    assert CleanString(s) ==> StringEnd(q, Last(Escape(s), QUOTE)) == Some(0);
    assert (Escape(s) + q)[..|Escape(s)|] == Escape(s) && (Escape(s) + q)[|Escape(s)| + 1..] == more;
  }

  lemma QuotedTail(s: Text, more: Text)
    ensures Quoted(Some(s)) + more == [QUOTE] + (Escape(s) + ([QUOTE] + more))
    ensures Head(Quoted(Some(s)) + more) == QUOTE && (Quoted(Some(s)) + more)[1..] == Escape(s) + ([QUOTE] + more)
  {}

  /** Whatever comes behind it, a printed string value reads back as itself, to its end, if and only if there is
      no backslash and no control byte in it. Quotes do no harm. */
  lemma StringReadBack(m: Node, s: Text, more: Text, e: Option<Text>)
    requires m.key.Some?
    ensures ParseValue(m, Quoted(Some(s)) + more, e) == Parse(m.(value := Some(s), kind := String), Some(more), e) <==>
      CleanString(s)
  {
    var u := Escape(s) + ([QUOTE] + more);
    QuotedTail(s, more);
    QuotedEnd(s, more);
    var len := StringEnd(u, QUOTE);
    if CleanString(s) {
      UnescapeOfEscape(s);
    } else if len.Some? {
      UnescapeLonger(s, ([QUOTE] + more)[..len.value - |Escape(s)|]);
    }
  }

  lemma {:induction false} EscapeOfKey(k: Text)
    ensures |Escape(k)| >= |k|
    ensures CleanString(k) && QUOTE !in k ==> Escape(k) == k
    ensures !(CleanString(k) && QUOTE !in k) ==> |Escape(k)| > |k|
    decreases |k|
  {
    if k != [] {
      EscapeOfKey(k[1..]);
      assert k == [k[0]] + k[1..];
      assert CleanByte(k[0]) && CleanString(k[1..]) ==> CleanString(k);
    }
  }

  // A key stays as it is once there.
  lemma KeyKept(n: Node, t: Text, e: Option<Text>)
    requires n.key.Some?
    ensures ParseValue(n, t, e).node.key == n.key
  {}

  lemma MemberKey(n: Node, start: Text, rest: Text, e: Option<Text>)
    requires n.key.Some?
    ensures ParseMember(n, start, rest, e).node.key == n.key
  {
    var at := ToColon(rest);
    if Head(at) == COLON {
      KeyKept(n, Skip(at[1..]), e);
    }
  }

  lemma KeyTaken(m: Node, t: Text, e: Option<Text>)
    requires m.key.None? && Head(t) == QUOTE
    ensures match StringEnd(t[1..], QUOTE)
      case None => ParseValue(m, t, e).node == m && ParseValue(m, t, e).next == None
      case Some(len) => ParseValue(m, t, e).node.key == Some(Dup(t[1..], len))
  {
    match StringEnd(t[1..], QUOTE)
    case None =>
    case Some(len) => MemberKey(m.(key := Some(Dup(t[1..], len))), t, t[1..][len + 1..], e);
  }

  /** A printed key reads back as itself if and only if it is not empty and has no backslash, control byte or
      quote in it. */
  lemma KeyReadBack(m: Node, k: Text, more: Text, e: Option<Text>)
    requires m.key.None?
    ensures ParseValue(m, Quoted(Some(k)) + more, e).node.key == Some(k) <==> CleanKey(k)
  {
    var t, u := Quoted(Some(k)) + more, Escape(k) + ([QUOTE] + more);
    QuotedTail(k, more);
    QuotedEnd(k, more);
    EscapeOfKey(k);
    KeyTaken(m, t, e);
    var len := StringEnd(u, QUOTE);
    assert CleanKey(k) <==> k != [] && CleanString(k) && QUOTE !in k;
    if k == [] {
      EmptyLeft([QUOTE] + more);
      assert len == Some(0) && ToNul(u) != [];
    }
  }

  // ---------------------------------------------------------------------------
  // Numbers

  lemma {:induction false} NumberRun(v: Text, more: Text)
    requires forall i :: 0 <= i < |v| ==> IsNumberByte(v[i])
    requires Head(more) == 0 || !IsNumberByte(Head(more))
    ensures NumberEnd(v + more) == |v|
    decreases |v|
  {
    if v == [] {
      EmptyLeft(more);
    } else {
      TailOfConcat(v, more);
      NumberRun(v[1..], more);
    }
  }

  lemma {:induction false} NumberStops(t: Text)
    ensures forall i :: 0 <= i < NumberEnd(t) ==> IsNumberByte(t[i])
    decreases |t|
  {
    if Head(t) != 0 && IsNumberByte(t[0]) {
      NumberStops(t[1..]);
    }
  }

  /** In front of anything that may follow a value, a number's text reads back as itself with its kind if and
      only if it begins with a digit or a minus sign, is made of digits, minus signs and points, and has a
      point before a digit exactly when it is a double. */
  lemma NumberReadBack(m: Node, kind: Kind, v: Text, more: Text, e: Option<Text>)
    requires (kind == Int || kind == Double) && Ends(more)
    ensures ParseValue(m, v + more, e) == Parse(m.(value := Some(v), kind := kind), Some(more), e) <==>
      NumberText(kind, v)
  {
    var t := v + more;
    assert v != [] ==> Head(t) == v[0];
    if v == [] {
      EmptyLeft(more);
    } else if v[0] == MINUS || IsDigit(v[0]) {
      NumberStops(t);
      if forall i :: 0 <= i < |v| ==> IsNumberByte(v[i]) {
        NumberRun(v, more);
        assert t[..|v|] == v && t[|v|..] == more;
      } else {
        var i :| 0 <= i < |v| && !IsNumberByte(v[i]);
        assert t[i] == v[i];
        assert NumberEnd(t) <= i && |t[NumberEnd(t)..]| > |more|;
      }
    } else {
      NoNumber(m, t, e, v, kind, more);
    }
  }

  lemma NoNumber(m: Node, t: Text, e: Option<Text>, v: Text, kind: Kind, more: Text)
    requires (kind == Int || kind == Double) && Head(t) != MINUS && !IsDigit(Head(t))
    ensures ParseValue(m, t, e) != Parse(m.(value := Some(v), kind := kind), Some(more), e)
  {
    if Head(t) == QUOTE && m.key.None? {
      KeyTaken(m, t, e);
    }
  }
}
