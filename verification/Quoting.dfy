/** Quoted arguments (src/core/sis_sds.c): writing any bytes as a quoted string, and splitting a line into
    arguments. A line is a C string, so it holds no NUL byte. */
module Quoting {
  import opened Memory
  import opened Options
  import opened Sequences

  const BELL: Byte := 7
  const BACKSPACE: Byte := 8
  const TAB: Byte := 9
  const NEWLINE: Byte := 10
  const RETURN: Byte := 13
  const SPACE: Byte := 32
  const QUOTE: Byte := 34
  const APOSTROPHE: Byte := 39
  const LETTER_A: Byte := 97
  const LETTER_B: Byte := 98
  const LETTER_N: Byte := 110
  const LETTER_R: Byte := 114
  const LETTER_T: Byte := 116
  const LETTER_X: Byte := 120
  const BACKSLASH: Byte := 92

  predicate IsSpace(b: Byte) { b == SPACE || 9 <= b <= 13 }
  predicate IsPrint(b: Byte) { 32 <= b <= 126 }
  predicate IsHexDigit(b: Byte) { 48 <= b <= 57 || 97 <= b <= 102 || 65 <= b <= 70 }

  function HexDigitToInt(b: Byte): (r: nat)
    ensures r < 16
  {
    if 48 <= b <= 57 then b - 48 else if 97 <= b <= 102 then b - 87 else if 65 <= b <= 70 then b - 55 else 0
  }

  // %x of a number below 16
  function HexDigit(n: nat): Byte
    requires n < 16
  {
    if n < 10 then 48 + n else 87 + n
  }

  // ---------------------------------------------------------------------------
  // Writing

  function ReprByte(b: Byte): seq<Byte> {
    if b == BACKSLASH || b == QUOTE then [BACKSLASH, b]
    else if b == NEWLINE then [BACKSLASH, LETTER_N]
    else if b == RETURN then [BACKSLASH, LETTER_R]
    else if b == TAB then [BACKSLASH, LETTER_T]
    else if b == BELL then [BACKSLASH, LETTER_A]
    else if b == BACKSPACE then [BACKSLASH, LETTER_B]
    else if IsPrint(b) then [b]
    else [BACKSLASH, LETTER_X, HexDigit(b / 16), HexDigit(b % 16)]
  }

  function ReprBody(s: seq<Byte>): seq<Byte> {
    if s == [] then [] else ReprByte(s[0]) + ReprBody(s[1..])
  }

  function Repr(s: seq<Byte>): seq<Byte> {
    [QUOTE] + ReprBody(s) + [QUOTE]
  }

  /** sdscatrepr */
  method CatRepr(s0: seq<Byte>, p: seq<Byte>) returns (s: seq<Byte>)
    ensures s == s0 + Repr(p)
  {
    s := s0 + [QUOTE];
    var i := 0;
    while i < |p|
      invariant 0 <= i <= |p| && s == s0 + [QUOTE] + ReprBody(p[..i])
    {
      ReprBodyPush(p[..i], p[i]);
      assert p[..i + 1] == p[..i] + [p[i]];
      Assoc(s0 + [QUOTE], ReprBody(p[..i]), ReprByte(p[i]));
      s := s + ReprByte(p[i]);
      i := i + 1;
    }
    assert p[..i] == p;
    s := s + [QUOTE];
    assert s0 + [QUOTE] + ReprBody(p) + [QUOTE] == s0 + ([QUOTE] + ReprBody(p) + [QUOTE]);
  }

  lemma {:induction false} ReprBodyPush(s: seq<Byte>, b: Byte)
    ensures ReprBody(s + [b]) == ReprBody(s) + ReprByte(b)
  {
    if s == [] {
      EmptyLeft([b]);
      EmptyLeft(ReprByte(b));
      assert [b][1..] == [];
      EmptyRight(ReprByte(b));
    } else {
      TailOfConcat(s, [b]);
      ReprBodyPush(s[1..], b);
      Assoc(ReprByte(s[0]), ReprBody(s[1..]), ReprByte(b));
    }
  }

  // ---------------------------------------------------------------------------
  // Splitting

  datatype Mode = Plain | InQuotes | InSingle

  // What the C code sees i bytes on: the bytes of the line, then NUL.
  function At(rest: seq<Byte>, i: nat): Byte {
    if i < |rest| then rest[i] else 0
  }

  function Unescaped(b: Byte): Byte {
    if b == LETTER_N then NEWLINE
    else if b == LETTER_R then RETURN
    else if b == LETTER_T then TAB
    else if b == LETTER_B then BACKSPACE
    else if b == LETTER_A then BELL
    else b
  }

  // A closing quote must be followed by a space or nothing at all.
  predicate MayClose(rest: seq<Byte>) { At(rest, 1) == 0 || IsSpace(At(rest, 1)) }

  predicate IsHexEscape(rest: seq<Byte>) {
    At(rest, 0) == BACKSLASH && At(rest, 1) == LETTER_X && IsHexDigit(At(rest, 2)) && IsHexDigit(At(rest, 3))
  }

  // The token that goes on with rest, and what comes after it; None for unbalanced quotes.
  function Token(rest: seq<Byte>, mode: Mode, current: seq<Byte>): (r: Option<(seq<Byte>, seq<Byte>)>)
    ensures r.Some? ==> |r.value.1| <= |rest|
    decreases |rest|
  {
    if rest == [] then if mode == Plain then Some((current, rest)) else None else
      var b := rest[0];
      match mode
      case InQuotes =>
        if IsHexEscape(rest) then
          Token(rest[4..], mode, current + [HexDigitToInt(rest[2]) * 16 + HexDigitToInt(rest[3])])
        else if b == BACKSLASH && At(rest, 1) != 0 then Token(rest[2..], mode, current + [Unescaped(rest[1])])
        else if b == QUOTE then if MayClose(rest) then Some((current, rest[1..])) else None
        else Token(rest[1..], mode, current + [b])
      case InSingle =>
        if b == BACKSLASH && At(rest, 1) == APOSTROPHE then Token(rest[2..], mode, current + [APOSTROPHE])
        else if b == APOSTROPHE then if MayClose(rest) then Some((current, rest[1..])) else None
        else Token(rest[1..], mode, current + [b])
      case Plain =>
        if b == SPACE || b == NEWLINE || b == RETURN || b == TAB then Some((current, rest[1..]))
        else if b == QUOTE then Token(rest[1..], InQuotes, current)
        else if b == APOSTROPHE then Token(rest[1..], InSingle, current)
        else Token(rest[1..], mode, current + [b])
  }

  function SkipBlanks(rest: seq<Byte>): (r: seq<Byte>)
    ensures |r| <= |rest| && (r != [] ==> !IsSpace(r[0]))
    decreases |rest|
  {
    if rest != [] && IsSpace(rest[0]) then SkipBlanks(rest[1..]) else rest
  }

  lemma {:induction false} TokenTakes(rest: seq<Byte>, mode: Mode, current: seq<Byte>)
    requires rest != []
    ensures Token(rest, mode, current).Some? ==> |Token(rest, mode, current).value.1| < |rest|
    decreases |rest|
  {}

  /** The arguments of a line, or None. */
  function Split(line: seq<Byte>, args: seq<seq<Byte>>): Option<seq<seq<Byte>>>
    decreases |line|
  {
    var rest := SkipBlanks(line);
    if rest == [] then Some(args) else
      match Token(rest, Plain, [])
      case None => None
      case Some(t) =>
        TokenTakes(rest, Plain, []);
        Split(t.1, args + [t.0])
  }

  ghost predicate TokenComes(line: seq<Byte>, p: nat, mode: Mode, current: seq<Byte>,
      outcome: Option<(seq<Byte>, seq<Byte>)>)
  {
    p <= |line| && Token(line[p..], mode, current) == outcome
  }

  lemma AtIs(line: seq<Byte>, p: nat, i: nat)
    requires p <= |line|
    ensures At(line[p..], i) == At(line, p + i)
  {}

  // p moves on by k bytes.
  lemma Drops(line: seq<Byte>, p: nat, k: nat)
    requires p + k <= |line|
    ensures line[p..][k..] == line[p + k..]
  {}

  // One round of the token loop.
  method TokenStep(line: seq<Byte>, p0: nat, inq0: bool, insq0: bool, current0: seq<Byte>,
      ghost outcome: Option<(seq<Byte>, seq<Byte>)>)
    returns (p: nat, inq: bool, insq: bool, current: seq<Byte>, done: bool, err: bool)
    requires forall b :: b in line ==> b != 0
    requires TokenComes(line, p0, ModeOf(inq0, insq0), current0, outcome) && !(inq0 && insq0)
    ensures !(inq && insq)
    ensures err ==> outcome == None
    ensures !err && done ==> p <= |line| && outcome == Some((current, line[p..]))
    ensures !err && !done ==> p > p0 && TokenComes(line, p, ModeOf(inq, insq), current, outcome)
  {
    p, inq, insq, current, done, err := p0, inq0, insq0, current0, false, false;
    AtIs(line, p, 0);
    AtIs(line, p, 1);
    AtIs(line, p, 2);
    AtIs(line, p, 3);
    ghost var rest := line[p..];
    assert p < |line| ==> rest[0] == line[p] && line[p] in line;
    if inq {
      if At(line, p) == BACKSLASH && At(line, p + 1) == LETTER_X && IsHexDigit(At(line, p + 2)) &&
        IsHexDigit(At(line, p + 3)) {
        current := current + [HexDigitToInt(At(line, p + 2)) * 16 + HexDigitToInt(At(line, p + 3))];
        Drops(line, p, 4);
        p := p + 3;
      } else if At(line, p) == BACKSLASH && At(line, p + 1) != 0 {
        Drops(line, p, 2);
        p := p + 1;
        current := current + [Unescaped(At(line, p))];
      } else if At(line, p) == QUOTE {
        if At(line, p + 1) != 0 && !IsSpace(At(line, p + 1)) {
          err := true;
          return;
        }
        Drops(line, p, 1);
        done := true;
      } else if At(line, p) == 0 {
        err := true;
        return;
      } else {
        Drops(line, p, 1);
        current := current + [At(line, p)];
      }
    } else if insq {
      if At(line, p) == BACKSLASH && At(line, p + 1) == APOSTROPHE {
        Drops(line, p, 2);
        p := p + 1;
        current := current + [APOSTROPHE];
      } else if At(line, p) == APOSTROPHE {
        if At(line, p + 1) != 0 && !IsSpace(At(line, p + 1)) {
          err := true;
          return;
        }
        Drops(line, p, 1);
        done := true;
      } else if At(line, p) == 0 {
        err := true;
        return;
      } else {
        Drops(line, p, 1);
        current := current + [At(line, p)];
      }
    } else {
      if p < |line| {
        Drops(line, p, 1);
      }
      var c := At(line, p);
      if c == SPACE || c == NEWLINE || c == RETURN || c == TAB || c == 0 {
        done := true;
      } else if c == QUOTE {
        inq := true;
      } else if c == APOSTROPHE {
        insq := true;
      } else {
        current := current + [c];
      }
    }
    if At(line, p) != 0 {
      p := p + 1;
    }
  }

  function ModeOf(inq: bool, insq: bool): Mode {
    if inq then InQuotes else if insq then InSingle else Plain
  }

  method ReadToken(line: seq<Byte>, p0: nat) returns (p: nat, current: seq<Byte>, err: bool)
    requires p0 <= |line| && forall b :: b in line ==> b != 0
    ensures if err then Token(line[p0..], Plain, []) == None
            else p <= |line| && Token(line[p0..], Plain, []) == Some((current, line[p..]))
  {
    var inq, insq, done := false, false, false;
    p, current, err := p0, [], false;
    ghost var outcome := Token(line[p0..], Plain, []);
    while !done
      invariant p <= |line| && !(inq && insq)
      invariant if done then outcome == Some((current, line[p..]))
        else TokenComes(line, p, ModeOf(inq, insq), current, outcome)
      decreases !done, |line| - p
    {
      p, inq, insq, current, done, err := TokenStep(line, p, inq, insq, current, outcome);
      if err {
        return;
      }
    }
  }

  ghost predicate SplitComes(line: seq<Byte>, p: nat, args: seq<seq<Byte>>, outcome: Option<seq<seq<Byte>>>) {
    p <= |line| && Split(line[p..], args) == outcome
  }

  lemma SplitStep(line: seq<Byte>, p: nat, args: seq<seq<Byte>>, outcome: Option<seq<seq<Byte>>>)
    requires SplitComes(line, p, args, outcome)
    ensures p < |line| && IsSpace(line[p]) ==> SplitComes(line, p + 1, args, outcome)
    ensures p == |line| ==> outcome == Some(args)
    ensures p < |line| && !IsSpace(line[p]) ==>
      match Token(line[p..], Plain, [])
      case None => outcome == None
      case Some(t) => |t.1| < |line| - p && Split(t.1, args + [t.0]) == outcome
  {
    if p < |line| {
      Drops(line, p, 1);
      if !IsSpace(line[p]) {
        TokenTakes(line[p..], Plain, []);
      }
    }
  }

  /** sdssplitargs */
  method SplitArgs(line: seq<Byte>) returns (r: Option<seq<seq<Byte>>>)
    requires forall b :: b in line ==> b != 0
    ensures r == Split(line, [])
  {
    var p: nat, vector := 0, [];
    ghost var outcome := Split(line, []);
    assert line[0..] == line;
    while true
      invariant SplitComes(line, p, vector, outcome)
      decreases |line| - p
    {
      while p < |line| && IsSpace(line[p])
        invariant SplitComes(line, p, vector, outcome)
        decreases |line| - p
      {
        SplitStep(line, p, vector, outcome);
        p := p + 1;
      }
      SplitStep(line, p, vector, outcome);
      if p == |line| {
        return Some(vector);
      }
      var current, err;
      p, current, err := ReadToken(line, p);
      if err {
        return None;
      }
      vector := vector + [current];
    }
  }

  // ---------------------------------------------------------------------------
  // Round trip

  lemma HexRoundTrip(b: Byte)
    ensures HexDigitToInt(HexDigit(b / 16)) * 16 + HexDigitToInt(HexDigit(b % 16)) == b
    ensures IsHexDigit(HexDigit(b / 16)) && IsHexDigit(HexDigit(b % 16))
  {}

  // Reading the form of one byte gives the byte.
  lemma ReadByte(b: Byte, more: seq<Byte>, current: seq<Byte>)
    ensures Token(ReprByte(b) + more, InQuotes, current) == Token(more, InQuotes, current + [b])
  {
    var rest := ReprByte(b) + more;
    HexRoundTrip(b);
    assert rest[|ReprByte(b)|..] == more;
  }

  /** Inside quotes, the form of a byte string and a closing quote give the string back. */
  lemma {:induction false} ReadBody(s: seq<Byte>, after: seq<Byte>, current: seq<Byte>)
    requires after == [] || IsSpace(after[0])
    ensures Token(ReprBody(s) + ([QUOTE] + after), InQuotes, current) == Some((current + s, after))
    decreases |s|
  {
    if s == [] {
      EmptyLeft([QUOTE] + after);
      EmptyRight(current);
      assert ([QUOTE] + after)[1..] == after;
    } else {
      var more := ReprBody(s[1..]) + ([QUOTE] + after);
      Assoc(ReprByte(s[0]), ReprBody(s[1..]), [QUOTE] + after);
      ReadByte(s[0], more, current);
      ReadBody(s[1..], after, current + [s[0]]);
      assert current + [s[0]] + s[1..] == current + s;
    }
  }

  function JoinReprs(args: seq<seq<Byte>>): seq<Byte> {
    if args == [] then [] else if |args| == 1 then Repr(args[0]) else Repr(args[0]) + ([SPACE] + JoinReprs(args[1..]))
  }

  lemma ReadRepr(s: seq<Byte>, after: seq<Byte>)
    requires after == [] || IsSpace(after[0])
    ensures Token(Repr(s) + after, Plain, []) == Some((s, after)) && SkipBlanks(Repr(s) + after) == Repr(s) + after
  {
    var rest := Repr(s) + after;
    assert rest[0] == QUOTE && rest[1..] == ReprBody(s) + ([QUOTE] + after);
    ReadBody(s, after, []);
    EmptyLeft(s);
  }

  /** Whatever the byte strings, with NULs, quotes, backslashes or nothing in them: their quoted forms
      with spaces between split into exactly these strings. */
  lemma {:induction false} SplitOfReprs(args: seq<seq<Byte>>, before: seq<seq<Byte>>)
    ensures Split(JoinReprs(args), before) == Some(before + args)
    decreases |args|
  {
    if args == [] {
      EmptyRight(before);
    } else {
      var rest := JoinReprs(args[1..]);
      SplitOfReprs(args[1..], before + [args[0]]);
      if |args| == 1 {
        EmptyRight(Repr(args[0]));
        SplitFirst(args[0], [], before);
      } else {
        SplitFirst(args[0], [SPACE] + rest, before);
        SpaceFirst(rest, before + [args[0]]);
      }
      assert before + [args[0]] + args[1..] == before + args;
    }
  }

  lemma SplitFirst(s: seq<Byte>, after: seq<Byte>, before: seq<seq<Byte>>)
    requires after == [] || IsSpace(after[0])
    ensures Split(Repr(s) + after, before) == Split(after, before + [s])
  {
    ReadRepr(s, after);
  }

  lemma SpaceFirst(line: seq<Byte>, args: seq<seq<Byte>>)
    ensures Split([SPACE] + line, args) == Split(line, args)
  {
    assert ([SPACE] + line)[1..] == line;
  }

  /** No quoted form holds a NUL, so a line of them is a C string. */
  lemma {:induction false} ReprsHaveNoNul(args: seq<seq<Byte>>)
    ensures forall b :: b in JoinReprs(args) ==> b != 0
    decreases |args|
  {
    if args != [] {
      BodyHasNoNul(args[0]);
      ReprsHaveNoNul(args[1..]);
    }
  }

  lemma {:induction false} BodyHasNoNul(s: seq<Byte>)
    ensures forall b :: b in ReprBody(s) ==> b != 0
  {
    if s != [] {
      BodyHasNoNul(s[1..]);
    }
  }

  /** Both together: written one after the other into a line, the arguments are read back. */
  method QuoteAndSplit(args: seq<seq<Byte>>) returns (line: seq<Byte>, r: Option<seq<seq<Byte>>>)
    ensures line == JoinReprs(args) && r == Some(args)
  {
    line := [];
    var i := |args|;
    while i > 0
      invariant 0 <= i <= |args| && line == JoinReprs(args[i..])
    {
      i := i - 1;
      var quoted := CatRepr([], args[i]);
      EmptyLeft(Repr(args[i]));
      assert args[i..][1..] == args[i + 1..];
      line := if i + 1 == |args| then quoted else quoted + ([SPACE] + line);
    }
    assert args[0..] == args;
    ReprsHaveNoNul(args);
    SplitOfReprs(args, []);
    EmptyLeft(args);
    r := SplitArgs(line);
  }
}
