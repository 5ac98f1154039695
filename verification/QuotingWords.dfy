/** What lines of plain, single-quoted and double-quoted words split into, and what the quoted form of a byte is. */
module QuotingWords {
  import opened Memory
  import opened Options
  import opened Quoting
  import opened Sequences

  // A word of a line and how it is written
  datatype Word = Bare(bytes: seq<Byte>) | Single(bytes: seq<Byte>) | Double(bytes: seq<Byte>)

  predicate IsBlank(b: Byte) { b == Code(' ') || 0x09 <= b <= 0x0D }

  // The bytes that end a word without quotes
  predicate Ends(b: Byte) { b == Code(' ') || b == Code('\t') || b == Code('\n') || b == Code('\r') }

  predicate BareByte(b: Byte) { b != 0 && !Ends(b) && b != Code('"') && b != Code('\'') }

  // Which words can be written so: any bytes in double quotes; no NUL and no backslash last in single quotes; without
  // quotes no blank either, and not nothing.
  predicate Writable(w: Word) {
    match w
    case Bare(s) => s != [] && !IsBlank(s[0]) && forall i :: 0 <= i < |s| ==> BareByte(s[i])
    case Single(s) => (forall i :: 0 <= i < |s| ==> s[i] != 0) && (s != [] ==> s[|s| - 1] != Code('\\'))
    case Double(_) => true
  }

  // In single quotes only the apostrophe is escaped.
  function Apostrophes(s: seq<Byte>): seq<Byte> {
    if s == [] then [] else (if s[0] == Code('\'') then [Code('\\'), Code('\'')] else [s[0]]) + Apostrophes(s[1..])
  }

  function Spelt(w: Word): seq<Byte> {
    match w
    case Bare(s) => s
    case Single(s) => [Code('\'')] + Apostrophes(s) + [Code('\'')]
    case Double(s) => Repr(s)
  }

  /** A line: the words in order, with blanks before, between and behind them. The first blank behind a word without
      quotes is one of the four that end it. */
  predicate IsLine(line: seq<Byte>, ws: seq<Word>)
    decreases |line|
  {
    if line != [] && IsBlank(line[0]) then IsLine(line[1..], ws)
    else if ws == [] then line == []
    else
      var x := Spelt(ws[0]);
      Writable(ws[0]) && x != [] && x <= line && Parted(ws[0], line[|x|..]) && IsLine(line[|x|..], ws[1..])
  }

  predicate Parted(w: Word, after: seq<Byte>) {
    after == [] || if w.Bare? then Ends(after[0]) else IsBlank(after[0])
  }

  function Contents(ws: seq<Word>): (r: seq<seq<Byte>>)
    ensures |r| == |ws| && forall i :: 0 <= i < |ws| ==> r[i] == ws[i].bytes
  {
    seq(|ws|, i requires 0 <= i < |ws| => ws[i].bytes)
  }

  lemma {:induction false} ReadBare(s: seq<Byte>, after: seq<Byte>, current: seq<Byte>)
    requires (forall i :: 0 <= i < |s| ==> BareByte(s[i])) && (after == [] || Ends(after[0]))
    ensures Token(s + after, Plain, current) == Some((current + s, if after == [] then [] else after[1..]))
    decreases |s|
  {
    if s == [] {
      EmptyLeft(after);
      EmptyRight(current);
    } else {
      TailOfConcat(s, after);
      ReadBare(s[1..], after, current + [s[0]]);
      assert current + [s[0]] + s[1..] == current + s;
    }
  }

  lemma {:induction false} ReadSingle(s: seq<Byte>, after: seq<Byte>, current: seq<Byte>)
    requires Writable(Single(s)) && (after == [] || IsSpace(after[0]))
    ensures Token(Apostrophes(s) + ([APOSTROPHE] + after), InSingle, current) == Some((current + s, after))
    decreases |s|
  {
    var close := [APOSTROPHE] + after;
    if s == [] {
      EmptyLeft(close);
      EmptyRight(current);
      assert close[1..] == after;
    } else {
      var more := Apostrophes(s[1..]) + close;
      var x := if s[0] == APOSTROPHE then [BACKSLASH, APOSTROPHE] else [s[0]];
      Assoc(x, Apostrophes(s[1..]), close);
      ReadSingle(s[1..], after, current + [s[0]]);
      assert (x + more)[|x|..] == more;
      if s[0] == BACKSLASH {
        NotEscaping(s, close);
      }
      assert current + [s[0]] + s[1..] == current + s;
    }
  }

  // A backslash of the word has no apostrophe right behind it.
  lemma NotEscaping(s: seq<Byte>, close: seq<Byte>)
    requires Writable(Single(s)) && s != [] && s[0] == BACKSLASH
    ensures At([s[0]] + (Apostrophes(s[1..]) + close), 1) != APOSTROPHE
  {
    assert s[1..] != [];
  }

  lemma ReadWord(w: Word, after: seq<Byte>)
    requires Writable(w) && Parted(w, after)
    ensures Token(Spelt(w) + after, Plain, []) ==
      Some((w.bytes, if w.Bare? && after != [] then after[1..] else after))
    ensures Spelt(w) != [] && !IsSpace(Spelt(w)[0])
  {
    var s := w.bytes;
    EmptyLeft(s);
    match w
    case Bare(_) => ReadBare(s, after, []);
    case Double(_) => ReadRepr(s, after);
    case Single(_) => ReadQuoted(s, after);
  }

  lemma ReadQuoted(s: seq<Byte>, after: seq<Byte>)
    requires Writable(Single(s)) && Parted(Single(s), after)
    ensures Token(Spelt(Single(s)) + after, Plain, []) == Some((s, after))
  {
    var more := Apostrophes(s) + ([APOSTROPHE] + after);
    ReadSingle(s, after, []);
    EmptyLeft(s);
    Opens(more);
    Regroup([APOSTROPHE], Apostrophes(s), [APOSTROPHE], after);
  }

  lemma Opens(more: seq<Byte>)
    ensures Token([APOSTROPHE] + more, Plain, []) == Token(more, InSingle, [])
  {
    assert ([APOSTROPHE] + more)[1..] == more;
  }

  lemma Regroup(a: seq<Byte>, b: seq<Byte>, c: seq<Byte>, d: seq<Byte>)
    ensures a + b + c + d == a + (b + (c + d))
  {}

  lemma BlankFirst(line: seq<Byte>, args: seq<seq<Byte>>)
    requires line != [] && IsSpace(line[0])
    ensures Split(line, args) == Split(line[1..], args)
  {}

  lemma WordFirst(line: seq<Byte>, args: seq<seq<Byte>>)
    requires line != [] && !IsSpace(line[0]) && Token(line, Plain, []).Some?
    ensures |Token(line, Plain, []).value.1| < |line|
    ensures var t := Token(line, Plain, []).value; Split(line, args) == Split(t.1, args + [t.0])
  {
    TokenTakes(line, Plain, []);
  }

  /** Such a line splits into what its words hold. */
  lemma {:induction false} SplitOfWords(line: seq<Byte>, ws: seq<Word>, before: seq<seq<Byte>>)
    requires IsLine(line, ws)
    ensures Split(line, before) == Some(before + Contents(ws))
    decreases |line|
  {
    if line != [] && IsSpace(line[0]) {
      BlankFirst(line, before);
      SplitOfWords(line[1..], ws, before);
    } else if ws == [] {
      EmptyRight(before);
    } else {
      var w, x := ws[0], Spelt(ws[0]);
      var after := line[|x|..];
      assert line == x + after;
      ReadWord(w, after);
      WordFirst(line, before);
      assert before + Contents(ws) == before + [w.bytes] + Contents(ws[1..]);
      if w.Bare? && after != [] {
        SplitOfWords(after[1..], ws[1..], before + [w.bytes]);
      } else {
        SplitOfWords(after, ws[1..], before + [w.bytes]);
      }
    }
  }

  // ---------------------------------------------------------------------------
  // The forms of single bytes

  // The letter of a control byte's escape, as in C
  function Letter(b: Byte): Option<Byte> {
    match b
    case 7 => Some(Code('a'))
    case 8 => Some(Code('b'))
    case 9 => Some(Code('t'))
    case 10 => Some(Code('n'))
    case 13 => Some(Code('r'))
    case _ => None
  }

  // The value of a small hexadecimal digit
  function DigitOf(b: Byte): nat {
    if Code('0') <= b <= Code('9') then b - Code('0') else if Code('a') <= b <= Code('f') then b - Code('a') + 10 else 0
  }

  /** Printable bytes stand as they are, but for the quote and the backslash, which have a backslash before them;
      control bytes with a letter in C are written with it, and all others as two hexadecimal digits. */
  lemma ByteForms(b: Byte)
    ensures var x := ReprByte(b);
      if b == Code('"') || b == Code('\\') then x == [Code('\\'), b]
      else if Letter(b).Some? then x == [Code('\\'), Letter(b).value]
      else if Code(' ') <= b <= Code('~') then x == [b]
      else |x| == 4 && x[..2] == [Code('\\'), Code('x')] && 16 * DigitOf(x[2]) + DigitOf(x[3]) == b
  {}
}
