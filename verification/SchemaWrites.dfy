/** What the conversion of src/core/sis_dynamic.c notes for each field, and what is in the buffer while it writes
    values over zeros. */
module SchemaWrites {
  import opened Memory
  import opened Options
  import opened Schema
  import opened SchemaFormat
  import opened Sequences

  // What is done for a field of the target: nothing, a copy of its values, or their conversion.
  datatype Shift = Nothing | Copy(source: Field) | Convert(source: Field)

  function ShiftOf(from: Db, f: Field): Shift {
    match FindField(from.fields, Cut(f.name))
    case None => Nothing
    case Some(g) => if g.style != f.style || g.len != f.len then Convert(g) else Copy(g)
  }

  // What is noted for a field of the target, under its cut name
  datatype Entry = Entry(key: Name, field: Field, shift: Shift)

  function KeyIndex(es: seq<Entry>, key: Name): (k: nat)
    ensures k <= |es| && (k < |es| ==> es[k].key == key)
    ensures k == |es| ==> forall j :: 0 <= j < |es| ==> es[j].key != key
  {
    if es == [] || es[0].key == key then 0 else 1 + KeyIndex(es[1..], key)
  }

  // sis_map_list_set
  function SetEntry(es: seq<Entry>, e: Entry): seq<Entry> {
    var k := KeyIndex(es, e.key);
    if k < |es| then es[k := e] else es + [e]
  }

  /** The notes taken of some fields: for each cut name among them one, of the last field that has it. */
  ghost predicate Noted(es: seq<Entry>, from: Db, fs: seq<Field>) {
    NotesRight(es, from, fs) && NotesFound(es, fs) && NotesApart(es)
  }

  ghost predicate NotesApart(es: seq<Entry>) { forall j, k :: 0 <= j < k < |es| ==> es[j].key != es[k].key }

  ghost predicate NotesRight(es: seq<Entry>, from: Db, fs: seq<Field>) {
    forall j :: 0 <= j < |es| ==>
      LastCut(fs, es[j].key) == Some(es[j].field) && es[j].shift == ShiftOf(from, es[j].field)
  }

  ghost predicate NotesFound(es: seq<Entry>, fs: seq<Field>) {
    forall f :: f in fs ==> KeyIndex(es, Cut(f.name)) < |es|
  }

  lemma RightNext(es: seq<Entry>, from: Db, fs: seq<Field>, f: Field)
    requires NotesRight(es, from, fs) && NotesApart(es)
    ensures NotesRight(SetEntry(es, Entry(Cut(f.name), f, ShiftOf(from, f))), from, fs + [f])
  {
    var e := Entry(Cut(f.name), f, ShiftOf(from, f));
    var next, k := SetEntry(es, e), KeyIndex(es, e.key);
    assert (fs + [f])[..|fs|] == fs;
    forall j | 0 <= j < |next|
      ensures LastCut(fs + [f], next[j].key) == Some(next[j].field) && next[j].shift == ShiftOf(from, next[j].field)
    {
      if j != k {
        assert next[j] == es[j] && es[j].key != e.key;
      }
    }
  }

  lemma ApartNext(es: seq<Entry>, e: Entry)
    requires NotesApart(es)
    ensures NotesApart(SetEntry(es, e))
  {}

  lemma FoundNext(es: seq<Entry>, fs: seq<Field>, f: Field, e: Entry)
    requires NotesFound(es, fs) && e.key == Cut(f.name)
    ensures NotesFound(SetEntry(es, e), fs + [f])
  {
    var next, k := SetEntry(es, e), KeyIndex(es, e.key);
    forall h | h in fs + [f] ensures KeyIndex(next, Cut(h.name)) < |next| {
      if h in fs {
        var j := KeyIndex(es, Cut(h.name));
        assert next[j].key == Cut(h.name);
      } else {
        assert next[k].key == Cut(h.name);
      }
    }
  }

  lemma NotedNext(es: seq<Entry>, from: Db, fs: seq<Field>, f: Field)
    requires Noted(es, from, fs)
    ensures Noted(SetEntry(es, Entry(Cut(f.name), f, ShiftOf(from, f))), from, fs + [f])
  {
    RightNext(es, from, fs, f);
    FoundNext(es, fs, f, Entry(Cut(f.name), f, ShiftOf(from, f)));
    ApartNext(es, Entry(Cut(f.name), f, ShiftOf(from, f)));
  }

  // Bytes written over others.
  function Put(s: seq<Byte>, at: nat, b: seq<Byte>): (r: seq<Byte>)
    requires at + |b| <= |s|
    ensures |r| == |s|
  {
    s[..at] + b + s[at + |b|..]
  }

  lemma PutThere(s: seq<Byte>, at: nat, b: seq<Byte>)
    requires at + |b| <= |s|
    ensures Put(s, at, b)[at..at + |b|] == b
  {}

  lemma PutPut(s: seq<Byte>, at: nat, a: seq<Byte>, b: seq<Byte>)
    requires at + |a| + |b| <= |s|
    ensures Put(Put(s, at, a), at + |a|, b) == Put(s, at, a + b)
  {}

  // Zeros where zeros are.
  predicate ZeroAt(s: seq<Byte>, at: nat, n: nat) {
    at + n <= |s| && forall i :: at <= i < at + n ==> s[i] == 0
  }

  lemma PutZeros(s: seq<Byte>, at: nat, a: seq<Byte>, n: nat)
    requires at + |a| + n <= |s| && ZeroAt(s, at + |a|, n)
    ensures Put(s, at, a + Zeros(n)) == Put(s, at, a)
  {}

  lemma PutNothing(s: seq<Byte>, at: nat)
    requires at <= |s|
    ensures Put(s, at, []) == s
  {}

  // g is the source's field that f is filled from.
  ghost predicate Finds(from: Db, to: Db, f: Field, g: Field) {
    Match(from, to, f) == Some(g)
  }

  ghost predicate Wrote(was: seq<Byte>, now: seq<Byte>, at: nat, b: seq<Byte>) {
    at + |b| <= |was| && now == Put(was, at, b)
  }

  // The first n values of a field are written there.
  ghost predicate HasValues(was: seq<Byte>, now: seq<Byte>, at: nat, vals: Contents, f: Field, n: nat) {
    Wrote(was, now, at, Values(vals, f, n))
  }

  // The first fields of a record are written there.
  ghost predicate HasFields(was: seq<Byte>, now: seq<Byte>, at: nat, vals: Contents, fs: seq<Field>) {
    Wrote(was, now, at, Assembled(vals, fs))
  }

  // Something differs, as far as the first k fields of the target tell.
  ghost predicate ChangeSeen(from: Db, to: Db, k: nat) {
    || to.size != from.size || |to.fields| != |from.fields|
    || exists f :: f in to.fields[..Min(k, |to.fields|)] && Differs(from, f)
  }

  lemma SeenNext(from: Db, to: Db, k: nat)
    requires k < |to.fields|
    ensures ChangeSeen(from, to, k + 1) <==> ChangeSeen(from, to, k) || Differs(from, to.fields[k])
  {
    assert to.fields[..k + 1] == to.fields[..k] + [to.fields[k]];
  }

  // Values copied are the bytes of the field they come from.
  lemma {:induction false} CopiedValues(cal: Calendar, from: Db, to: Db, rec: seq<Byte>, g: Field, f: Field, n: nat)
    requires IsRecord(from, rec) && Finds(from, to, f, g) && g.style == f.style && g.len == f.len &&
      n <= Min(g.count, f.count)
    ensures g.offset + Times(n, g.len) <= |rec| && Times(n, g.len) <= Width(f)
    ensures Values(Converting(cal, from, to, rec), f, n) == rec[g.offset..g.offset + Times(n, g.len)]
  {
    if n > 0 {
      CopiedValues(cal, from, to, rec, g, f, n - 1);
      CopiedValue(cal, from, to, rec, g, f, n - 1);
      TimesGrows(n - 1, f.count, f.len);
      JoinSlices(rec, g.offset, g.offset + Times(n - 1, g.len), g.offset + Times(n, g.len));
    } else {
      var k := FieldPlace(from, g);
      WithinRecord(from, g, 0);
    }
  }

  lemma CopiedValue(cal: Calendar, from: Db, to: Db, rec: seq<Byte>, g: Field, f: Field, i: nat)
    requires IsRecord(from, rec) && Finds(from, to, f, g) && g.style == f.style && g.len == f.len &&
      i < Min(g.count, f.count)
    ensures var at := g.offset + Times(i, g.len);
      at + g.len <= |rec| && Converting(cal, from, to, rec)(f, i) == rec[at..at + g.len]
  {
    WithinRecord(from, g, i);
    var at := g.offset + Times(i, g.len);
    ValueIs(cal, from, to, rec, g, f, i, rec[at..at + g.len]);
  }

  lemma SliceInPlace(s: seq<Byte>, at: nat, n: nat, i: nat, m: nat)
    requires at + n <= |s| && i + m <= n
    ensures s[at..at + n][i..i + m] == s[at + i..at + i + m]
  {
    SliceOfSlice(s, at, s[at..at + n], i, s[at..at + n][i..i + m]);
  }

  // When all values the source has are written, the zeros that were there are the rest.
  lemma RestIsZero(cal: Calendar, from: Db, to: Db, rec: seq<Byte>, f: Field, n: nat, was: seq<Byte>, at: nat,
      now: seq<Byte>)
    requires n <= f.count && (Match(from, to, f).Some? ==> n >= Min(Match(from, to, f).value.count, f.count))
    requires at + Width(f) <= |was| && ZeroAt(was, at, Width(f))
    requires HasValues(was, now, at, Converting(cal, from, to, rec), f, n)
    ensures HasValues(was, now, at, Converting(cal, from, to, rec), f, f.count)
  {
    ZeroValues(cal, from, to, rec, f, n, f.count);
    ZeroTail(Converting(cal, from, to, rec), f, n, was, at);
  }

  // The bytes of the values both have, where zeros were, are all the values of the field.
  lemma CopiedField(cal: Calendar, from: Db, to: Db, rec: seq<Byte>, g: Field, f: Field, was: seq<Byte>, at: nat)
    requires IsRecord(from, rec) && Finds(from, to, f, g) && g.style == f.style && g.len == f.len
    requires at + Width(f) <= |was| && ZeroAt(was, at, Width(f))
    ensures var n := Times(Min(g.count, f.count), g.len);
      && g.offset + n <= from.size && at + n <= |was|
      && HasValues(was, Put(was, at, rec[g.offset..g.offset + n]), at, Converting(cal, from, to, rec), f, f.count)
  {
    var count := Min(g.count, f.count);
    CopiedValues(cal, from, to, rec, g, f, count);
    ZeroValues(cal, from, to, rec, f, count, f.count);
    ZeroTail(Converting(cal, from, to, rec), f, count, was, at);
  }

  // From where the source has no more values, there are zeros.
  lemma {:induction false} ZeroValues(cal: Calendar, from: Db, to: Db, rec: seq<Byte>, f: Field, n: nat, m: nat)
    requires n <= m && (Match(from, to, f).Some? ==> n >= Min(Match(from, to, f).value.count, f.count))
    ensures Times(n, f.len) <= Times(m, f.len)
    ensures var vals := Converting(cal, from, to, rec);
      Values(vals, f, m) == Values(vals, f, n) + Zeros(Times(m, f.len) - Times(n, f.len))
  {
    var vals := Converting(cal, from, to, rec);
    if n < m {
      ZeroValues(cal, from, to, rec, f, n, m - 1);
      Assoc(Values(vals, f, n), Zeros(Times(m - 1, f.len) - Times(n, f.len)), Zeros(f.len));
      assert Zeros(Times(m - 1, f.len) - Times(n, f.len)) + Zeros(f.len) == Zeros(Times(m, f.len) - Times(n, f.len));
    } else {
      EmptyRight(Values(vals, f, n));
    }
  }

  // The value a field takes from another one of its name.
  lemma ValueIs(cal: Calendar, from: Db, to: Db, rec: seq<Byte>, g: Field, f: Field, i: nat, x: seq<Byte>)
    requires IsRecord(from, rec) && Finds(from, to, f, g) && i < Min(g.count, f.count)
    requires var at := g.offset + Times(i, g.len); at + g.len <= |rec| && x == rec[at..at + g.len]
    ensures Value(cal, from, to, rec, f, i) == NewValue(cal, g, f, x)
  {
    assert ValueAt(g, rec, i) == x;
  }

  // One more value written.
  lemma ValueStep(vals: Contents, f: Field, i: nat, was: seq<Byte>, now: seq<Byte>, at: nat, v: seq<Byte>, width: nat)
    requires Fits(vals) && v == Values(vals, f, i) && |v| + f.len <= width
    requires ZeroAt(was, at, width) && Wrote(was, now, at, v)
    ensures ZeroAt(now, at + |v|, f.len) && HasValues(was, Put(now, at + |v|, vals(f, i)), at, vals, f, i + 1)
  {
    ZeroBehind(was, now, at, v, width, f.len);
    HasNext(was, now, at, vals, f, i, v);
  }

  lemma ValuePlace(vals: Contents, f: Field, i: nat)
    requires Fits(vals) && i < f.count
    ensures |Values(vals, f, i)| == Times(i, f.len) && Times(i, f.len) + f.len <= Width(f)
  {
    TimesGrows(i, f.count, f.len);
    ValuesLength(vals, f, i);
  }

  lemma HasNext(was: seq<Byte>, now: seq<Byte>, at: nat, vals: Contents, f: Field, i: nat, v: seq<Byte>)
    requires Fits(vals) && v == Values(vals, f, i) && Wrote(was, now, at, v) && at + |v| + f.len <= |was|
    ensures HasValues(was, Put(now, at + |v|, vals(f, i)), at, vals, f, i + 1)
  {
    Extends(was, now, at, v, vals(f, i));
    NextValue(vals, f, i);
  }

  lemma ZeroBehind(was: seq<Byte>, now: seq<Byte>, at: nat, v: seq<Byte>, width: nat, n: nat)
    requires ZeroAt(was, at, width) && |v| + n <= width && Wrote(was, now, at, v)
    ensures ZeroAt(now, at + |v|, n)
  {}

  lemma Extends(was: seq<Byte>, now: seq<Byte>, at: nat, v: seq<Byte>, x: seq<Byte>)
    requires Wrote(was, now, at, v) && at + |v| + |x| <= |was|
    ensures at + |v| + |x| <= |now| && Wrote(was, Put(now, at + |v|, x), at, v + x)
  {
    PutPut(was, at, v, x);
  }

  lemma NextValue(vals: Contents, f: Field, i: nat)
    requires Fits(vals)
    ensures Values(vals, f, i + 1) == Values(vals, f, i) + vals(f, i)
  {}

  // The zeros that are to follow are there.
  lemma ZeroTail(vals: Contents, f: Field, n: nat, was: seq<Byte>, at: nat)
    requires Fits(vals) && n <= f.count && at + Width(f) <= |was| && ZeroAt(was, at, Width(f)) &&
      Times(n, f.len) <= Width(f)
    requires Values(vals, f, f.count) == Values(vals, f, n) + Zeros(Width(f) - Times(n, f.len))
    ensures at + Times(n, f.len) <= |was| && |Values(vals, f, n)| == Times(n, f.len)
    ensures HasValues(was, Put(was, at, Values(vals, f, n)), at, vals, f, f.count)
  {
    ValuesLength(vals, f, n);
    PutZeros(was, at, Values(vals, f, n), Width(f) - Times(n, f.len));
  }

  // ---------------------------------------------------------------------------
  // The fields that are noted, in the order of the notes

  ghost predicate IsDone(es: seq<Entry>, f: Field) { exists j :: 0 <= j < |es| && es[j].field == f }

  // Values where the field is done, zeros where it is not
  ghost function Partly(vals: Contents, es: seq<Entry>): (r: Contents)
    requires Fits(vals)
    ensures Fits(r)
  {
    (f, i) => PartValue(vals, es, f, i)
  }

  ghost function PartValue(vals: Contents, es: seq<Entry>, f: Field, i: nat): (r: seq<Byte>)
    ensures Fits(vals) ==> |r| == f.len
  {
    if IsDone(es, f) then vals(f, i) else Zeros(f.len)
  }

  lemma {:induction false} ValuesZero(vals: Contents, f: Field, n: nat)
    requires Fits(vals) && n <= f.count && forall i: nat :: i < f.count ==> vals(f, i) == Zeros(f.len)
    ensures Values(vals, f, n) == Zeros(Times(n, f.len))
  {
    if n > 0 {
      ValuesZero(vals, f, n - 1);
      assert vals(f, n - 1) == Zeros(f.len);
    }
  }

  lemma {:induction false} AssembledZero(vals: Contents, fs: seq<Field>)
    requires Fits(vals) && forall f, i: nat :: f in fs && i < f.count ==> vals(f, i) == Zeros(f.len)
    ensures Assembled(vals, fs) == Zeros(Widths(fs))
  {
    if fs != [] {
      AssembledZero(vals, fs[..|fs| - 1]);
      ValuesZero(vals, fs[|fs| - 1], fs[|fs| - 1].count);
    }
  }

  // The fields of the first k notes are written in a record.
  ghost predicate NotesWritten(vals: Contents, db: Db, es: seq<Entry>, k: nat, was: seq<Byte>, now: seq<Byte>, op: nat)
    requires Fits(vals)
  {
    k <= |es| && HasFields(was, now, op, Partly(vals, es[..k]), db.fields)
  }

  lemma NothingWritten(vals: Contents, db: Db, es: seq<Entry>, was: seq<Byte>, op: nat)
    requires Fits(vals) && LaidOut(db) && ZeroAt(was, op, db.size)
    ensures NotesWritten(vals, db, es, 0, was, was, op)
  {
    assert es[..0] == [];
    AssembledZero(Partly(vals, []), db.fields);
    EmptyLeft(Zeros(db.size));
    PutZeros(was, op, [], db.size);
    PutNothing(was, op);
  }

  // A note's field is one of the target's, and none of those noted before.
  lemma NoteIsNew(from: Db, fs: seq<Field>, es: seq<Entry>, k: nat)
    requires Noted(es, from, fs) && k < |es|
    ensures es[k].field in fs && LastCut(fs, Cut(es[k].field.name)) == Some(es[k].field) &&
      !IsDone(es[..k], es[k].field)
  {
    forall j | 0 <= j < k ensures es[..k][j].field != es[k].field {
      assert es[j].key != es[k].key;
    }
  }

  // The place of the next note's field still holds zeros.
  // What a field's shift is told by its note, and the place for it still holds zeros.
  ghost predicate Shiftable(from: Db, to: Db, e: Entry, now: seq<Byte>, op: nat) {
    && LaidOut(from) && LastCut(to.fields, Cut(e.field.name)) == Some(e.field) && e.shift == ShiftOf(from, e.field)
    && op + e.field.offset + Width(e.field) <= |now| && ZeroAt(now, op + e.field.offset, Width(e.field))
  }

  lemma FieldIsZero(vals: Contents, from: Db, to: Db, es: seq<Entry>, k: nat, was: seq<Byte>, now: seq<Byte>, op: nat)
    requires Fits(vals) && LaidOut(from) && LaidOut(to) && Noted(es, from, to.fields) && k < |es|
    requires NotesWritten(vals, to, es, k, was, now, op)
    ensures Shiftable(from, to, es[k], now, op)
  {
    var part, f := Partly(vals, es[..k]), es[k].field;
    NoteIsNew(from, to.fields, es, k);
    ZeroField(part, to, f);
    ZeroInside(was, now, op, Assembled(part, to.fields), f.offset, Width(f));
  }

  lemma ZeroField(vals: Contents, db: Db, f: Field)
    requires Fits(vals) && LaidOut(db) && f in db.fields && forall i: nat :: i < f.count ==> vals(f, i) == Zeros(f.len)
    ensures var a := Assembled(vals, db.fields);
      f.offset + Width(f) <= |a| && a[f.offset..f.offset + Width(f)] == Zeros(Width(f))
  {
    var m := FieldPlace(db, f);
    FieldInAssembled(vals, db.fields, m);
    ValuesZero(vals, f, f.count);
  }

  lemma ZeroInside(was: seq<Byte>, now: seq<Byte>, op: nat, a: seq<Byte>, at: nat, n: nat)
    requires Wrote(was, now, op, a) && at + n <= |a| && a[at..at + n] == Zeros(n)
    ensures ZeroAt(now, op + at, n)
  {
    forall i | op + at <= i < op + at + n ensures now[i] == 0 {
      assert now[i] == a[i - op] == a[at..at + n][i - op - at];
    }
  }

  lemma PutInside(s: seq<Byte>, at: nat, a: seq<Byte>, i: nat, b: seq<Byte>)
    requires at + |a| <= |s| && i + |b| <= |a|
    ensures Put(Put(s, at, a), at + i, b) == Put(s, at, Put(a, i, b))
  {}

  lemma PutFront(a: seq<Byte>, i: nat, b: seq<Byte>, c: seq<Byte>)
    requires i + |b| <= |a|
    ensures Put(a + c, i, b) == Put(a, i, b) + c
  {}

  lemma PutLast(a: seq<Byte>, b: seq<Byte>, c: seq<Byte>)
    requires |b| == |c|
    ensures Put(a + c, |a|, b) == a + b
  {}

  // Where two contents differ in one field only, so do the records assembled from them.
  lemma {:induction false} AssembledPut(a: Contents, b: Contents, fs: seq<Field>, m: nat)
    requires Fits(a) && Fits(b) && m < |fs| && forall j :: 0 <= j < |fs| && j != m ==> fs[j] != fs[m]
    requires forall f, i: nat :: f in fs && f != fs[m] && i < f.count ==> a(f, i) == b(f, i)
    ensures Widths(fs[..m]) + |Values(b, fs[m], fs[m].count)| <= |Assembled(a, fs)|
    ensures Assembled(b, fs) == Put(Assembled(a, fs), Widths(fs[..m]), Values(b, fs[m], fs[m].count))
    decreases |fs|
  {
    var front, last := fs[..|fs| - 1], fs[|fs| - 1];
    ValuesLength(a, last, last.count);
    ValuesLength(b, last, last.count);
    AssembledLength(a, front);
    if m == |front| {
      AssembledAlike(a, b, front);
      PutLast(Assembled(a, front), Values(b, last, last.count), Values(a, last, last.count));
    } else {
      assert front[..m] == fs[..m] && front[m] == fs[m];
      AssembledPut(a, b, front, m);
      ValuesAlike(a, b, last, last.count);
      PutFront(Assembled(a, front), Widths(fs[..m]), Values(b, fs[m], fs[m].count), Values(a, last, last.count));
    }
  }

  lemma FieldWritten(vals: Contents, from: Db, to: Db, es: seq<Entry>, k: nat, was: seq<Byte>, now: seq<Byte>,
      next: seq<Byte>, op: nat)
    requires Fits(vals) && LaidOut(to) && Noted(es, from, to.fields) && k < |es|
    requires NotesWritten(vals, to, es, k, was, now, op)
    requires var f := es[k].field; HasValues(now, next, op + f.offset, vals, f, f.count)
    ensures NotesWritten(vals, to, es, k + 1, was, next, op)
  {
    var f := es[k].field;
    PartNext(vals, from, to, es, k);
    WroteInside(was, now, next, op, Assembled(Partly(vals, es[..k]), to.fields), f.offset, Values(vals, f, f.count));
  }

  lemma WroteInside(was: seq<Byte>, now: seq<Byte>, next: seq<Byte>, op: nat, a: seq<Byte>, i: nat, b: seq<Byte>)
    requires Wrote(was, now, op, a) && Wrote(now, next, op + i, b) && i + |b| <= |a|
    ensures Wrote(was, next, op, Put(a, i, b))
  {
    PutInside(was, op, a, i, b);
  }

  // With one note more, the values of its field are put in.
  lemma PartNext(vals: Contents, from: Db, to: Db, es: seq<Entry>, k: nat)
    requires Fits(vals) && LaidOut(to) && Noted(es, from, to.fields) && k < |es|
    ensures var f, a := es[k].field, Assembled(Partly(vals, es[..k]), to.fields);
      && f.offset + |Values(vals, f, f.count)| <= |a|
      && Assembled(Partly(vals, es[..k + 1]), to.fields) == Put(a, f.offset, Values(vals, f, f.count))
  {
    var a, b, f := Partly(vals, es[..k]), Partly(vals, es[..k + 1]), es[k].field;
    NoteIsNew(from, to.fields, es, k);
    OneMoreDone(es, k);
    var m := FieldPlace(to, f);
    ValuesAlike(vals, b, f, f.count);
    AssembledPut(a, b, to.fields, m);
  }

  lemma OneMoreDone(es: seq<Entry>, k: nat)
    requires k < |es|
    ensures forall f :: IsDone(es[..k + 1], f) <==> IsDone(es[..k], f) || f == es[k].field
  {
    forall f ensures IsDone(es[..k + 1], f) <==> IsDone(es[..k], f) || f == es[k].field {
      assert es[..k + 1] == es[..k] + [es[k]];
      assert es[..k + 1][k] == es[k];
      if IsDone(es[..k], f) {
        var j :| 0 <= j < k && es[..k][j].field == f;
        assert es[..k + 1][j].field == f;
      }
    }
  }

  // Fields without a note take nothing.
  lemma AllWritten(cal: Calendar, from: Db, to: Db, es: seq<Entry>, rec: seq<Byte>, was: seq<Byte>, now: seq<Byte>,
      op: nat)
    requires Noted(es, from, to.fields) && NotesWritten(Converting(cal, from, to, rec), to, es, |es|, was, now, op)
    ensures Wrote(was, now, op, Converted(cal, from, to, rec))
  {
    var vals := Converting(cal, from, to, rec);
    assert es[..|es|] == es;
    forall f, i: nat | f in to.fields && i < f.count ensures Partly(vals, es)(f, i) == vals(f, i) {
      var j := KeyIndex(es, Cut(f.name));
      assert es[j].key == Cut(f.name);
    }
    AssembledAlike(Partly(vals, es), vals, to.fields);
  }

  // What is written of the records and what is still to come make up the whole.
  ghost predicate Progress(cal: Calendar, from: Db, to: Db, rest: seq<Byte>, left: nat, out: seq<Byte>, op: nat,
      all: seq<Byte>)
  {
    && from.size > 0 && to.size > 0 && IsBlock(from, rest, left) && |out| == op + Times(left, to.size)
    && ZeroAt(out, op, |out| - op) && out[..op] + Records(cal, from, to, rest) == all
  }

  lemma NothingDone(cal: Calendar, from: Db, to: Db, data: seq<Byte>, n: nat, out: seq<Byte>)
    requires LaidOut(from) && LaidOut(to) && IsBlock(from, data, n) && |out| == Times(n, to.size) &&
      ZeroAt(out, 0, |out|)
    ensures Progress(cal, from, to, data, n, out, 0, Records(cal, from, to, data))
  {
    EmptyLeft(Records(cal, from, to, data));
  }

  lemma AllDone(cal: Calendar, from: Db, to: Db, rest: seq<Byte>, out: seq<Byte>, op: nat, all: seq<Byte>)
    requires Progress(cal, from, to, rest, 0, out, op, all)
    ensures out == all
  {
    assert out[..op] == out;
    EmptyRight(out);
  }

  lemma RecordPlace(cal: Calendar, from: Db, to: Db, rest: seq<Byte>, left: nat, out: seq<Byte>, op: nat,
      all: seq<Byte>)
    requires Progress(cal, from, to, rest, left, out, op, all) && left > 0
    ensures from.size <= |rest| && op + to.size <= |out| && ZeroAt(out, op, to.size)
  {}

  lemma RecordDone(cal: Calendar, from: Db, to: Db, rest: seq<Byte>, left: nat, was: seq<Byte>, now: seq<Byte>,
      op: nat, all: seq<Byte>)
    requires LaidOut(to) && Progress(cal, from, to, rest, left, was, op, all) && left > 0 && from.size <= |rest|
    requires Wrote(was, now, op, Converted(cal, from, to, rest[..from.size]))
    ensures Progress(cal, from, to, rest[from.size..], left - 1, now, op + to.size, all)
  {
    var rec := rest[..from.size];
    AssembledLength(Converting(cal, from, to, rec), to.fields);
    RecordWritten(was, now, op, Converted(cal, from, to, rec), Records(cal, from, to, rest[from.size..]));
  }

  lemma RecordWritten(was: seq<Byte>, now: seq<Byte>, op: nat, a: seq<Byte>, rest: seq<Byte>)
    requires Wrote(was, now, op, a) && ZeroAt(was, op, |was| - op)
    ensures ZeroAt(now, op + |a|, |now| - (op + |a|)) && now[..op + |a|] + rest == was[..op] + (a + rest)
  {}

  // The count a block can have.
  lemma OnlyCount(size: nat, length: nat, count: nat)
    requires size > 0 && count == length / size
    ensures forall n: nat :: Times(n, size) == length ==> n == count
  {
    TimesIsProduct(count, size);
    DivisionFits(length, size);
    forall n: nat | Times(n, size) == length ensures n == count {
      TimesApart(n, count, size);
      TimesApart(count, n, size);
    }
  }

  lemma TimesApart(m: nat, n: nat, size: nat)
    ensures m < n ==> Times(m, size) + size <= Times(n, size)
  {
    if m < n {
      TimesGrows(m, n, size);
    }
  }

  lemma DivisionFits(length: nat, size: nat)
    requires size > 0
    ensures (length / size) * size <= length < (length / size) * size + size
  {}
}
