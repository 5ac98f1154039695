/** The converter object of src/core/sis_dynamic.c, which writes the converted records into a buffer. */
module SchemaConvert {
  import opened Memory
  import opened Options
  import opened Schema
  import opened SchemaFormat
  import opened SchemaValues
  import opened SchemaWrites
  import opened Sequences

  datatype Error = Fine | BadArguments | BadSize | BadLength

  // memmove into the buffer
  method Write(out: array<Byte>, at: nat, bytes: seq<Byte>)
    requires at + |bytes| <= out.Length
    modifies out
    ensures out[..] == Put(old(out[..]), at, bytes)
  {
    forall i | at <= i < at + |bytes| {
      out[i] := bytes[i - at];
    }
    assert out[..at] == old(out[..at]) && out[at..at + |bytes|] == bytes &&
      out[at + |bytes|..] == old(out[at + |bytes|..]);
    assert out[..] == out[..at] + out[at..at + |bytes|] + out[at + |bytes|..];
  }

  // One value: the cases of _sis_dynamic_unit_convert, on a place that holds zeros.
  method WriteValue(cal: Calendar, g: Field, f: Field, x: seq<Byte>, out: array<Byte>, at: nat)
    requires |x| == g.len && (g.style != f.style || g.len != f.len) && ZeroAt(out[..], at, f.len)
    modifies out
    ensures out[..] == Put(old(out[..]), at, NewValue(cal, g, f, x))
    ensures at + f.len <= out.Length && Becomes(cal, g, f, x, out[at..at + f.len])
  {
    NewValueBecomes(cal, g, f, x);
    PutThere(out[..], at, NewValue(cal, g, f, x));
    ghost var was := out[..];
    PutZeros(was, at, [], f.len);
    PutNothing(was, at);
    EmptyLeft(Zeros(f.len));
    if g.style.Char? {
      if f.style.Char? {
        var n := Min(g.len, f.len);
        Write(out, at, x[..n]);
        if g.len <= f.len {
          assert x[..n] == x;
          PutZeros(was, at, x, f.len - g.len);
        }
      }
      return;
    }
    var v := if g.style.Int? then GetInt(x) else GetUint(x);
    if f.style.Char? {
      return;
    }
    if !g.style.Int? && IsTime(f.style) {
      v := TimeConvert(cal, g.style, f.style, v);
    }
    if IsNumberLength(f.len) {
      Write(out, at, Bytes(v, f.len));
    }
  }

  class Converter {
    const cal: Calendar
    const from: Db
    const to: Db
    const entries: seq<Entry>
    const whole: bool
    var error: Error

    ghost predicate Valid() {
      Ready() && whole == !Changed(from, to)
    }

    ghost predicate Ready() {
      LaidOut(from) && LaidOut(to) && Noted(entries, from, to.fields)
    }

    /** sis_dynamic_convert_create and _sis_dynamic_match */
    constructor (cal: Calendar, from: Db, to: Db)
      requires LaidOut(from) && LaidOut(to)
      ensures Valid() && this.cal == cal && this.from == from && this.to == to
    {
      var entries, change := TakeNotes(from, to);
      this.cal, this.from, this.to, this.entries, this.whole, this.error := cal, from, to, entries, !change, Fine;
    }

    static method TakeNotes(from: Db, to: Db) returns (entries: seq<Entry>, change: bool)
      ensures Noted(entries, from, to.fields) && change == Changed(from, to)
    {
      change := to.size != from.size || |to.fields| != |from.fields|;
      entries := [];
      var k := 0;
      ghost var done: seq<Field> := [];
      while k < |to.fields|
        invariant 0 <= k <= |to.fields| && FirstOnes(done, to.fields, k)
        invariant Noted(entries, from, done) && (change <==> ChangeSeen(from, to, k))
      {
        SeenNext(from, to, k);
        FirstOnesNext(done, to.fields, k);
        entries, change := TakeNote(from, to.fields[k], entries, change, done);
        done := done + [to.fields[k]];
        k := k + 1;
      }
      FirstOnesNext(done, to.fields, k);
    }

    // The note of one field; whether something is different now
    static method TakeNote(from: Db, f: Field, entries: seq<Entry>, change: bool, ghost fs: seq<Field>)
      returns (more: seq<Entry>, now: bool)
      requires Noted(entries, from, fs)
      ensures Noted(more, from, fs + [f]) && now == (change || Differs(from, f))
    {
      var shift := ShiftOf(from, f);
      more := SetEntry(entries, Entry(Cut(f.name), f, shift));
      NotedNext(entries, from, fs, f);
      now := change || shift.Convert? || (shift.Copy? && shift.source.count != f.count);
    }

    static method Slice(input: array<Byte>, ip: nat, at: nat, n: nat, ghost rec: seq<Byte>) returns (bytes: seq<Byte>)
      requires ip + |rec| <= input.Length && rec == input[ip..ip + |rec|] && at + n <= |rec|
      ensures bytes == rec[at..at + n]
    {
      SliceInPlace(input[..], ip, |rec|, at, n);
      bytes := input[ip + at..ip + at + n];
    }

    // The values of a field that is the same but for its count: one memmove.
    method CopyField(g: Field, f: Field, input: array<Byte>, ip: nat, out: array<Byte>, op: nat, ghost rec: seq<Byte>)
      requires IsRecord(from, rec) && Finds(from, to, f, g) && g.style == f.style && g.len == f.len
      requires input != out && ip + from.size <= input.Length && rec == input[ip..ip + from.size]
      requires op + f.offset + Width(f) <= out.Length && ZeroAt(out[..], op + f.offset, Width(f))
      modifies out
      ensures HasValues(old(out[..]), out[..], op + f.offset, Converting(cal, from, to, rec), f, f.count)
    {
      ghost var was := out[..];
      CopiedField(cal, from, to, rec, g, f, was, op + f.offset);
      var n := Times(Min(g.count, f.count), g.len);
      var bytes := Slice(input, ip, g.offset, n, rec);
      ghost var next := Put(was, op + f.offset, bytes);
      assert HasValues(was, next, op + f.offset, Converting(cal, from, to, rec), f, f.count);
      Write(out, op + f.offset, bytes);
      assert out[..] == next;
    }

    // Value i of a field, after the ones before it.
    method ConvertOne(g: Field, f: Field, i: nat, input: array<Byte>, ip: nat, out: array<Byte>, op: nat,
                      ghost rec: seq<Byte>, ghost was: seq<Byte>)
      requires IsRecord(from, rec) && Finds(from, to, f, g) && (g.style != f.style || g.len != f.len) &&
        i < Min(g.count, f.count)
      requires input != out && ip + from.size <= input.Length && rec == input[ip..ip + from.size]
      requires op + f.offset + Width(f) <= out.Length && |was| == out.Length && ZeroAt(was, op + f.offset, Width(f))
      requires HasValues(was, out[..], op + f.offset, Converting(cal, from, to, rec), f, i)
      modifies out
      ensures HasValues(was, out[..], op + f.offset, Converting(cal, from, to, rec), f, i + 1)
    {
      ghost var vals := Converting(cal, from, to, rec);
      var x := ReadValue(g, f, i, input, ip, rec);
      ValuePlace(vals, f, i);
      ValueStep(vals, f, i, was, out[..], op + f.offset, Values(vals, f, i), Width(f));
      WriteValue(cal, g, f, x, out, op + f.offset + Times(i, f.len));
    }

    method ReadValue(g: Field, f: Field, i: nat, input: array<Byte>, ip: nat, ghost rec: seq<Byte>)
      returns (x: seq<Byte>)
      requires IsRecord(from, rec) && Finds(from, to, f, g) && i < Min(g.count, f.count)
      requires ip + from.size <= input.Length && rec == input[ip..ip + from.size]
      ensures |x| == g.len && Value(cal, from, to, rec, f, i) == NewValue(cal, g, f, x)
    {
      WithinRecord(from, g, i);
      var at := g.offset + Times(i, g.len);
      x := input[ip + at..ip + at + g.len];
      assert x == rec[at..at + g.len];
      ValueIs(cal, from, to, rec, g, f, i, x);
    }

    // The values of a field, converted one by one.
    method ConvertField(g: Field, f: Field, input: array<Byte>, ip: nat, out: array<Byte>, op: nat,
        ghost rec: seq<Byte>)
      requires IsRecord(from, rec) && Finds(from, to, f, g) && (g.style != f.style || g.len != f.len)
      requires input != out && ip + from.size <= input.Length && rec == input[ip..ip + from.size]
      requires op + f.offset + Width(f) <= out.Length && ZeroAt(out[..], op + f.offset, Width(f))
      modifies out
      ensures HasValues(old(out[..]), out[..], op + f.offset, Converting(cal, from, to, rec), f, f.count)
    {
      ghost var was := out[..];
      ConvertEach(g, f, Min(g.count, f.count), input, ip, out, op, rec);
      RestIsZero(cal, from, to, rec, f, Min(g.count, f.count), was, op + f.offset, out[..]);
    }

    // The first values, one by one
    method ConvertEach(g: Field, f: Field, count: nat, input: array<Byte>, ip: nat, out: array<Byte>, op: nat,
        ghost rec: seq<Byte>)
      requires IsRecord(from, rec) && Finds(from, to, f, g) && (g.style != f.style || g.len != f.len) &&
        count <= Min(g.count, f.count)
      requires input != out && ip + from.size <= input.Length && rec == input[ip..ip + from.size]
      requires op + f.offset + Width(f) <= out.Length && ZeroAt(out[..], op + f.offset, Width(f))
      modifies out
      ensures HasValues(old(out[..]), out[..], op + f.offset, Converting(cal, from, to, rec), f, count)
    {
      var i: nat := 0;
      ghost var was := out[..];
      PutNothing(was, op + f.offset);
      while i < count
        invariant i <= count && out.Length == |was| &&
          HasValues(was, out[..], op + f.offset, Converting(cal, from, to, rec), f, i)
      {
        ConvertOne(g, f, i, input, ip, out, op, rec, was);
        i := i + 1;
      }
    }

    // What is to be done for the field of a note.
    method ShiftField(e: Entry, input: array<Byte>, ip: nat, out: array<Byte>, op: nat, ghost rec: seq<Byte>)
      requires Shiftable(from, to, e, out[..], op)
      requires input != out && ip + from.size <= input.Length && rec == input[ip..ip + from.size]
      modifies out
      ensures HasValues(old(out[..]), out[..], op + e.field.offset, Converting(cal, from, to, rec), e.field,
        e.field.count)
    {
      var f := e.field;
      match e.shift {
        case Nothing =>
          ZeroValues(cal, from, to, rec, f, 0, f.count);
          ZeroTail(Converting(cal, from, to, rec), f, 0, out[..], op + f.offset);
          PutNothing(out[..], op + f.offset);
        case Copy(g) => CopyField(g, f, input, ip, out, op, rec);
        case Convert(g) => ConvertField(g, f, input, ip, out, op, rec);
      }
    }

    // The field of note k, after the ones before it.
    method NextField(k: nat, input: array<Byte>, ip: nat, out: array<Byte>, op: nat, ghost rec: seq<Byte>,
        ghost was: seq<Byte>)
      requires Ready() && k < |entries|
      requires input != out && ip + from.size <= input.Length && rec == input[ip..ip + from.size]
      requires out.Length == |was| && op + to.size <= |was|
      requires NotesWritten(Converting(cal, from, to, rec), to, entries, k, was, out[..], op)
      modifies out
      ensures NotesWritten(Converting(cal, from, to, rec), to, entries, k + 1, was, out[..], op)
    {
      ghost var vals, now := Converting(cal, from, to, rec), out[..];
      FieldIsZero(vals, from, to, entries, k, was, now, op);
      ShiftField(entries[k], input, ip, out, op, rec);
      FieldWritten(vals, from, to, entries, k, was, now, out[..], op);
    }

    // The fields of all notes
    method WriteFields(input: array<Byte>, ip: nat, out: array<Byte>, op: nat, ghost rec: seq<Byte>,
        ghost was: seq<Byte>)
      requires Ready() && input != out && ip + from.size <= input.Length && rec == input[ip..ip + from.size]
      requires out.Length == |was| && op + to.size <= |was|
      requires NotesWritten(Converting(cal, from, to, rec), to, entries, 0, was, out[..], op)
      modifies out
      ensures NotesWritten(Converting(cal, from, to, rec), to, entries, |entries|, was, out[..], op)
    {
      var k: nat := 0;
      while k < |entries|
        invariant k <= |entries| && out.Length == |was|
        invariant NotesWritten(Converting(cal, from, to, rec), to, entries, k, was, out[..], op)
      {
        NextField(k, input, ip, out, op, rec, was);
        k := k + 1;
      }
    }

    // One record, note by note.
    method ConvertRecord(input: array<Byte>, ip: nat, out: array<Byte>, op: nat, ghost rec: seq<Byte>)
      requires Ready() && input != out && ip + from.size <= input.Length && rec == input[ip..ip + from.size]
      requires op + to.size <= out.Length && ZeroAt(out[..], op, to.size)
      modifies out
      ensures Wrote(old(out[..]), out[..], op, Converted(cal, from, to, rec))
    {
      ghost var vals, was := Converting(cal, from, to, rec), out[..];
      NothingWritten(vals, to, entries, was, op);
      WriteFields(input, ip, out, op, rec, was);
      AllWritten(cal, from, to, entries, rec, was, out[..], op);
    }

    // The next record, after the ones before it; left are to come with it.
    method NextRecord(input: array<Byte>, ip: nat, out: array<Byte>, op: nat, ghost left: nat, ghost rest: seq<Byte>,
        ghost all: seq<Byte>)
      requires Ready() && input != out && ip <= input.Length && rest == input[ip..] && left > 0
      requires Progress(cal, from, to, rest, left, out[..], op, all)
      modifies out
      ensures ip + from.size <= input.Length && from.size <= |rest| && rest[from.size..] == input[ip + from.size..]
      ensures Progress(cal, from, to, rest[from.size..], left - 1, out[..], op + to.size, all)
    {
      ghost var was := out[..];
      RecordPlace(cal, from, to, rest, left, was, op, all);
      DropDrop(input[..], ip, from.size);
      ConvertRecord(input, ip, out, op, rest[..from.size]);
      RecordDone(cal, from, to, rest, left, was, out[..], op, all);
    }

    /** _sis_dynamic_method_owner: n records, each field by field, into a buffer that is cleared first. */
    method ConvertRecords(input: array<Byte>, out: array<Byte>, n: nat)
      requires Ready() && input != out && IsBlock(from, input[..], n) && out.Length == Times(n, to.size)
      modifies out
      ensures out[..] == Records(cal, from, to, input[..])
    {
      forall i | 0 <= i < out.Length {
        out[i] := 0;
      }
      ghost var all := Records(cal, from, to, input[..]);
      NothingDone(cal, from, to, input[..], n, out[..]);
      EachRecord(input, out, n, all);
    }

    method EachRecord(input: array<Byte>, out: array<Byte>, n: nat, ghost all: seq<Byte>)
      requires Ready() && input != out && Progress(cal, from, to, input[..], n, out[..], 0, all)
      modifies out
      ensures out[..] == all
    {
      var i: nat, ip: nat, op: nat := 0, 0, 0;
      ghost var rest, left := input[..], n;
      while i < n
        invariant i + left == n && ip <= input.Length && rest == input[ip..] &&
          Progress(cal, from, to, rest, left, out[..], op, all)
      {
        NextRecord(input, ip, out, op, left, rest, all);
        rest, left := rest[from.size..], left - 1;
        ip, op, i := ip + from.size, op + to.size, i + 1;
      }
      AllDone(cal, from, to, rest, out[..], op, all);
    }

    /** sis_dynamic_convert */
    method ConvertBlock(input: array<Byte>, out: array<Byte>) returns (e: Error)
      requires Valid() && input != out
      modifies this`error, out
      ensures e == error
      ensures e == Fine <==>
        out.Length > 0 && exists n: nat :: n > 0 && IsBlock(from, input[..], n) && out.Length == Times(n, to.size)
      ensures e == BadArguments <==> input.Length == 0 || out.Length == 0
      ensures e == BadSize ==> forall n: nat :: !IsBlock(from, input[..], n)
      ensures if e == Fine then out[..] == ConvertedBlock(cal, from, to, input[..]) else out[..] == old(out[..])
    {
      error := Fine;
      if input.Length == 0 || out.Length == 0 {
        error := BadArguments;
        return error;
      }
      var count: nat := input.Length / from.size;
      OnlyCount(from.size, input.Length, count);
      if Times(count, from.size) != input.Length {
        error := BadSize;
        return error;
      }
      if Times(count, to.size) != out.Length {
        error := BadLength;
        return error;
      }
      if whole {
        Write(out, 0, input[..]);
      } else {
        ConvertRecords(input, out, count);
      }
      return error;
    }
  }
}
