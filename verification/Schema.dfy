/** Conversion of records between two schemas (src/core/sis_dynamic.c): which way is taken, the bytes it
    writes, and when a whole-block copy does the same as the conversion field by field. */
module Schema {
  import opened Memory
  import opened Options
  import opened SchemaFormat
  import opened Sequences

  // ---------------------------------------------------------------------------
  // Which way is taken

  predicate Alike(g: Field, f: Field) { g.style == f.style && g.len == f.len && g.count == f.count }

  predicate Differs(from: Db, f: Field) {
    FindField(from.fields, Cut(f.name)).Some? && !Alike(FindField(from.fields, Cut(f.name)).value, f)
  }

  // _sis_dynamic_match: something differs, so records are converted field by field.
  predicate Changed(from: Db, to: Db) {
    || to.size != from.size || |to.fields| != |from.fields|
    || exists f :: f in to.fields && Differs(from, f)
  }

  /** Every field of the target has its match in the source, at the same place. */
  predicate Aligned(from: Db, to: Db) {
    forall f :: f in to.fields ==> Match(from, to, f).Some? && Match(from, to, f).value.offset == f.offset
  }

  // One at a given place, zeros elsewhere
  function Mark(n: nat, at: nat): (r: seq<Byte>)
    ensures |r| == n
  {
    seq(n, i => if i == at then 1 else 0)
  }

  // A field that is not aligned takes something else than the record's byte.
  lemma MarkShows(cal: Calendar, from: Db, to: Db, f: Field)
    requires LaidOut(from) && LaidOut(to) && !Changed(from, to) && f in to.fields
    requires Match(from, to, f).Some? ==> Match(from, to, f).value.offset != f.offset
    ensures IsRecord(from, Mark(from.size, f.offset)) &&
      Converted(cal, from, to, Mark(from.size, f.offset)) != Mark(from.size, f.offset)
  {
    var rec := Mark(from.size, f.offset);
    var vals, out := Converting(cal, from, to, rec), Converted(cal, from, to, rec);
    var k := FieldPlace(to, f);
    WithinRecord(to, f, 0);
    AssembledHolds(vals, to, f, 0);
    assert out[f.offset..f.offset + f.len][0] == out[f.offset];
    assert vals(f, 0)[0] == 0 by {
      if Match(from, to, f).Some? {
        var g := Match(from, to, f).value;
        WithinRecord(from, g, 0);
      }
    }
  }

  /** Where the whole block is copied, that is what converting field by field gives, for every record,
      exactly when the schemas are aligned. */
  lemma CopyIsConversion(cal: Calendar, from: Db, to: Db)
    requires LaidOut(from) && LaidOut(to) && !Changed(from, to)
    ensures (forall rec :: IsRecord(from, rec) ==> Converted(cal, from, to, rec) == rec) <==> Aligned(from, to)
  {
    if Aligned(from, to) {
      forall rec | IsRecord(from, rec) ensures Converted(cal, from, to, rec) == rec {
        AlignedCopies(cal, from, to, rec);
      }
    } else {
      var f :| f in to.fields && !(Match(from, to, f).Some? && Match(from, to, f).value.offset == f.offset);
      MarkShows(cal, from, to, f);
    }
  }

  lemma AlignedCopies(cal: Calendar, from: Db, to: Db, rec: seq<Byte>)
    requires LaidOut(to) && !Changed(from, to) && Aligned(from, to) && IsRecord(from, rec)
    ensures Converted(cal, from, to, rec) == rec
  {
    var vals := Converting(cal, from, to, rec);
    forall f | f in to.fields ensures Owns(vals, f, rec) {
      var g := Match(from, to, f).value;
      forall i: nat | i < f.count ensures f.offset + Times(i, f.len) + f.len <= |rec| && vals(f, i) ==
        ValueAt(f, rec, i) {
        WithinRecord(from, g, i);
      }
    }
    AssembledOwned(vals, to, rec, |to.fields|);
    assert to.fields[..|to.fields|] == to.fields;
  }

  // ---------------------------------------------------------------------------
  // Whole blocks

  ghost function Records(cal: Calendar, from: Db, to: Db, data: seq<Byte>): seq<Byte>
    requires from.size > 0
    decreases |data|
  {
    if |data| < from.size then []
    else Converted(cal, from, to, data[..from.size]) + Records(cal, from, to, data[from.size..])
  }

  /** What a block of records becomes, whichever way is taken. */
  ghost function ConvertedBlock(cal: Calendar, from: Db, to: Db, data: seq<Byte>): seq<Byte>
    requires from.size > 0
  {
    if Changed(from, to) then Records(cal, from, to, data) else data
  }

  // n records
  predicate IsBlock(db: Db, data: seq<Byte>, n: nat) { |data| == Times(n, db.size) }

  lemma {:induction false} RecordsBack(cal: Calendar, from: Db, to: Db, data: seq<Byte>, n: nat)
    requires Upgrades(from, to) && Reached(from, to) && IsBlock(from, data, n)
    ensures var out := Records(cal, from, to, data);
      IsBlock(to, out, n) && Records(cal, to, from, out) == data
    decreases n
  {
    if n > 0 {
      var rec, rest := data[..from.size], data[from.size..];
      RecordBack(cal, from, to, rec);
      RecordsBack(cal, from, to, rest, n - 1);
      var out := Converted(cal, from, to, rec);
      FirstRecord(cal, to, from, out, Records(cal, from, to, rest));
      JoinSlices(data, 0, from.size, |data|);
    }
  }

  lemma FirstRecord(cal: Calendar, from: Db, to: Db, rec: seq<Byte>, rest: seq<Byte>)
    requires from.size > 0 && |rec| == from.size
    ensures Records(cal, from, to, rec + rest) == Converted(cal, from, to, rec) + Records(cal, from, to, rest)
  {
    assert (rec + rest)[..from.size] == rec && (rec + rest)[from.size..] == rest;
  }

  lemma {:induction false} RecordsCopy(cal: Calendar, from: Db, to: Db, data: seq<Byte>, n: nat)
    requires LaidOut(from) && LaidOut(to) && !Changed(from, to) && Aligned(from, to) && IsBlock(from, data, n)
    ensures Records(cal, from, to, data) == data
    decreases n
  {
    if n > 0 {
      CopyIsConversion(cal, from, to);
      assert IsRecord(from, data[..from.size]);
      RecordsCopy(cal, from, to, data[from.size..], n - 1);
      JoinSlices(data, 0, from.size, |data|);
    }
  }

  // ---------------------------------------------------------------------------
  // What is not reached is lost

  // Two fields of a schema share no byte.
  lemma FieldsApart(db: Db, g: Field, h: Field)
    requires LaidOut(db) && g in db.fields && h in db.fields && g != h
    ensures g.offset + Width(g) <= h.offset || h.offset + Width(h) <= g.offset
  {
    var j := FieldPlace(db, g);
    var k := FieldPlace(db, h);
    if j < k {
      WidthsGrow(db.fields, j, k);
    } else {
      WidthsGrow(db.fields, k, j);
    }
  }

  lemma {:induction false} AssembledAlike(a: Contents, b: Contents, fs: seq<Field>)
    requires forall f, i: nat :: f in fs && i < f.count ==> a(f, i) == b(f, i)
    ensures Assembled(a, fs) == Assembled(b, fs)
  {
    if fs != [] {
      AssembledAlike(a, b, fs[..|fs| - 1]);
      ValuesAlike(a, b, fs[|fs| - 1], fs[|fs| - 1].count);
    }
  }

  lemma {:induction false} ValuesAlike(a: Contents, b: Contents, f: Field, n: nat)
    requires n <= f.count && forall i: nat :: i < f.count ==> a(f, i) == b(f, i)
    ensures Values(a, f, n) == Values(b, f, n)
  {
    if n > 0 {
      ValuesAlike(a, b, f, n - 1);
    }
  }

  // A mark in one field is not seen in another.
  lemma MarkElsewhere(db: Db, g: Field, h: Field, i: nat)
    requires LaidOut(db) && g in db.fields && h in db.fields && g != h && i < h.count
    ensures h.offset + Times(i, h.len) + h.len <= db.size
    ensures ValueAt(h, Mark(db.size, g.offset), i) == ValueAt(h, Zeros(db.size), i)
  {
    FieldsApart(db, g, h);
    WithinRecord(db, h, i);
    var k := FieldPlace(db, g);
    TimesGrows(0, g.count, g.len);
  }

  // A name longer than what is kept of it is never looked up, so the field's bytes go nowhere.
  lemma LongNameUnread(cal: Calendar, from: Db, to: Db, g: Field)
    requires LaidOut(from) && LaidOut(to) && g in from.fields && |g.name| > NAME_SIZE
    ensures Converted(cal, from, to, Mark(from.size, g.offset)) == Converted(cal, from, to, Zeros(from.size))
  {
    var a, b := Mark(from.size, g.offset), Zeros(from.size);
    forall f, i: nat | f in to.fields && i < f.count
      ensures Converting(cal, from, to, a)(f, i) == Converting(cal, from, to, b)(f, i) {
      if Match(from, to, f).Some? && i < Match(from, to, f).value.count {
        MarkElsewhere(from, g, Match(from, to, f).value, i);
      }
    }
    AssembledAlike(Converting(cal, from, to, a), Converting(cal, from, to, b), to.fields);
  }

  // Whatever a field that is not reached has in it, there and back it becomes the same.
  lemma NotReachedIsLost(cal: Calendar, from: Db, to: Db, g: Field)
    requires Upgrades(from, to) && g in from.fields
    requires |g.name| > NAME_SIZE || LastCut(to.fields, g.name) != FindField(to.fields, g.name)
    ensures Value(cal, to, from, Converted(cal, from, to, Mark(from.size, g.offset)), g, 0)
      == Value(cal, to, from, Converted(cal, from, to, Zeros(from.size)), g, 0)
  {
    if |g.name| > NAME_SIZE {
      LongNameUnread(cal, from, to, g);
    } else {
      var f := FindField(to.fields, g.name).value;
      var k := FieldPlace(from, g);
      var a, b := Mark(from.size, g.offset), Zeros(from.size);
      ConvertedHolds(cal, from, to, a, f, 0);
      ConvertedHolds(cal, from, to, b, f, 0);
    }
  }

  /** Field by field, records of a schema come back from one that upgrades it if and only if every field is
      reached. */
  lemma RecordsBackExactly(cal: Calendar, from: Db, to: Db)
    requires Upgrades(from, to)
    ensures (forall rec :: IsRecord(from, rec) ==> Converted(cal, to, from, Converted(cal, from, to, rec)) == rec) <==>
      Reached(from, to)
  {
    if Reached(from, to) {
      forall rec | IsRecord(from, rec) ensures Converted(cal, to, from, Converted(cal, from, to, rec)) == rec {
        RecordBack(cal, from, to, rec);
      }
    } else {
      var g :| g in from.fields && !(|g.name| <= NAME_SIZE &&
        LastCut(to.fields, g.name) == FindField(to.fields, g.name));
      OneDoesNotComeBack(cal, from, to, g);
    }
  }

  lemma OneDoesNotComeBack(cal: Calendar, from: Db, to: Db, g: Field)
    requires Upgrades(from, to) && g in from.fields
    requires |g.name| > NAME_SIZE || LastCut(to.fields, g.name) != FindField(to.fields, g.name)
    ensures exists rec :: IsRecord(from, rec) && Converted(cal, to, from, Converted(cal, from, to, rec)) != rec
  {
    var a, b := Mark(from.size, g.offset), Zeros(from.size);
    var k := FieldPlace(from, g);
    NotReachedIsLost(cal, from, to, g);
    ConvertedHolds(cal, to, from, Converted(cal, from, to, a), g, 0);
    ConvertedHolds(cal, to, from, Converted(cal, from, to, b), g, 0);
    assert ValueAt(g, a, 0)[0] == 1 && ValueAt(g, b, 0)[0] == 0;
    assert IsRecord(from, a) && IsRecord(from, b);
  }

  /** So with one field whose name is too long, widened from four bytes to eight: only zeros arrive. */
  lemma LongNameLost(cal: Calendar, name: Name, x: seq<Byte>)
    requires |name| > NAME_SIZE && |x| == 4
    ensures var from, to := Db([Field(name, Int, 4, 1, 0)], 4), Db([Field(name, Int, 8, 1, 0)], 8);
      Upgrades(from, to) && Converted(cal, from, to, x) == Zeros(8)
  {
    var g, f := Field(name, Int, 4, 1, 0), Field(name, Int, 8, 1, 0);
    var from, to := Db([g], 4), Db([f], 8);
    OneField(g);
    OneField(f);
    FindsItself([f], f);
    assert from.fields[0] == g && to.fields[0] == f;
    assert Match(from, to, f) == None;
    ConvertedHolds(cal, from, to, x, f, 0);
    assert Times(0, 8) == 0;
  }

  lemma OneField(f: Field)
    requires 0 < f.len < SIZE_LIMIT && f.count == 1 && f.offset == 0
    ensures LaidOut(Db([f], f.len))
  {
    assert [f][..0] == [] && Times(1, f.len) == Times(0, f.len) + f.len;
    assert FieldAt([f], 0);
  }

  // ---------------------------------------------------------------------------
  // The way there and the way back are taken alike

  lemma {:induction false} TimesUp(n: nat, len: nat, more: nat)
    requires len <= more
    ensures Times(n, len) <= Times(n, more) && (n > 0 && len < more ==> Times(n, len) < Times(n, more))
  {
    if n > 0 {
      TimesUp(n - 1, len, more);
    }
  }

  lemma WidthWidens(g: Field, f: Field)
    requires Widens(g, f) && g.len >= 1 && g.count >= 1
    ensures Width(g) <= Width(f) && (Width(g) == Width(f) ==> Alike(g, f))
  {
    TimesUp(g.count, g.len, f.len);
    if g.count < f.count {
      TimesGrows(g.count, f.count, f.len);
    }
  }

  function Without(fs: seq<Field>, k: nat): seq<Field>
    requires k < |fs|
  {
    fs[..k] + fs[k + 1..]
  }

  lemma {:induction false} WidthsWithout(fs: seq<Field>, k: nat)
    requires k < |fs|
    ensures Widths(fs) == Widths(Without(fs, k)) + Width(fs[k])
    decreases |fs|
  {
    var front := fs[..|fs| - 1];
    if k < |front| {
      WidthsWithout(front, k);
      assert Without(fs, k) == Without(front, k) + [fs[|fs| - 1]];
      assert (Without(front, k) + [fs[|fs| - 1]])[..|front| - 1] == Without(front, k);
    } else {
      assert Without(fs, k) == front;
    }
  }

  lemma {:induction false} FindWithout(fs: seq<Field>, k: nat, name: Name)
    requires k < |fs| && fs[k].name != name
    ensures FindField(Without(fs, k), name) == FindField(fs, name)
    decreases |fs|
  {
    if k == 0 {
      assert Without(fs, 0) == fs[1..];
    } else {
      FindWithout(fs[1..], k - 1, name);
      assert Without(fs, k)[1..] == Without(fs[1..], k - 1);
    }
  }

  // Fields of a schema or some of them: none empty, each under a name of its own
  ghost predicate Sound(fs: seq<Field>) {
    && (forall f :: f in fs ==> f.len >= 1 && f.count >= 1)
    && forall j, k :: 0 <= j < k < |fs| ==> fs[j].name != fs[k].name
  }

  ghost predicate Covers(gs: seq<Field>, fs: seq<Field>) {
    forall g :: g in gs ==> FindField(fs, g.name).Some? && Widens(g, FindField(fs, g.name).value)
  }

  lemma LaidOutSound(db: Db)
    requires LaidOut(db)
    ensures Sound(db.fields)
  {
    forall f | f in db.fields ensures f.len >= 1 && f.count >= 1 {
      var k := FieldPlace(db, f);
    }
  }

  // What is left of both without the last of the first and its namesake
  lemma OneLess(gs: seq<Field>, fs: seq<Field>) returns (j: nat)
    requires Sound(gs) && Sound(fs) && Covers(gs, fs) && gs != []
    ensures j < |fs| && fs[j].name == gs[|gs| - 1].name && Widens(gs[|gs| - 1], fs[j])
    ensures Sound(gs[..|gs| - 1]) && Sound(Without(fs, j)) && Covers(gs[..|gs| - 1], Without(fs, j))
  {
    var g, front := gs[|gs| - 1], gs[..|gs| - 1];
    assert g in gs;
    j := IndexOf(fs, g.name);
    FindsItself(fs, fs[j]);
    forall h | h in front
      ensures h in gs && FindField(Without(fs, j), h.name).Some? && Widens(h, FindField(Without(fs, j), h.name).value)
    {
      var k :| 0 <= k < |front| && front[k] == h;
      assert gs[k] == h && gs[k].name != g.name;
      FindWithout(fs, j, h.name);
    }
  }

  // Beside the bytes of the fields of the first there is room for what a field of the second has more.
  lemma {:induction false} RoomBeside(gs: seq<Field>, fs: seq<Field>, f: Field)
    requires Sound(gs) && Sound(fs) && Covers(gs, fs) && f in fs
    ensures Widths(fs) >= Widths(gs) + Width(f) - (match FindField(gs, f.name) case None => 0 case Some(g) => Width(g))
    decreases |gs|
  {
    if gs == [] {
      var k :| 0 <= k < |fs| && fs[k] == f;
      WidthsGrow(fs, k, |fs|);
      assert fs[..|fs|] == fs;
    } else {
      var g, front := gs[|gs| - 1], gs[..|gs| - 1];
      var j := OneLess(gs, fs);
      var rest := Without(fs, j);
      assert g in gs;
      WidthsWithout(fs, j);
      WidthWidens(g, fs[j]);
      FindsItself(gs, g);
      if f == fs[j] {
        RoomAtAll(front, rest);
      } else {
        var k :| 0 <= k < |fs| && fs[k] == f;
        assert f in rest by {
          assert rest[if k < j then k else k - 1] == f;
        }
        assert f.name != g.name;
        FindWithout(gs, |gs| - 1, f.name);
        assert Without(gs, |gs| - 1) == front;
        RoomBeside(front, rest, f);
      }
    }
  }

  lemma {:induction false} RoomAtAll(gs: seq<Field>, fs: seq<Field>)
    requires Sound(gs) && Sound(fs) && Covers(gs, fs)
    ensures Widths(fs) >= Widths(gs)
    decreases |gs|
  {
    if gs != [] {
      var j := OneLess(gs, fs);
      assert gs[|gs| - 1] in gs;
      WidthsWithout(fs, j);
      WidthWidens(gs[|gs| - 1], fs[j]);
      RoomAtAll(gs[..|gs| - 1], Without(fs, j));
    }
  }

  // In an upgrade of the same size every field has a namesake just like it.
  lemma NamesakesAlike(from: Db, to: Db, f: Field)
    requires Upgrades(from, to) && from.size == to.size && f in to.fields
    ensures FindField(from.fields, f.name).Some? && Alike(FindField(from.fields, f.name).value, f)
    ensures FindField(to.fields, f.name) == Some(f)
  {
    LaidOutSound(from);
    LaidOutSound(to);
    RoomBeside(from.fields, to.fields, f);
    FindsItself(to.fields, f);
    assert Width(f) >= 1;
    var g := FindField(from.fields, f.name).value;
    WidthWidens(g, f);
  }

  /** A block is copied to a schema that upgrades its own exactly when it is copied back from it. */
  lemma ChangeIsMutual(from: Db, to: Db)
    requires Upgrades(from, to)
    ensures Changed(from, to) <==> Changed(to, from)
  {
    if from.size == to.size && |from.fields| == |to.fields| {
      forall f | f in to.fields && Differs(from, f) ensures Changed(to, from) {
        DifferThere(from, to, f);
      }
      forall g | g in from.fields && Differs(to, g) ensures Changed(from, to) {
        DifferBack(from, to, g);
      }
    }
  }

  lemma DifferThere(from: Db, to: Db, f: Field)
    requires Upgrades(from, to) && from.size == to.size && f in to.fields && Differs(from, f)
    ensures var g := FindField(from.fields, f.name); g.Some? && Differs(to, g.value)
  {
    NamesakesAlike(from, to, f);
    var other := FindField(from.fields, Cut(f.name)).value;
    NamesakesAlike(from, to, FindField(to.fields, other.name).value);
    FindsItself(from.fields, other);
  }

  lemma DifferBack(from: Db, to: Db, g: Field)
    requires Upgrades(from, to) && from.size == to.size && g in from.fields && Differs(to, g)
    ensures Differs(from, FindField(to.fields, g.name).value)
  {
    NamesakesAlike(from, to, FindField(to.fields, g.name).value);
    FindsItself(from.fields, g);
    NamesakesAlike(from, to, FindField(to.fields, Cut(g.name)).value);
  }

  lemma OneRecord(cal: Calendar, from: Db, to: Db, rec: seq<Byte>)
    requires IsRecord(from, rec)
    ensures Records(cal, from, to, rec) == Converted(cal, from, to, rec) && IsBlock(from, rec, 1)
  {
    assert rec[..from.size] == rec && rec[from.size..] == [];
    EmptyRight(Converted(cal, from, to, rec));
    assert Times(1, from.size) == Times(0, from.size) + from.size;
  }

  ghost predicate GoesBack(cal: Calendar, from: Db, to: Db)
    requires from.size > 0 && to.size > 0
  {
    forall data, n: nat :: IsBlock(from, data, n) ==>
      ConvertedBlock(cal, to, from, ConvertedBlock(cal, from, to, data)) == data
  }

  /** Blocks converted to a schema that upgrades their own and back are themselves again, all of them, if and only
      if the way taken is the whole copy or every field is reached. */
  lemma UpgradesComeBackExactly(cal: Calendar, from: Db, to: Db)
    requires Upgrades(from, to)
    ensures GoesBack(cal, from, to) <==> !Changed(from, to) || Reached(from, to)
  {
    ChangeIsMutual(from, to);
    if Changed(from, to) {
      if Reached(from, to) {
        forall data, n: nat | IsBlock(from, data, n)
          ensures ConvertedBlock(cal, to, from, ConvertedBlock(cal, from, to, data)) == data
        {
          RecordsBack(cal, from, to, data, n);
        }
      } else {
        BlockIsLost(cal, from, to);
      }
    }
  }

  lemma BlockIsLost(cal: Calendar, from: Db, to: Db)
    requires Upgrades(from, to) && Changed(from, to) && Changed(to, from) && !Reached(from, to)
    ensures !GoesBack(cal, from, to)
  {
    RecordsBackExactly(cal, from, to);
    var rec :| IsRecord(from, rec) && Converted(cal, to, from, Converted(cal, from, to, rec)) != rec;
    OneRecord(cal, from, to, rec);
    AssembledLength(Converting(cal, from, to, rec), to.fields);
    OneRecord(cal, to, from, Converted(cal, from, to, rec));
    assert ConvertedBlock(cal, to, from, ConvertedBlock(cal, from, to, rec)) != rec;
  }

  // ---------------------------------------------------------------------------
  // Upgrades that keep the order of the fields

  /** The names of from stand in to in the same order. */
  ghost predicate KeepsOrder(from: Db, to: Db) {
    forall j, k :: 0 <= j < k < |from.fields| ==>
      IndexOf(to.fields, from.fields[j].name) < IndexOf(to.fields, from.fields[k].name)
  }

  lemma {:induction false} IndexAtLeast(from: Db, to: Db, k: nat)
    requires KeepsOrder(from, to) && k < |from.fields|
    ensures IndexOf(to.fields, from.fields[k].name) >= k
  {
    if k > 0 {
      IndexAtLeast(from, to, k - 1);
    }
  }

  lemma {:induction false} IndexAtMost(from: Db, to: Db, k: nat)
    requires Upgrades(from, to) && KeepsOrder(from, to) && |from.fields| == |to.fields| && k < |from.fields|
    ensures IndexOf(to.fields, from.fields[k].name) <= k
    decreases |from.fields| - k
  {
    assert from.fields[k] in from.fields;
    if k + 1 < |from.fields| {
      IndexAtMost(from, to, k + 1);
    }
  }

  // With as many fields, the schemas have the same names in the same places.
  lemma SameNames(from: Db, to: Db, k: nat)
    requires Upgrades(from, to) && KeepsOrder(from, to) && |from.fields| == |to.fields| && k < |from.fields|
    ensures from.fields[k].name == to.fields[k].name
  {
    IndexAtLeast(from, to, k);
    IndexAtMost(from, to, k);
    assert from.fields[k] in from.fields;
  }

  lemma {:induction false} SameOffsets(from: Db, to: Db, k: nat)
    requires |from.fields| == |to.fields| && k <= |from.fields|
    requires forall j :: 0 <= j < |from.fields| ==> Alike(from.fields[j], to.fields[j])
    ensures Widths(from.fields[..k]) == Widths(to.fields[..k])
  {
    if k > 0 {
      SameOffsets(from, to, k - 1);
      assert from.fields[..k][..k - 1] == from.fields[..k - 1] && to.fields[..k][..k - 1] == to.fields[..k - 1];
    }
  }

  /** Where every field is reached and the block is copied, the copy is what converting field by field gives
      exactly when the order is kept. */
  lemma OrderAligns(from: Db, to: Db)
    requires Upgrades(from, to) && Reached(from, to) && !Changed(from, to)
    ensures KeepsOrder(from, to) <==> Aligned(from, to)
  {
    if KeepsOrder(from, to) {
      KeptAligns(from, to);
    }
    if Aligned(from, to) {
      forall j: nat, k: nat | j < k < |from.fields|
        ensures IndexOf(to.fields, from.fields[j].name) < IndexOf(to.fields, from.fields[k].name)
      {
        AlignedKeeps(from, to, j, k);
      }
    }
  }

  lemma SameFields(from: Db, to: Db, k: nat)
    requires Upgrades(from, to) && KeepsOrder(from, to) && from.size == to.size && |from.fields| == |to.fields| &&
      k < |from.fields|
    ensures Alike(from.fields[k], to.fields[k]) && FindField(to.fields, from.fields[k].name) == Some(to.fields[k])
  {
    SameNames(from, to, k);
    NamesakesAlike(from, to, to.fields[k]);
    FindsItself(from.fields, from.fields[k]);
  }

  lemma KeptAligns(from: Db, to: Db)
    requires Upgrades(from, to) && Reached(from, to) && KeepsOrder(from, to)
    requires from.size == to.size && |from.fields| == |to.fields|
    ensures Aligned(from, to)
  {
    forall f | f in to.fields ensures Match(from, to, f).Some? && Match(from, to, f).value.offset == f.offset {
      var k :| 0 <= k < |to.fields| && to.fields[k] == f;
      MatchesSame(from, to, k);
      AllAlike(from, to);
      SamePlace(from, to, k);
    }
  }

  lemma AllAlike(from: Db, to: Db)
    requires Upgrades(from, to) && KeepsOrder(from, to) && from.size == to.size && |from.fields| == |to.fields|
    ensures forall k :: 0 <= k < |from.fields| ==> Alike(from.fields[k], to.fields[k])
  {
    forall k | 0 <= k < |from.fields| ensures Alike(from.fields[k], to.fields[k]) {
      SameFields(from, to, k);
    }
  }

  lemma MatchesSame(from: Db, to: Db, k: nat)
    requires Upgrades(from, to) && Reached(from, to) && KeepsOrder(from, to) && from.size == to.size
    requires |from.fields| == |to.fields| && k < |from.fields|
    ensures Match(from, to, to.fields[k]) == Some(from.fields[k])
  {
    SameFields(from, to, k);
    MatchesBoth(from, to, from.fields[k]);
  }

  lemma SamePlace(from: Db, to: Db, k: nat)
    requires LaidOut(from) && LaidOut(to) && |from.fields| == |to.fields| && k < |from.fields|
    requires forall j :: 0 <= j < |from.fields| ==> Alike(from.fields[j], to.fields[j])
    ensures from.fields[k].offset == to.fields[k].offset
  {
    SameOffsets(from, to, k);
    assert FieldAt(from.fields, k) && FieldAt(to.fields, k);
  }

  // The field of an earlier place in a schema begins earlier.
  lemma EarlierBegins(db: Db, j: nat, k: nat)
    requires LaidOut(db) && j < k < |db.fields|
    ensures db.fields[j].offset < db.fields[k].offset
  {
    assert FieldAt(db.fields, j) && FieldAt(db.fields, k);
    WidthsGrow(db.fields, j, k);
    assert Width(db.fields[j]) >= 1;
  }

  lemma AlignedKeeps(from: Db, to: Db, j: nat, k: nat)
    requires Upgrades(from, to) && Reached(from, to) && Aligned(from, to) && j < k < |from.fields|
    ensures IndexOf(to.fields, from.fields[j].name) < IndexOf(to.fields, from.fields[k].name)
  {
    SameBeginning(from, to, from.fields[j]);
    SameBeginning(from, to, from.fields[k]);
    EarlierBegins(from, j, k);
    BeginsEarlier(to, IndexOf(to.fields, from.fields[j].name), IndexOf(to.fields, from.fields[k].name));
  }

  lemma BeginsEarlier(db: Db, j: nat, k: nat)
    requires LaidOut(db) && j < |db.fields| && k < |db.fields| && db.fields[j].offset < db.fields[k].offset
    ensures j < k
  {
    if k < j {
      EarlierBegins(db, k, j);
    }
  }

  lemma SameBeginning(from: Db, to: Db, g: Field)
    requires Upgrades(from, to) && Reached(from, to) && Aligned(from, to) && g in from.fields
    ensures var k := IndexOf(to.fields, g.name); k < |to.fields| && to.fields[k].offset == g.offset
  {
    MatchesBoth(from, to, g);
    FindsItself(to.fields, to.fields[IndexOf(to.fields, g.name)]);
  }

  /** Whichever way is taken, a block of a schema becomes what converting field by field makes of it, where every
      field is reached and the order is kept. */
  lemma UpgradeConverts(cal: Calendar, from: Db, to: Db, data: seq<Byte>, n: nat)
    requires Upgrades(from, to) && Reached(from, to) && KeepsOrder(from, to) && IsBlock(from, data, n)
    ensures ConvertedBlock(cal, from, to, data) == Records(cal, from, to, data) &&
      IsBlock(to, ConvertedBlock(cal, from, to, data), n)
  {
    RecordsBack(cal, from, to, data, n);
    if !Changed(from, to) {
      OrderAligns(from, to);
      RecordsCopy(cal, from, to, data, n);
    }
  }
}
