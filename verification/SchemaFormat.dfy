/** Records of the dynamic schemas of src/core/sis_dynamic.c: fields laid out one after another, and what
    the bytes of a field become when a record is converted to another schema. Floating-point styles are
    not part of this model. */
module SchemaFormat {
  import opened Memory
  import opened Options
  import opened Sequences

  // A name in the letters the maps of fields compare by: small ones.
  type Name = seq<Byte>

  // What is kept of a name in the field itself, and looked up by when fields are matched
  const NAME_SIZE := 31

  datatype Style = Int | Uint | Char | Tick | Sec | Minu | Date

  datatype Field = Field(name: Name, style: Style, len: nat, count: nat, offset: nat)

  datatype Db = Db(fields: seq<Field>, size: nat)

  // A number of 64 bits
  type Stamp = n: nat | n < TWO_64

  // The calendar functions of src/core/sis_time.c: the day of a second, and noon of a day.
  datatype Calendar = Calendar(idate: nat -> nat, noon: nat -> Stamp)

  const SIZE_LIMIT := 0x1_0000

  function Lower(b: Byte): Byte { if 65 <= b <= 90 then b + 32 else b }

  function Fold(name: seq<Byte>): (r: Name)
    ensures |r| == |name|
  {
    seq(|name|, i requires 0 <= i < |name| => Lower(name[i]))
  }

  predicate SameLetter(a: Byte, b: Byte) {
    a == b || ('A' as int <= a <= 'Z' as int && b == a + 32) || ('A' as int <= b <= 'Z' as int && a == b + 32)
  }

  /** Names are the same if they differ at most in the case of their letters. */
  lemma FoldsAlike(a: seq<Byte>, b: seq<Byte>)
    ensures Fold(a) == Fold(b) <==> |a| == |b| && forall i :: 0 <= i < |a| ==> SameLetter(a[i], b[i])
  {
    if Fold(a) == Fold(b) {
      forall i | 0 <= i < |a| ensures SameLetter(a[i], b[i]) {
        assert Fold(a)[i] == Fold(b)[i];
      }
    }
  }

  function Cut(name: Name): (r: Name)
    ensures |r| <= NAME_SIZE
  {
    if |name| <= NAME_SIZE then name else name[..NAME_SIZE]
  }

  // n * len, by repeated addition
  function Times(n: nat, len: nat): nat { if n == 0 then 0 else Times(n - 1, len) + len }

  lemma {:induction false} TimesIsProduct(n: nat, len: nat)
    ensures Times(n, len) == n * len
  {
    if n > 0 {
      TimesIsProduct(n - 1, len);
      assert n * len == (n - 1) * len + len;
    }
  }

  lemma {:induction false} TimesGrows(i: nat, n: nat, len: nat)
    requires i < n
    ensures Times(i, len) + len <= Times(n, len)
  {
    if i < n - 1 {
      TimesGrows(i, n - 1, len);
    }
  }

  function Width(f: Field): nat { Times(f.count, f.len) }

  function Widths(fs: seq<Field>): nat {
    if fs == [] then 0 else Widths(fs[..|fs| - 1]) + Width(fs[|fs| - 1])
  }

  /** Fields stand one after another from 0 on, none empty, each under a name of its own, and all fit in
      an unsigned short. */
  ghost predicate LaidOut(db: Db) {
    && db.size == Widths(db.fields) && 0 < db.size < SIZE_LIMIT
    && (forall k: nat :: k < |db.fields| ==> FieldAt(db.fields, k))
    && forall j, k :: 0 <= j < k < |db.fields| ==> db.fields[j].name != db.fields[k].name
  }

  ghost predicate FieldAt(fs: seq<Field>, k: nat)
    requires k < |fs|
  {
    fs[k].len >= 1 && fs[k].count >= 1 && fs[k].offset == Widths(fs[..k])
  }

  // ---------------------------------------------------------------------------
  // A schema from its configuration

  // A field as configured.
  datatype Spec = Spec(name: seq<Byte>, style: Style, len: int, count: int)

  // Fields too short, too long, or not there at all are passed over.
  predicate Legal(s: Spec) { 1 <= s.len < SIZE_LIMIT && 1 <= s.count < SIZE_LIMIT }

  predicate Follows(f: Field, s: Spec) {
    f.name == Fold(s.name) && f.style == s.style && f.len == s.len && f.count == s.count
  }

  function LegalOnes(specs: seq<Spec>): seq<Spec> {
    if specs == [] then [] else
      var last := specs[|specs| - 1];
      LegalOnes(specs[..|specs| - 1]) + if Legal(last) then [last] else []
  }

  /** A field is passed over unless its length and its count are between 1 and 65535. */
  lemma {:induction false} LegalAre(specs: seq<Spec>)
    ensures forall s :: s in LegalOnes(specs) <==> s in specs && 0 < s.len <= 65535 && 0 < s.count <= 65535
    ensures forall k :: 0 <= k <= |specs| ==> LegalOnes(specs[..k]) <= LegalOnes(specs)
  {
    if specs != [] {
      var front := specs[..|specs| - 1];
      LegalAre(front);
      assert specs == front + [specs[|specs| - 1]];
      forall k | 0 <= k <= |specs| ensures LegalOnes(specs[..k]) <= LegalOnes(specs) {
        if k < |specs| {
          assert specs[..k] == front[..k];
        } else {
          assert specs[..k] == specs;
        }
      }
    }
  }

  // No two names are the same but for case.
  predicate NamesApart(specs: seq<Spec>) {
    forall j, k :: 0 <= j < k < |specs| ==> Fold(specs[j].name) != Fold(specs[k].name)
  }

  // What an unsigned short keeps of a number
  function Short(n: nat): nat { n % SIZE_LIMIT }

  lemma ShortIs(n: nat)
    ensures Short(n) < SIZE_LIMIT && (n < SIZE_LIMIT ==> Short(n) == n)
  {}

  function FieldOf(s: Spec, offset: nat): Field
    requires Legal(s)
  {
    Field(Fold(s.name), s.style, s.len, s.count, Short(offset))
  }

  // All the bytes the legal fields ask for
  function Total(specs: seq<Spec>): nat {
    if specs == [] then 0 else
      var last := specs[|specs| - 1];
      Total(specs[..|specs| - 1]) + if Legal(last) then Times(last.count, last.len) else 0
  }

  // The place of the first field of that name, or behind all
  function IndexOf(fs: seq<Field>, name: Name): (k: nat)
    ensures k <= |fs| && (k < |fs| ==> fs[k].name == name)
    ensures k == |fs| ==> forall f :: f in fs ==> f.name != name
  {
    if fs == [] || fs[0].name == name then 0 else 1 + IndexOf(fs[1..], name)
  }

  // sis_map_list_set: a name that is there keeps its place and gets the new field.
  function SetField(fs: seq<Field>, f: Field): seq<Field> {
    var k := IndexOf(fs, f.name);
    if k < |fs| then fs[k := f] else fs + [f]
  }

  function Entered(specs: seq<Spec>): seq<Field> {
    if specs == [] then [] else
      var front, last := specs[..|specs| - 1], specs[|specs| - 1];
      if Legal(last) then SetField(Entered(front), FieldOf(last, Total(front))) else Entered(front)
  }

  /** sis_dynamic_db_create: the legal fields, each begun where the one before it ends. A name given twice stands
      for the later field, in the place of the earlier one, whose bytes nobody owns any more; offsets and the
      record size are kept in unsigned shorts. So the layout is sound when names are apart and all fits, and
      when just one of the two fails it is not. */
  method CreateDb(specs: seq<Spec>) returns (db: Option<Db>)
    ensures db == None <==> LegalOnes(specs) == []
    ensures db.Some? ==> db.value == Db(Entered(specs), Short(Total(specs)))
    ensures db.Some? && NamesApart(LegalOnes(specs)) ==>
      && |db.value.fields| == |LegalOnes(specs)|
      && forall k :: 0 <= k < |db.value.fields| ==> Follows(db.value.fields[k], LegalOnes(specs)[k])
    ensures db.Some? && (NamesApart(LegalOnes(specs)) || Total(specs) < SIZE_LIMIT) ==>
      (LaidOut(db.value) <==> NamesApart(LegalOnes(specs)) && Total(specs) < SIZE_LIMIT)
  {
    var fields: seq<Field>, offset: nat := [], 0;
    var i := 0;
    while i < |specs|
      invariant 0 <= i <= |specs| && fields == Entered(specs[..i]) && offset == Total(specs[..i])
    {
      assert specs[..i + 1][..i] == specs[..i];
      if Legal(specs[i]) {
        fields := SetField(fields, FieldOf(specs[i], offset));
        offset := offset + Times(specs[i].count, specs[i].len);
      }
      i := i + 1;
    }
    assert specs[..i] == specs;
    NothingLegal(specs);
    if offset == 0 {
      return None;
    }
    CreatedApart(specs);
    CreatedTwice(specs);
    return Some(Db(fields, Short(offset)));
  }

  lemma {:induction false} NothingLegal(specs: seq<Spec>)
    ensures Total(specs) == 0 <==> LegalOnes(specs) == []
  {
    if specs != [] {
      NothingLegal(specs[..|specs| - 1]);
    }
  }

  // Where the field begins, as an unsigned short holds it
  ghost predicate FieldStored(fs: seq<Field>, k: nat)
    requires k < |fs|
  {
    fs[k].len >= 1 && fs[k].count >= 1 && fs[k].offset == Short(Widths(fs[..k]))
  }

  // The legal fields among the specs, laid out one after another
  ghost predicate Laid(specs: seq<Spec>, fields: seq<Field>, offset: nat) {
    && offset == Widths(fields) && |fields| == |LegalOnes(specs)|
    && forall k: nat :: k < |fields| ==> FieldStored(fields, k) && Follows(fields[k], LegalOnes(specs)[k])
  }

  lemma {:induction false} EnteredLaid(specs: seq<Spec>)
    requires NamesApart(LegalOnes(specs))
    ensures Laid(specs, Entered(specs), Total(specs))
  {
    if specs != [] {
      var front, last := specs[..|specs| - 1], specs[|specs| - 1];
      var ones := LegalOnes(front);
      if Legal(last) {
        assert forall k :: 0 <= k < |ones| ==> ones[k] == LegalOnes(specs)[k];
        EnteredLaid(front);
        assert LegalOnes(specs)[|ones|] == last;
        NewName(ones, Entered(front), last);
        FieldAdded(Entered(front), FieldOf(last, Total(front)));
      } else {
        EmptyRight(ones);
        EnteredLaid(front);
      }
    }
  }

  lemma NewName(ones: seq<Spec>, fs: seq<Field>, s: Spec)
    requires NamesApart(ones + [s]) && |fs| == |ones| && forall k: nat :: k < |fs| ==> Follows(fs[k], ones[k])
    ensures IndexOf(fs, Fold(s.name)) == |fs|
  {
    forall k: nat | k < |fs| ensures fs[k].name != Fold(s.name) {
      assert Follows(fs[k], ones[k]);
      assert (ones + [s])[k] == ones[k] && (ones + [s])[|ones|] == s;
    }
  }

  lemma FieldAdded(fs: seq<Field>, f: Field)
    requires (forall k: nat :: k < |fs| ==> FieldStored(fs, k)) && f.len >= 1 && f.count >= 1 &&
      f.offset == Short(Widths(fs))
    ensures (forall k: nat :: k < |fs + [f]| ==> FieldStored(fs + [f], k)) && Widths(fs + [f]) == Widths(fs) + Width(f)
  {
    assert (fs + [f])[..|fs|] == fs;
    forall k: nat | k < |fs + [f]| ensures FieldStored(fs + [f], k) {
      if k < |fs| {
        assert FieldStored(fs, k) && (fs + [f])[..k] == fs[..k];
      }
    }
  }

  // With names apart the layout is sound exactly when all fits.
  lemma CreatedApart(specs: seq<Spec>)
    requires NamesApart(LegalOnes(specs)) ==> LegalOnes(specs) != []
    ensures NamesApart(LegalOnes(specs)) ==>
      && Laid(specs, Entered(specs), Total(specs))
      && (LaidOut(Db(Entered(specs), Short(Total(specs)))) <==> Total(specs) < SIZE_LIMIT)
  {
    if NamesApart(LegalOnes(specs)) {
      EnteredLaid(specs);
      NamesFollow(LegalOnes(specs), Entered(specs));
      StoredIsLaidOut(Entered(specs));
    }
  }

  lemma FieldFits(fs: seq<Field>, k: nat)
    requires k < |fs| && FieldStored(fs, k) && Widths(fs) < SIZE_LIMIT
    ensures FieldAt(fs, k)
  {
    WidthsGrow(fs, k, |fs|);
    assert fs[..|fs|] == fs;
    ShortIs(Widths(fs[..k]));
  }

  // The shorts hold what was to be held exactly when all of it is below the limit.
  lemma StoredIsLaidOut(fs: seq<Field>)
    requires fs != [] && forall k: nat :: k < |fs| ==> FieldStored(fs, k)
    requires forall j, k :: 0 <= j < k < |fs| ==> fs[j].name != fs[k].name
    ensures LaidOut(Db(fs, Short(Widths(fs)))) <==> Widths(fs) < SIZE_LIMIT
  {
    ShortIs(Widths(fs));
    if Widths(fs) < SIZE_LIMIT {
      assert FieldStored(fs, |fs| - 1);
      forall k: nat | k < |fs| ensures FieldAt(fs, k) {
        FieldFits(fs, k);
      }
    }
  }

  lemma NamesFollow(specs: seq<Spec>, fs: seq<Field>)
    requires NamesApart(specs) && |fs| == |specs| && forall k: nat :: k < |fs| ==> Follows(fs[k], specs[k])
    ensures forall j, k :: 0 <= j < k < |fs| ==> fs[j].name != fs[k].name
  {
    forall j: nat, k: nat | j < k < |fs| ensures fs[j].name != fs[k].name {
      assert Follows(fs[j], specs[j]) && Follows(fs[k], specs[k]);
    }
  }

  ghost predicate HasName(fs: seq<Field>, name: Name) { exists k :: 0 <= k < |fs| && fs[k].name == name }

  lemma {:induction false} WidthsUpdate(fs: seq<Field>, k: nat, f: Field)
    requires k < |fs|
    ensures Widths(fs[k := f]) == Widths(fs) - Width(fs[k]) + Width(f)
    decreases |fs|
  {
    var front := fs[..|fs| - 1];
    if k < |front| {
      WidthsUpdate(front, k, f);
      assert fs[k := f][..|fs| - 1] == front[k := f];
    } else {
      assert fs[k := f][..|fs| - 1] == front;
    }
  }

  lemma SetKeepsNames(fs: seq<Field>, f: Field, name: Name)
    requires HasName(fs, name) || name == f.name
    ensures HasName(SetField(fs, f), name)
  {
    var k, gs := IndexOf(fs, f.name), SetField(fs, f);
    if name == f.name {
      assert gs[k].name == name;
    } else {
      var j :| 0 <= j < |fs| && fs[j].name == name;
      assert gs[j].name == name;
    }
  }

  // The part of it about names, and the part about bytes
  ghost predicate NamesKept(ones: seq<Spec>, fs: seq<Field>) {
    forall j :: 0 <= j < |ones| ==> HasName(fs, Fold(ones[j].name))
  }

  ghost predicate BytesGiven(fs: seq<Field>, offset: nat, apart: bool) {
    NoneEmpty(fs) && Widths(fs) <= offset && (Widths(fs) == offset ==> apart)
  }

  ghost predicate NoneEmpty(fs: seq<Field>) { forall k :: 0 <= k < |fs| ==> Width(fs[k]) >= 1 }

  lemma NamesStep(ones: seq<Spec>, fs: seq<Field>, s: Spec, f: Field)
    requires NamesKept(ones, fs) && f.name == Fold(s.name)
    ensures NamesKept(ones + [s], SetField(fs, f))
  {
    forall j | 0 <= j < |ones + [s]| ensures HasName(SetField(fs, f), Fold((ones + [s])[j].name)) {
      assert j < |ones| ==> (ones + [s])[j] == ones[j];
      SetKeepsNames(fs, f, Fold((ones + [s])[j].name));
    }
  }

  lemma SomeWidth(f: Field)
    requires f.len >= 1 && f.count >= 1
    ensures Width(f) >= 1
  {}

  lemma BytesStep(fs: seq<Field>, f: Field, offset: nat, apart: bool)
    requires BytesGiven(fs, offset, apart) && Width(f) >= 1
    ensures BytesGiven(SetField(fs, f), offset + Width(f), apart && IndexOf(fs, f.name) == |fs|)
  {
    var k := IndexOf(fs, f.name);
    if k < |fs| {
      WidthsUpdate(fs, k, f);
    } else {
      assert (fs + [f])[..|fs|] == fs;
    }
  }

  lemma ApartStep(ones: seq<Spec>, fs: seq<Field>, s: Spec)
    requires NamesKept(ones, fs) && NamesApart(ones) && IndexOf(fs, Fold(s.name)) == |fs|
    ensures NamesApart(ones + [s])
  {
    forall j | 0 <= j < |ones| ensures Fold(ones[j].name) != Fold(s.name) {
      assert HasName(fs, Fold(ones[j].name));
    }
  }

  lemma {:induction false} EnteredSpread(specs: seq<Spec>)
    ensures NamesKept(LegalOnes(specs), Entered(specs))
    ensures BytesGiven(Entered(specs), Total(specs), NamesApart(LegalOnes(specs)))
  {
    if specs != [] {
      var front, last := specs[..|specs| - 1], specs[|specs| - 1];
      EnteredSpread(front);
      var fs, ones := Entered(front), LegalOnes(front);
      if Legal(last) {
        var f := FieldOf(last, Total(front));
        NamesStep(ones, fs, last, f);
        SomeWidth(f);
        BytesStep(fs, f, Total(front), NamesApart(ones));
        if NamesApart(ones) && IndexOf(fs, f.name) == |fs| {
          ApartStep(ones, fs, last);
        }
      } else {
        EmptyRight(ones);
      }
    }
  }

  // Where all fits, the layout is sound only with names apart.
  lemma CreatedTwice(specs: seq<Spec>)
    ensures Total(specs) < SIZE_LIMIT && LaidOut(Db(Entered(specs), Short(Total(specs)))) ==>
      NamesApart(LegalOnes(specs))
  {
    EnteredSpread(specs);
    ShortIs(Total(specs));
  }

  /** When both fail the layout may be sound by chance: a field of 65536 bytes and again one of four under its name
      leave that one alone, at 0. */
  lemma SoundByChance(name: seq<Byte>)
    ensures var specs := [Spec(name, Char, 0x8000, 2), Spec(name, Int, 4, 1)];
      && !NamesApart(LegalOnes(specs)) && Total(specs) > SIZE_LIMIT
      && LaidOut(Db(Entered(specs), Short(Total(specs)))) && Entered(specs) == [Field(Fold(name), Int, 4, 1, 0)]
  {
    var one, two := Spec(name, Char, 0x8000, 2), Spec(name, Int, 4, 1);
    var f := Field(Fold(name), Int, 4, 1, 0);
    ChanceTotal(one, two);
    ChanceEntered(one, two, f);
    assert Fold(LegalOnes([one, two])[0].name) == Fold(LegalOnes([one, two])[1].name);
    assert [f][..0] == [] && Times(1, 4) == Times(0, 4) + 4;
    assert FieldAt([f], 0) && Widths([f]) == 4;
  }

  lemma ChanceTotal(one: Spec, two: Spec)
    requires one.len == 0x8000 && one.count == 2 && two.len == 4 && two.count == 1
    ensures Total([one]) == SIZE_LIMIT && Total([one, two]) == SIZE_LIMIT + 4 && LegalOnes([one, two]) == [one, two]
  {
    assert [one, two][..1] == [one] && [one][..0] == [];
    assert Times(2, 0x8000) == Times(1, 0x8000) + 0x8000 && Times(1, 0x8000) == Times(0, 0x8000) + 0x8000;
    assert Times(1, 4) == Times(0, 4) + 4;
    assert LegalOnes([one]) == [one];
  }

  lemma ChanceEntered(one: Spec, two: Spec, f: Field)
    requires Legal(one) && Legal(two) && one.name == two.name && f == FieldOf(two, 0) && Total([one]) == SIZE_LIMIT
    ensures Entered([one, two]) == [f]
  {
    assert [one, two][..1] == [one] && [one][..0] == [];
    assert Entered([one]) == [FieldOf(one, 0)] && FieldOf(two, SIZE_LIMIT) == f;
    assert IndexOf([FieldOf(one, 0)], f.name) == 0 && [FieldOf(one, 0)][0 := f] == [f];
  }

  function Zeros(n: nat): (r: seq<Byte>)
    ensures |r| == n
  {
    seq(n, _ => 0)
  }

  // ---------------------------------------------------------------------------
  // Numbers, two's complement

  function SignedNumber(b: seq<Byte>): int {
    if b == [] then 0
    else if |b| == 1 then if b[0] < 128 then b[0] else b[0] - 256
    else b[0] + 256 * SignedNumber(b[1..])
  }

  predicate IsNumberLength(n: nat) { n == 1 || n == 2 || n == 4 || n == 8 }

  // _sis_field_get_int, _sis_field_get_uint
  function GetInt(b: seq<Byte>): int { if IsNumberLength(|b|) then SignedNumber(b) else 0 }
  function GetUint(b: seq<Byte>): nat { if IsNumberLength(|b|) then Number(b) else 0 }

  // _sis_field_set_int and _sis_field_set_uint on a field of zeros
  function SetNumber(v: int, len: nat): (r: seq<Byte>)
    ensures |r| == len
  {
    if IsNumberLength(len) then Bytes(v, len) else Zeros(len)
  }

  lemma {:induction false} SignExtends(b: seq<Byte>, k: nat)
    requires 1 <= |b| <= k
    ensures SignedNumber(Bytes(SignedNumber(b), k)) == SignedNumber(b)
    ensures Bytes(SignedNumber(b), |b|) == b
    decreases |b|
  {
    var v := SignedNumber(b);
    if |b| == 1 {
      assert v / 256 == (if b[0] < 128 then 0 else -1) && v % 256 == b[0];
      AllSigns(v / 256, k - 1);
      assert Bytes(v / 256, 0) == [];
    } else {
      SignExtends(b[1..], k - 1);
      assert v / 256 == SignedNumber(b[1..]) && v % 256 == b[0];
      assert Bytes(v, k)[1..] == Bytes(v / 256, k - 1);
    }
  }

  lemma {:induction false} AllSigns(s: int, k: nat)
    requires s == 0 || s == -1
    ensures k > 0 ==> SignedNumber(Bytes(s, k)) == s
  {
    if k > 0 {
      assert s / 256 == s && s % 256 == -255 * s;
      AllSigns(s, k - 1);
      assert Bytes(s, k)[1..] == Bytes(s, k - 1);
    }
  }

  lemma {:induction false} ZeroExtends(b: seq<Byte>, k: nat)
    requires |b| <= k
    ensures Number(Bytes(Number(b), k)) == Number(b)
    ensures Bytes(Number(b), |b|) == b
    decreases k
  {
    if k > 0 {
      var rest := if b == [] then [] else b[1..];
      ZeroExtends(rest, k - 1);
      assert Number(b) / 256 == Number(rest);
      assert Bytes(Number(b), k)[1..] == Bytes(Number(b) / 256, k - 1);
    }
  }

  // _sis_time_unit_convert, in 64 bits
  function TimeConvert(cal: Calendar, from: Style, to: Style, t: nat): nat {
    match (from, to)
    case (Sec, Tick) => t * 1000 % TWO_64
    case (Sec, Minu) => t / 60
    case (Sec, Date) => cal.idate(t)
    case (Tick, Sec) => t / 1000
    case (Tick, Minu) => t / 1000 / 60
    case (Tick, Date) => cal.idate(t / 1000)
    case (Minu, Tick) => t * 60 * 1000 % TWO_64
    case (Minu, Sec) => t * 60 % TWO_64
    case (Minu, Date) => cal.idate(t * 60 % TWO_64)
    case (Date, Tick) => cal.noon(t) * 1000 % TWO_64
    case (Date, Sec) => cal.noon(t)
    case (Date, Minu) => cal.noon(t) / 60
    case _ => t
  }

  predicate IsTime(s: Style) { s.Tick? || s.Sec? || s.Minu? || s.Date? }

  // ---------------------------------------------------------------------------
  // One value, one field, one record

  // What one value of field g becomes in field f.
  function NewValue(cal: Calendar, g: Field, f: Field, x: seq<Byte>): (r: seq<Byte>)
    requires |x| == g.len
    ensures |r| == f.len
  {
    if g.style == f.style && g.len == f.len then x
    else if g.style.Char? && f.style.Char? then if g.len <= f.len then x + Zeros(f.len - g.len) else x[..f.len]
    else if g.style.Char? || f.style.Char? then Zeros(f.len)
    else if g.style.Int? then SetNumber(GetInt(x), f.len)
    else if IsTime(f.style) then SetNumber(TimeConvert(cal, g.style, f.style, GetUint(x)), f.len)
    else SetNumber(GetUint(x), f.len)
  }

  function Min(a: nat, b: nat): nat { if a < b then a else b }

  // Value i of a field in a record.
  function ValueAt(f: Field, rec: seq<Byte>, i: nat): (r: seq<Byte>)
    requires f.offset + Times(i, f.len) + f.len <= |rec|
    ensures |r| == f.len
  {
    rec[f.offset + Times(i, f.len)..f.offset + Times(i, f.len) + f.len]
  }

  function FindField(fs: seq<Field>, name: Name): (r: Option<Field>)
    ensures r.Some? ==> r.value in fs && r.value.name == name
    ensures r == None ==> forall f :: f in fs ==> f.name != name
  {
    if fs == [] then None else if fs[0].name == name then Some(fs[0]) else FindField(fs[1..], name)
  }

  ghost predicate IsRecord(db: Db, rec: seq<Byte>) {
    LaidOut(db) && |rec| == db.size
  }

  lemma WithinRecord(db: Db, f: Field, i: nat)
    requires LaidOut(db) && f in db.fields && i < f.count
    ensures f.offset + Times(i, f.len) + f.len <= f.offset + Width(f) <= db.size
  {
    var k := FieldPlace(db, f);
    WidthsGrow(db.fields, k, |db.fields|);
    TimesGrows(i, f.count, f.len);
    assert db.fields[..|db.fields|] == db.fields;
  }

  lemma {:induction false} WidthsGrow(fs: seq<Field>, k: nat, m: nat)
    requires k < m <= |fs|
    ensures Widths(fs[..k]) + Width(fs[k]) <= Widths(fs[..m])
    decreases m
  {
    assert fs[..m][..m - 1] == fs[..m - 1];
    if k + 1 < m {
      WidthsGrow(fs, k, m - 1);
    }
  }

  // ---------------------------------------------------------------------------
  // Records assembled value by value

  // What value i of a field is to be.
  type Contents = (Field, nat) -> seq<Byte>

  ghost predicate Fits(vals: Contents) {
    forall f, i {:trigger vals(f, i)} :: |vals(f, i)| == f.len
  }

  // The first n values of a field, and the values of some fields, one after another.
  function Values(vals: Contents, f: Field, n: nat): seq<Byte> {
    if n == 0 then [] else Values(vals, f, n - 1) + vals(f, n - 1)
  }

  function Assembled(vals: Contents, fs: seq<Field>): seq<Byte> {
    if fs == [] then [] else Assembled(vals, fs[..|fs| - 1]) + Values(vals, fs[|fs| - 1], fs[|fs| - 1].count)
  }

  lemma {:induction false} ValuesLength(vals: Contents, f: Field, n: nat)
    requires Fits(vals)
    ensures |Values(vals, f, n)| == Times(n, f.len)
  {
    if n > 0 {
      ValuesLength(vals, f, n - 1);
    }
  }

  lemma {:induction false} AssembledLength(vals: Contents, fs: seq<Field>)
    requires Fits(vals)
    ensures |Assembled(vals, fs)| == Widths(fs)
  {
    if fs != [] {
      AssembledLength(vals, fs[..|fs| - 1]);
      ValuesLength(vals, fs[|fs| - 1], fs[|fs| - 1].count);
    }
  }

  lemma {:induction false} ValueInValues(vals: Contents, f: Field, n: nat, i: nat)
    requires Fits(vals) && i < n
    ensures var s, at := Values(vals, f, n), Times(i, f.len);
      at + f.len <= |s| && s[at..at + f.len] == vals(f, i)
  {
    ValuesLength(vals, f, n - 1);
    TimesGrows(i, n, f.len);
    if i < n - 1 {
      ValueInValues(vals, f, n - 1, i);
      SliceOfFront(Values(vals, f, n - 1), vals(f, n - 1), Times(i, f.len), f.len);
    } else {
      SliceOfEnd(Values(vals, f, n - 1), vals(f, n - 1), 0, f.len);
    }
  }

  lemma {:induction false} FieldInAssembled(vals: Contents, fs: seq<Field>, k: nat)
    requires Fits(vals) && k < |fs|
    ensures var s, at := Assembled(vals, fs), Widths(fs[..k]);
      at + Width(fs[k]) <= |s| && s[at..at + Width(fs[k])] == Values(vals, fs[k], fs[k].count)
    decreases |fs|
  {
    var front, f := fs[..|fs| - 1], fs[|fs| - 1];
    AssembledLength(vals, front);
    ValuesLength(vals, f, f.count);
    if k < |fs| - 1 {
      assert front[..k] == fs[..k];
      FieldInAssembled(vals, front, k);
      SliceOfFront(Assembled(vals, front), Values(vals, f, f.count), Widths(fs[..k]), Width(fs[k]));
    } else {
      SliceOfEnd(Assembled(vals, front), Values(vals, f, f.count), 0, Width(f));
    }
  }

  // Where a field stands among the others.
  lemma FieldPlace(db: Db, f: Field) returns (k: nat)
    requires LaidOut(db) && f in db.fields
    ensures k < |db.fields| && db.fields[k] == f && f.offset == Widths(db.fields[..k]) && f.len >= 1 && f.count >= 1
  {
    k :| 0 <= k < |db.fields| && db.fields[k] == f;
    assert FieldAt(db.fields, k);
  }

  /** An assembled record holds in each field the values meant for it. */
  lemma AssembledHolds(vals: Contents, db: Db, f: Field, i: nat)
    requires Fits(vals) && LaidOut(db) && f in db.fields && i < f.count
    ensures var rec, at := Assembled(vals, db.fields), f.offset + Times(i, f.len);
      |rec| == db.size && at + f.len <= |rec| && rec[at..at + f.len] == vals(f, i)
  {
    WithinRecord(db, f, i);
    AssembledLength(vals, db.fields);
    var k := FieldPlace(db, f);
    FieldInAssembled(vals, db.fields, k);
    ValueInValues(vals, f, f.count, i);
    ValuesLength(vals, f, f.count);
    SliceOfSlice(Assembled(vals, db.fields), f.offset, Values(vals, f, f.count), Times(i, f.len), vals(f, i));
  }

  // The values of a field are what a record has in it.
  ghost predicate Owns(vals: Contents, f: Field, rec: seq<Byte>) {
    forall i: nat :: i < f.count ==> f.offset + Times(i, f.len) + f.len <= |rec| && vals(f, i) == ValueAt(f, rec, i)
  }

  lemma {:induction false} ValuesOwned(vals: Contents, f: Field, rec: seq<Byte>, n: nat)
    requires Owns(vals, f, rec) && n <= f.count && f.offset <= |rec|
    ensures f.offset + Times(n, f.len) <= |rec| && Values(vals, f, n) == rec[f.offset..f.offset + Times(n, f.len)]
  {
    if n > 0 {
      ValuesOwned(vals, f, rec, n - 1);
      assert vals(f, n - 1) == ValueAt(f, rec, n - 1);
      JoinSlices(rec, f.offset, f.offset + Times(n - 1, f.len), f.offset + Times(n, f.len));
    }
  }

  /** Only one record has given values: the one assembled from them. */
  lemma {:induction false} AssembledOwned(vals: Contents, db: Db, rec: seq<Byte>, k: nat)
    requires IsRecord(db, rec) && k <= |db.fields| && forall f :: f in db.fields ==> Owns(vals, f, rec)
    ensures Widths(db.fields[..k]) <= |rec| && Assembled(vals, db.fields[..k]) == rec[..Widths(db.fields[..k])]
  {
    if k > 0 {
      var f := db.fields[k - 1];
      AssembledOwned(vals, db, rec, k - 1);
      assert db.fields[..k][..k - 1] == db.fields[..k - 1];
      assert FieldAt(db.fields, k - 1) && f in db.fields;
      ValuesOwned(vals, f, rec, f.count);
      JoinSlices(rec, 0, f.offset, f.offset + Width(f));
    }
  }

  // ---------------------------------------------------------------------------
  // Conversion

  // The last of the fields whose names, when cut, are that
  function LastCut(fs: seq<Field>, name: Name): (r: Option<Field>)
    ensures r.Some? ==> r.value in fs && Cut(r.value.name) == name
    ensures r == None ==> forall f :: f in fs ==> Cut(f.name) != name
  {
    if fs == [] then None else
      var last := fs[|fs| - 1];
      if Cut(last.name) == name then Some(last) else LastCut(fs[..|fs| - 1], name)
  }

  // _sis_dynamic_match: the field of the source a field of the target is filled from, looked up by the cut name.
  // What is noted for a field is noted under its cut name too, and lost to a later one with the same.
  function Match(from: Db, to: Db, f: Field): (r: Option<Field>)
    ensures r.Some? ==> r.value in from.fields && r.value.name == Cut(f.name)
  {
    if LastCut(to.fields, Cut(f.name)) == Some(f) then FindField(from.fields, Cut(f.name)) else None
  }

  // Value i of field f in the converted record: what the matching field has there, if it has that many, and else
  // zeros.
  ghost function Value(cal: Calendar, from: Db, to: Db, rec: seq<Byte>, f: Field, i: nat): (r: seq<Byte>)
    ensures |r| == f.len
  {
    if !IsRecord(from, rec) || Match(from, to, f) == None then Zeros(f.len) else
      var g := Match(from, to, f).value;
      if i >= Min(g.count, f.count) then Zeros(f.len) else
        WithinRecord(from, g, i);
        NewValue(cal, g, f, ValueAt(g, rec, i))
  }

  ghost function Converting(cal: Calendar, from: Db, to: Db, rec: seq<Byte>): (vals: Contents)
    ensures Fits(vals)
  {
    (f, i) => Value(cal, from, to, rec, f, i)
  }

  /** What a record becomes in another schema. */
  ghost function Converted(cal: Calendar, from: Db, to: Db, rec: seq<Byte>): seq<Byte> {
    Assembled(Converting(cal, from, to, rec), to.fields)
  }

  /** Field f can take over all of field g: the same style, and at least as long and as many. */
  predicate Widens(g: Field, f: Field) {
    && f.style == g.style && f.len >= g.len && f.count >= g.count
    && (f.len != g.len && !g.style.Char? ==> IsNumberLength(f.len) && IsNumberLength(g.len))
  }

  /** Schema to can take over all of schema from. */
  ghost predicate Upgrades(from: Db, to: Db) {
    && LaidOut(from) && LaidOut(to)
    && forall g :: g in from.fields ==>
      FindField(to.fields, g.name).Some? && Widens(g, FindField(to.fields, g.name).value)
  }

  lemma ValueBack(cal: Calendar, g: Field, f: Field, x: seq<Byte>)
    requires |x| == g.len && g.len >= 1 && Widens(g, f)
    ensures NewValue(cal, f, g, NewValue(cal, g, f, x)) == x
  {
    if g.len != f.len {
      if g.style.Char? {
        assert (x + Zeros(f.len - g.len))[..g.len] == x;
      } else if g.style.Int? {
        SignExtends(x, f.len);
      } else {
        ZeroExtends(x, f.len);
      }
    }
  }

  lemma {:induction false} FindsItself(fs: seq<Field>, f: Field)
    requires f in fs && forall j, k :: 0 <= j < k < |fs| ==> fs[j].name != fs[k].name
    ensures FindField(fs, f.name) == Some(f)
  {
    if fs[0] != f {
      var k :| 0 < k < |fs| && fs[k] == f;
      assert fs[0].name != fs[k].name && fs[1..][k - 1] == f;
      FindsItself(fs[1..], f);
    }
  }

  /** Every field of from is found by its name from both sides: no name is longer than what is kept of it, and in
      to no later field has the same beginning. */
  ghost predicate Reached(from: Db, to: Db) {
    forall g :: g in from.fields ==> |g.name| <= 31 && LastCut(to.fields, g.name) == FindField(to.fields, g.name)
  }

  // Among names that are not cut there is one field of a name.
  lemma {:induction false} LastOfShort(fs: seq<Field>, g: Field)
    requires g in fs && forall j, k :: 0 <= j < k < |fs| ==> fs[j].name != fs[k].name
    requires forall h :: h in fs ==> |h.name| <= NAME_SIZE
    ensures LastCut(fs, g.name) == Some(g)
    decreases |fs|
  {
    var front, last := fs[..|fs| - 1], fs[|fs| - 1];
    assert last in fs;
    if last != g {
      var k :| 0 <= k < |fs| && fs[k] == g;
      assert front[k] == g;
      assert forall h :: h in front ==> h in fs;
      LastOfShort(front, g);
    }
  }

  // A field that is reached goes to its namesake and comes back from it.
  lemma MatchesBoth(from: Db, to: Db, g: Field)
    requires Upgrades(from, to) && Reached(from, to) && g in from.fields
    ensures var f := FindField(to.fields, g.name).value;
      Match(from, to, f) == Some(g) && Match(to, from, g) == Some(f)
  {
    FindsItself(from.fields, g);
    LastOfShort(from.fields, g);
  }

  /** The converted record holds in a field what its match in the source becomes there. */
  lemma ConvertedHolds(cal: Calendar, from: Db, to: Db, rec: seq<Byte>, f: Field, i: nat)
    requires LaidOut(to) && f in to.fields && i < f.count
    ensures var out := Converted(cal, from, to, rec);
      && IsRecord(to, out) && f.offset + Times(i, f.len) + f.len <= |out|
      && ValueAt(f, out, i) == Value(cal, from, to, rec, f, i)
  {
    AssembledHolds(Converting(cal, from, to, rec), to, f, i);
  }

  lemma ValueComesBack(cal: Calendar, from: Db, to: Db, rec: seq<Byte>, g: Field, i: nat)
    requires Upgrades(from, to) && Reached(from, to) && IsRecord(from, rec) && g in from.fields && i < g.count
    ensures var out := Converted(cal, from, to, rec);
      g.offset + Times(i, g.len) + g.len <= |rec| && Value(cal, to, from, out, g, i) == ValueAt(g, rec, i)
  {
    var f, out := FindField(to.fields, g.name).value, Converted(cal, from, to, rec);
    WithinRecord(from, g, i);
    MatchesBoth(from, to, g);
    ConvertedHolds(cal, from, to, rec, f, i);
    var k := FieldPlace(from, g);
    ValueBack(cal, g, f, ValueAt(g, rec, i));
    assert Value(cal, to, from, out, g, i) == NewValue(cal, f, g, ValueAt(f, out, i));
  }

  /** A record converted to a schema that upgrades its own and back is itself again, if every field is reached. */
  lemma RecordBack(cal: Calendar, from: Db, to: Db, rec: seq<Byte>)
    requires Upgrades(from, to) && Reached(from, to) && IsRecord(from, rec)
    ensures var out := Converted(cal, from, to, rec);
      IsRecord(to, out) && Converted(cal, to, from, out) == rec
  {
    var out := Converted(cal, from, to, rec);
    AssembledLength(Converting(cal, from, to, rec), to.fields);
    forall g | g in from.fields ensures Owns(Converting(cal, to, from, out), g, rec) {
      forall i: nat | i < g.count ensures g.offset + Times(i, g.len) + g.len <= |rec| &&
        Converting(cal, to, from, out)(g, i) == ValueAt(g, rec, i) {
        ValueComesBack(cal, from, to, rec, g, i);
      }
    }
    AssembledOwned(Converting(cal, to, from, out), from, rec, |from.fields|);
    assert from.fields[..|from.fields|] == from.fields;
  }
}
