/** What the values of a record become in another schema, by the numbers and the times they stand for. */
module SchemaValues {
  import opened Arithmetic
  import opened Memory
  import opened Options
  import opened SchemaFormat
  import opened Sequences

  // ---------------------------------------------------------------------------
  // Numbers in bytes

  lemma ModSplits(v: int, p: nat)
    requires p > 0
    ensures v % (256 * p) == v % 256 + 256 * (v / 256 % p)
  {
    var q := v / 256;
    assert q == p * (q / p) + q % p;
    Distributes(256, p, q / p, q % p);
    Uniquely(v, 256 * p, q / p, 256 * (q % p) + v % 256);
  }

  /** The number kept in so many bytes, of any number at all. */
  lemma {:induction false} NumberKept(v: int, k: nat)
    ensures Number(Bytes(v, k)) == v % Pow256(k)
    decreases k
  {
    if k > 0 {
      NumberKept(v / 256, k - 1);
      assert Bytes(v, k)[1..] == Bytes(v / 256, k - 1);
      ModSplits(v, Pow256(k - 1));
    }
  }

  // The number the bytes stand for in two's complement
  function Complement(x: seq<Byte>): int
    requires x != []
  {
    if x[|x| - 1] < 128 then Number(x) else Number(x) - Pow256(|x|)
  }

  lemma {:induction false} SignedIs(x: seq<Byte>)
    requires x != []
    ensures SignedNumber(x) == Complement(x)
  {
    if |x| > 1 {
      SignedIs(x[1..]);
    } else {
      assert x[1..] == [] && Pow256(1) == 256 * Pow256(0);
    }
  }

  // ---------------------------------------------------------------------------
  // Times

  /** The second a time stands for. */
  ghost predicate SecondOf(cal: Calendar, style: Style, t: nat, s: nat) {
    match style
    case Tick => s * 1000 <= t < (s + 1) * 1000
    case Minu => s == 60 * t
    case Date => s == cal.noon(t)
    case _ => s == t
  }

  /** What a second is in another style. */
  ghost predicate FromSecond(cal: Calendar, style: Style, s: nat, v: nat) {
    match style
    case Tick => v == 1000 * s
    case Minu => v * 60 <= s < (v + 1) * 60
    case Date => v == cal.idate(s)
    case _ => v == s
  }

  // Every conversion between two styles goes over the second, kept in 64 bits.
  ghost predicate SameTime(cal: Calendar, a: Style, b: Style, t: nat, v: nat) {
    exists s: nat :: SecondOf(cal, a, t, s) && FromSecond(cal, b, s % TWO_64, v)
  }

  // ---------------------------------------------------------------------------
  // One value

  // The number a field's value is read as
  function ReadAs(g: Field, x: seq<Byte>): int {
    if !IsNumberLength(|x|) then 0 else if g.style.Int? then Complement(x) else Number(x)
  }

  // The number it is in another style, before that is kept in the bytes there are
  ghost predicate Denotes(cal: Calendar, a: Style, b: Style, n: int, v: int) {
    if IsTime(a) && IsTime(b) && a != b then n >= 0 && v >= 0 && SameTime(cal, a, b, n, v) else v == n
  }

  ghost predicate Holds(y: seq<Byte>, v: int) { Number(y) == v % Pow256(|y|) }

  predicate NothingIn(y: seq<Byte>) { forall k :: 0 <= k < |y| ==> y[k] == 0 }

  // Characters are cut, or zeros put behind them.
  predicate Fitted(x: seq<Byte>, y: seq<Byte>) {
    forall k :: 0 <= k < |y| ==> y[k] == if k < |x| then x[k] else 0
  }

  /** What a value x of field g is to be as a value y of field f. */
  ghost predicate Becomes(cal: Calendar, g: Field, f: Field, x: seq<Byte>, y: seq<Byte>) {
    && |y| == f.len
    && if g.style == f.style && g.len == f.len then y == x
       else if g.style.Char? && f.style.Char? then Fitted(x, y)
       else if g.style.Char? || f.style.Char? || !IsNumberLength(f.len) then NothingIn(y)
       else exists v :: Denotes(cal, g.style, f.style, ReadAs(g, x), v) && Holds(y, v)
  }

  // ---------------------------------------------------------------------------
  // The code's conversions are those

  lemma ModTwice(v: int, a: nat, b: nat)
    requires a > 0 && b > 0
    ensures a * b > 0 && v % (a * b) % a == v % a
  {
    Positive(a, b);
    var q, r := v / (a * b), v % (a * b);
    assert v == (a * b) * q + r;
    assert r == a * (r / a) + r % a;
    Distributes(a, b, q, r / a);
    Uniquely(v, a, b * q + r / a, r % a);
  }

  lemma KeptOf64(v: int, k: nat)
    requires IsNumberLength(k)
    ensures v % TWO_64 % Pow256(k) == v % Pow256(k)
  {
    PowersOf256();
    match k
    case 1 => ModTwice(v, 0x100, 0x100_0000_0000_0000);
    case 2 => ModTwice(v, 0x1_0000, 0x1_0000_0000_0000);
    case 4 => ModTwice(v, TWO_32, TWO_32);
    case _ => ModTwice(v, TWO_64, 1);
  }

  lemma Thousand(a: nat)
    ensures 1000 * (a % TWO_64) % TWO_64 == a * 1000 % TWO_64
  {
    var q, r := a / TWO_64, a % TWO_64;
    var w := 1000 * r;
    assert a * 1000 == TWO_64 * (1000 * q + w / TWO_64) + w % TWO_64;
    Uniquely(a * 1000, TWO_64, 1000 * q + w / TWO_64, w % TWO_64);
  }

  lemma Small(n: nat)
    requires n < TWO_64
    ensures n % TWO_64 == n
  {}

  // From seconds on
  lemma FromSeconds(cal: Calendar, b: Style, s: nat) returns (v: nat)
    requires IsTime(b)
    ensures FromSecond(cal, b, s % TWO_64, v) && (!b.Tick? ==> v == TimeConvert(cal, Sec, b, s % TWO_64))
    ensures b.Tick? ==> v == 1000 * (s % TWO_64)
  {
    var n := s % TWO_64;
    v := if b.Tick? then 1000 * n else if b.Minu? then n / 60 else if b.Date? then cal.idate(n) else n;
  }

  // The second of a time, as the code works it out
  function Second(cal: Calendar, a: Style, t: nat): nat {
    if a.Tick? then t / 1000 else if a.Minu? then 60 * t else if a.Date? then cal.noon(t) else t
  }

  lemma SecondIs(cal: Calendar, a: Style, t: nat)
    requires t < TWO_64
    ensures SecondOf(cal, a, t, Second(cal, a, t)) && (!a.Minu? ==> Second(cal, a, t) < TWO_64)
  {}

  lemma ToTicks(cal: Calendar, a: Style, t: nat)
    requires IsTime(a) && !a.Tick? && t < TWO_64
    ensures TimeConvert(cal, a, Tick, t) % TWO_64 == 1000 * (Second(cal, a, t) % TWO_64) % TWO_64
  {
    Thousand(Second(cal, a, t));
    Small(TimeConvert(cal, a, Tick, t));
  }

  lemma ToOthers(cal: Calendar, a: Style, b: Style, t: nat)
    requires IsTime(a) && IsTime(b) && a != b && !b.Tick? && t < TWO_64
    ensures TimeConvert(cal, a, b, t) == TimeConvert(cal, Sec, b, Second(cal, a, t) % TWO_64)
  {
    SecondIs(cal, a, t);
    if !a.Minu? {
      Small(Second(cal, a, t));
    }
  }

  lemma TimeConverts(cal: Calendar, a: Style, b: Style, t: nat) returns (v: nat)
    requires IsTime(a) && IsTime(b) && a != b && t < TWO_64
    ensures SameTime(cal, a, b, t, v) && TimeConvert(cal, a, b, t) % TWO_64 == v % TWO_64
  {
    var s := Second(cal, a, t);
    SecondIs(cal, a, t);
    v := FromSeconds(cal, b, s);
    if b.Tick? {
      ToTicks(cal, a, t);
    } else {
      ToOthers(cal, a, b, t);
    }
  }

  lemma ValueHolds(v: int, k: nat)
    requires IsNumberLength(k)
    ensures Holds(SetNumber(v, k), v)
  {
    NumberKept(v, k);
  }

  lemma NothingSet(k: nat)
    requires !IsNumberLength(k)
    ensures forall v :: NothingIn(SetNumber(v, k))
  {}

  // What the cases of the conversion give is what a value is to become.
  lemma NewValueBecomes(cal: Calendar, g: Field, f: Field, x: seq<Byte>)
    requires |x| == g.len
    ensures Becomes(cal, g, f, x, NewValue(cal, g, f, x))
  {
    if (g.style == f.style && g.len == f.len) || g.style.Char? || f.style.Char? {
      return;
    }
    if !IsNumberLength(f.len) {
      NothingSet(f.len);
    } else {
      NumberBecomes(cal, g, f, x);
    }
  }

  lemma ReadIs(g: Field, x: seq<Byte>)
    ensures ReadAs(g, x) == if g.style.Int? then GetInt(x) else GetUint(x)
    ensures !g.style.Int? ==> 0 <= ReadAs(g, x) < TWO_64
  {
    if IsNumberLength(|x|) {
      SignedIs(x);
      PowersOf256();
    }
  }

  lemma NumberBecomes(cal: Calendar, g: Field, f: Field, x: seq<Byte>)
    requires |x| == g.len && !(g.style == f.style && g.len == f.len) && !g.style.Char? && !f.style.Char?
    requires IsNumberLength(f.len)
    ensures exists v :: Denotes(cal, g.style, f.style, ReadAs(g, x), v) && Holds(NewValue(cal, g, f, x), v)
  {
    ReadIs(g, x);
    var n := ReadAs(g, x);
    if IsTime(g.style) && IsTime(f.style) && g.style != f.style {
      TimeBecomes(cal, g, f, x, n);
    } else {
      ValueHolds(n, f.len);
      assert Denotes(cal, g.style, f.style, n, n);
    }
  }

  lemma TimeBecomes(cal: Calendar, g: Field, f: Field, x: seq<Byte>, n: nat)
    requires |x| == g.len && IsTime(g.style) && IsTime(f.style) && g.style != f.style && IsNumberLength(f.len)
    requires n == GetUint(x) < TWO_64
    ensures exists v :: Denotes(cal, g.style, f.style, n, v) && Holds(NewValue(cal, g, f, x), v)
  {
    var v := TimeConverts(cal, g.style, f.style, n);
    var w := TimeConvert(cal, g.style, f.style, n);
    ValueHolds(w, f.len);
    KeptOf64(v, f.len);
    KeptOf64(w, f.len);
    assert Denotes(cal, g.style, f.style, n, v);
  }

  // ---------------------------------------------------------------------------
  // Records

  // A field of a schema has a value there.
  ghost predicate HasValue(db: Db, f: Field, i: nat) { LaidOut(db) && f in db.fields && i < f.count }

  // Value i of a field in a record of the schema
  ghost function Get(db: Db, rec: seq<Byte>, f: Field, i: nat): (r: seq<Byte>)
    requires IsRecord(db, rec) && HasValue(db, f, i)
    ensures |r| == f.len
  {
    WithinRecord(db, f, i);
    ValueAt(f, rec, i)
  }

  /** In a converted record every value that has its match is what it is to become, and any other is zeros. */
  lemma ConvertedBecomes(cal: Calendar, from: Db, to: Db, rec: seq<Byte>, f: Field, i: nat)
    requires IsRecord(from, rec) && HasValue(to, f, i)
    ensures var out, g := Converted(cal, from, to, rec), Match(from, to, f);
      && IsRecord(to, out)
      && if g.Some? && i < g.value.count then
           HasValue(from, g.value, i) && Becomes(cal, g.value, f, Get(from, rec, g.value, i), Get(to, out, f, i))
         else NothingIn(Get(to, out, f, i))
  {
    ConvertedHolds(cal, from, to, rec, f, i);
    var g := Match(from, to, f);
    if g.Some? && i < g.value.count {
      WithinRecord(from, g.value, i);
      NewValueBecomes(cal, g.value, f, ValueAt(g.value, rec, i));
    }
  }

  // ---------------------------------------------------------------------------
  // Times in eight bytes

  // Value i of field f is filled from field g, which is of another style of time.
  ghost predicate Filled(from: Db, to: Db, g: Field, f: Field, i: nat) {
    && HasValue(to, f, i) && Match(from, to, f) == Some(g) && i < g.count && LaidOut(from)
    && IsTime(g.style) && IsTime(f.style) && g.style != f.style && g.len == 8 && f.len == 8
  }

  // The number in a record
  ghost function TimeIn(db: Db, rec: seq<Byte>, f: Field, i: nat): (r: nat)
    requires IsRecord(db, rec) && HasValue(db, f, i)
  {
    Number(Get(db, rec, f, i))
  }

  // The time r in 64 bits, for the time t
  ghost predicate Told(cal: Calendar, a: Style, b: Style, t: nat, r: nat) {
    t < TWO_64 && exists v: nat :: SameTime(cal, a, b, t, v) && r == v % TWO_64
  }

  // Both times of a converted record, in the two records
  ghost predicate Goes(cal: Calendar, from: Db, to: Db, rec: seq<Byte>, g: Field, f: Field, i: nat) {
    && IsRecord(from, rec) && HasValue(from, g, i) && HasValue(to, f, i) && IsRecord(to, Converted(cal, from, to, rec))
    && Told(cal, g.style, f.style, TimeIn(from, rec, g, i), TimeIn(to, Converted(cal, from, to, rec), f, i))
  }

  lemma TimeGoes(cal: Calendar, from: Db, to: Db, rec: seq<Byte>, g: Field, f: Field, i: nat)
    requires IsRecord(from, rec) && Filled(from, to, g, f, i)
    ensures Goes(cal, from, to, rec, g, f, i)
  {
    PowersOf256();
    ConvertedBecomes(cal, from, to, rec, f, i);
    var x, y := Get(from, rec, g, i), Get(to, Converted(cal, from, to, rec), f, i);
    var n: int :| Denotes(cal, g.style, f.style, ReadAs(g, x), n) && Holds(y, n);
    assert SameTime(cal, g.style, f.style, ReadAs(g, x), n);
  }

  lemma ToldOver(cal: Calendar, a: Style, b: Style, t: nat, r: nat) returns (s: nat, v: nat)
    requires Told(cal, a, b, t, r)
    ensures SecondOf(cal, a, t, s) && FromSecond(cal, b, s % TWO_64, v) && r == v % TWO_64
  {
    v :| SameTime(cal, a, b, t, v) && r == v % TWO_64;
    s :| SecondOf(cal, a, t, s) && FromSecond(cal, b, s % TWO_64, v);
  }

  lemma Falls(cal: Calendar, a: Style, b: Style, t: nat, r: nat)
    requires Told(cal, a, b, t, r) && ((a.Tick? && b.Sec?) || (a.Sec? && b.Minu?))
    ensures var unit := if a.Tick? then 1000 else 60; r * unit <= t < (r + 1) * unit
  {
    var s, v := ToldOver(cal, a, b, t, r);
    Small(s);
    Small(v);
  }

  lemma Begins(cal: Calendar, a: Style, b: Style, t: nat, r: nat)
    requires Told(cal, a, b, t, r) && ((a.Sec? && b.Tick?) || (a.Minu? && b.Sec?))
    ensures r == t * (if a.Sec? then 1000 else 60) % TWO_64
  {
    var s, v := ToldOver(cal, a, b, t, r);
    Small(t);
  }

  lemma DayOrNoon(cal: Calendar, a: Style, b: Style, t: nat, r: nat)
    requires Told(cal, a, b, t, r) && ((a.Date? && b.Sec?) || (a.Sec? && b.Date?))
    ensures r == if a.Date? then cal.noon(t) else cal.idate(t) % TWO_64
  {
    var s, v := ToldOver(cal, a, b, t, r);
    Small(s);
  }

  lemma OneSecond(cal: Calendar, style: Style, t: nat, s: nat, u: nat)
    requires SecondOf(cal, style, t, s) && SecondOf(cal, style, t, u)
    ensures s == u
  {}

  lemma OneMoment(cal: Calendar, style: Style, s: nat, v: nat, w: nat)
    requires FromSecond(cal, style, s, v) && FromSecond(cal, style, s, w)
    ensures v == w
  {}

  lemma ToldSecond(cal: Calendar, a: Style, t: nat, r: nat, u: nat)
    requires Told(cal, a, Sec, t, r) && SecondOf(cal, a, t, u)
    ensures r == u % TWO_64
  {
    var s, v := ToldOver(cal, a, Sec, t, r);
    OneSecond(cal, a, t, s, u);
    Small(s % TWO_64);
  }

  lemma OverSeconds(cal: Calendar, a: Style, b: Style, t: nat, r: nat, q: nat, p: nat)
    requires Told(cal, a, Sec, t, r) && Told(cal, Sec, b, r, q) && Told(cal, a, b, t, p)
    ensures q == p
  {
    var u, w := ToldOver(cal, a, b, t, p);
    ToldSecond(cal, a, t, r, u);
    var s, v := ToldOver(cal, Sec, b, r, q);
    Small(r);
    OneMoment(cal, b, r, v, w);
  }

  /** A tick becomes the second it falls in, and a second the minute. */
  lemma TimeFalls(cal: Calendar, from: Db, to: Db, rec: seq<Byte>, g: Field, f: Field, i: nat)
    requires IsRecord(from, rec) && Filled(from, to, g, f, i)
    requires (g.style.Tick? && f.style.Sec?) || (g.style.Sec? && f.style.Minu?)
    ensures HasValue(from, g, i) && IsRecord(to, Converted(cal, from, to, rec))
    ensures var t, r := TimeIn(from, rec, g, i), TimeIn(to, Converted(cal, from, to, rec), f, i);
      var unit := if g.style.Tick? then 1000 else 60;
      r * unit <= t < (r + 1) * unit
  {
    TimeGoes(cal, from, to, rec, g, f, i);
    Falls(cal, g.style, f.style, TimeIn(from, rec, g, i), TimeIn(to, Converted(cal, from, to, rec), f, i));
  }

  /** A second becomes its first tick, and a minute its first second, as far as 64 bits go. */
  lemma TimeBegins(cal: Calendar, from: Db, to: Db, rec: seq<Byte>, g: Field, f: Field, i: nat)
    requires IsRecord(from, rec) && Filled(from, to, g, f, i)
    requires (g.style.Sec? && f.style.Tick?) || (g.style.Minu? && f.style.Sec?)
    ensures HasValue(from, g, i) && IsRecord(to, Converted(cal, from, to, rec))
    ensures var t, r := TimeIn(from, rec, g, i), TimeIn(to, Converted(cal, from, to, rec), f, i);
      r == t * (if g.style.Sec? then 1000 else 60) % TWO_64
  {
    TimeGoes(cal, from, to, rec, g, f, i);
    Begins(cal, g.style, f.style, TimeIn(from, rec, g, i), TimeIn(to, Converted(cal, from, to, rec), f, i));
  }

  /** A day becomes the second of its noon, and a second the day the calendar says. */
  lemma DayGoes(cal: Calendar, from: Db, to: Db, rec: seq<Byte>, g: Field, f: Field, i: nat)
    requires IsRecord(from, rec) && Filled(from, to, g, f, i)
    requires (g.style.Date? && f.style.Sec?) || (g.style.Sec? && f.style.Date?)
    ensures HasValue(from, g, i) && IsRecord(to, Converted(cal, from, to, rec))
    ensures var t, r := TimeIn(from, rec, g, i), TimeIn(to, Converted(cal, from, to, rec), f, i);
      r == if g.style.Date? then cal.noon(t) else cal.idate(t) % TWO_64
  {
    TimeGoes(cal, from, to, rec, g, f, i);
    DayOrNoon(cal, g.style, f.style, TimeIn(from, rec, g, i), TimeIn(to, Converted(cal, from, to, rec), f, i));
  }

  /** There and back: seconds kept as ticks, and minutes kept as seconds, come back if they fit. */
  lemma TimeComesBack(cal: Calendar, a: Db, b: Db, c: Db, rec: seq<Byte>, g: Field, f: Field, h: Field, i: nat)
    requires IsRecord(a, rec) && Filled(a, b, g, f, i) && Filled(b, c, f, h, i) && HasValue(a, g, i)
    requires (g.style.Sec? && f.style.Tick? && h.style.Sec?) || (g.style.Minu? && f.style.Sec? && h.style.Minu?)
    requires TimeIn(a, rec, g, i) * (if g.style.Sec? then 1000 else 60) < TWO_64
    ensures var mid := Converted(cal, a, b, rec);
      IsRecord(b, mid) && IsRecord(c, Converted(cal, b, c, mid)) &&
      TimeIn(c, Converted(cal, b, c, mid), h, i) == TimeIn(a, rec, g, i)
  {
    TimeBegins(cal, a, b, rec, g, f, i);
    TimeFalls(cal, b, c, Converted(cal, a, b, rec), f, h, i);
    Small(TimeIn(a, rec, g, i) * (if g.style.Sec? then 1000 else 60));
  }

  lemma SameBytes(x: seq<Byte>, y: seq<Byte>)
    requires |x| == |y| && Number(x) == Number(y)
    ensures x == y
  {
    ZeroExtends(x, |x|);
    ZeroExtends(y, |y|);
  }

  /** Converted by way of seconds, a time becomes what it becomes at once. */
  lemma BySeconds(cal: Calendar, a: Db, b: Db, c: Db, rec: seq<Byte>, g: Field, f: Field, h: Field, i: nat)
    requires IsRecord(a, rec) && f.style.Sec?
    requires Filled(a, b, g, f, i) && Filled(b, c, f, h, i) && Filled(a, c, g, h, i)
    ensures var mid, out := Converted(cal, a, b, rec), Converted(cal, a, c, rec);
      IsRecord(b, mid) && IsRecord(c, Converted(cal, b, c, mid)) && IsRecord(c, out) &&
      Get(c, Converted(cal, b, c, mid), h, i) == Get(c, out, h, i)
  {
    var mid, out := Converted(cal, a, b, rec), Converted(cal, a, c, rec);
    TimeGoes(cal, a, b, rec, g, f, i);
    TimeGoes(cal, b, c, mid, f, h, i);
    TimeGoes(cal, a, c, rec, g, h, i);
    var y, z := Get(c, Converted(cal, b, c, mid), h, i), Get(c, out, h, i);
    OverSeconds(cal, g.style, h.style, TimeIn(a, rec, g, i), TimeIn(b, mid, f, i), Number(y), Number(z));
    SameBytes(y, z);
  }
}
