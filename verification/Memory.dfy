/** The growing byte buffer of src/core/sis_memory.c and the variable-length sizes kept in it. */
module Memory {
  import opened Arithmetic

  type Byte = b: int | 0 <= b < 256

  const TWO_16 := 0x1_0000
  const TWO_32 := 0x1_0000_0000
  const TWO_64 := 0x1_0000_0000_0000_0000

  const CHUNK := 32 * 1024

  // The byte of an ASCII character
  function Code(c: char): Byte
    requires c as int < 128
  {
    c as int
  }

  // ---------------------------------------------------------------------------
  // Little-endian numbers and sizes

  function Pow256(k: nat): (r: nat)
    ensures r > 0
  {
    if k == 0 then 1 else 256 * Pow256(k - 1)
  }

  /** The k low bytes of n, lowest first. */
  function Bytes(n: int, k: nat): (r: seq<Byte>)
    ensures |r| == k
    decreases k
  {
    if k == 0 then [] else [n % 256] + Bytes(n / 256, k - 1)
  }

  function Number(b: seq<Byte>): (r: nat)
    ensures r < Pow256(|b|)
  {
    if b == [] then 0 else b[0] + 256 * Number(b[1..])
  }

  lemma {:induction false} NumberOfBytes(n: nat, k: nat)
    requires n < Pow256(k)
    ensures Number(Bytes(n, k)) == n
  {
    if k > 0 {
      NumberOfBytes(n / 256, k - 1);
      assert Bytes(n, k)[1..] == Bytes(n / 256, k - 1);
    }
  }

  // How many bytes follow the first byte of a size.
  function Extra(first: Byte): nat {
    if first >= 254 then 8 else if first == 253 then 4 else if first == 252 then 2 else if first == 251 then 1 else 0
  }

  function SizeBytes(n: nat): seq<Byte> {
    if n > 0xFFFFFFFF then [254] + Bytes(n, 8)
    else if n > 0xFFFF + 250 then [253] + Bytes(n, 4)
    else if n > 0xFF + 250 then [252] + Bytes(n - 250, 2)
    else if n > 250 then [251] + Bytes(n - 250, 1)
    else [n]
  }

  function SizeOf(b: seq<Byte>): nat
    requires |b| > 0 && |b| > Extra(b[0])
  {
    if b[0] == 251 || b[0] == 252 then Number(b[1..1 + Extra(b[0])]) + 250
    else if b[0] >= 253 then Number(b[1..1 + Extra(b[0])])
    else b[0]
  }

  lemma PowersOf256()
    ensures Pow256(1) == 256 && Pow256(2) == TWO_16 && Pow256(4) == TWO_32 && Pow256(8) == TWO_64
  {
    assert Pow256(3) == 256 * Pow256(2) && Pow256(5) == 256 * Pow256(4);
    assert Pow256(6) == 256 * Pow256(5) && Pow256(7) == 256 * Pow256(6);
  }

  /** Reading a written size gives it back, whatever follows; it takes at most nine bytes. */
  lemma SizeRoundTrip(n: nat, rest: seq<Byte>)
    requires n < TWO_64
    ensures var b := SizeBytes(n) + rest;
      && 1 <= |SizeBytes(n)| <= 9
      && |SizeBytes(n)| == 1 + Extra(b[0])
      && SizeOf(b) == n
  {
    PowersOf256();
    var b := SizeBytes(n) + rest;
    var k := Extra(b[0]);
    if k > 0 {
      var m := if b[0] < 253 then n - 250 else n;
      NumberOfBytes(m, k);
      assert b[1..1 + k] == Bytes(m, k);
    }
  }

  lemma OneByte(n: Byte)
    ensures Bytes(n, 1) == [n]
  {
    assert Bytes(n / 256, 0) == [];
  }

  // The bytes of a number, each by itself
  lemma TwoBytes(n: nat)
    ensures Bytes(n, 2) == [n % 256, n / 0x100 % 256]
  {
    OneByte(n / 256 % 256);
    assert Bytes(n / 256, 1) == [n / 256 % 256] + Bytes(n / 256 / 256, 0);
  }

  lemma FourBytes(n: nat)
    ensures Bytes(n, 4) == [n % 256, n / 0x100 % 256, n / 0x1_0000 % 256, n / 0x100_0000 % 256]
  {
    PowersOf256();
    TwoBytes(n);
    TwoBytes(n / 0x1_0000);
    BytesJoin(n, 2, 2);
    DivideTwice(n, 0x1_0000, 0x100);
  }

  lemma EightBytes(n: nat)
    ensures Bytes(n, 8) == [n % 256, n / 0x100 % 256, n / 0x1_0000 % 256, n / 0x100_0000 % 256,
      n / 0x1_0000_0000 % 256, n / 0x100_0000_0000 % 256, n / 0x1_0000_0000_0000 % 256, n / 0x100_0000_0000_0000 % 256]
  {
    PowersOf256();
    FourBytes(n);
    FourBytes(n / 0x1_0000_0000);
    BytesJoin(n, 4, 4);
    DivideTwice(n, 0x1_0000_0000, 0x100);
    DivideTwice(n, 0x1_0000_0000, 0x1_0000);
    DivideTwice(n, 0x1_0000_0000, 0x100_0000);
  }

  lemma {:induction false} BytesJoin(n: nat, j: nat, k: nat)
    ensures Bytes(n, j + k) == Bytes(n, j) + Bytes(n / Pow256(j), k)
    decreases j
  {
    if j > 0 {
      BytesJoin(n / 256, j - 1, k);
      DivideTwice(n, 256, Pow256(j - 1));
    }
  }

  /** How a size stands in the buffer: itself up to 250; else a code, and low bytes first, in one or two bytes what
      it has above 250, in four or eight the whole. */
  ghost predicate SizeStands(n: nat, b: seq<Byte>) {
    if n <= 250 then b == [n]
    else if n <= 505 then b == [251, n - 250]
    else if n <= 65785 then b == [252, (n - 250) % 256, (n - 250) / 256]
    else if n < TWO_32 then b == [253, n % 256, n / 0x100 % 256, n / 0x1_0000 % 256, n / 0x100_0000 % 256]
    else LongStands(n, b)
  }

  ghost predicate LongStands(n: nat, b: seq<Byte>) {
    n < TWO_64 &&
    b == [254, n % 256, n / 0x100 % 256, n / 0x1_0000 % 256, n / 0x100_0000 % 256, n / 0x1_0000_0000 % 256,
      n / 0x100_0000_0000 % 256, n / 0x1_0000_0000_0000 % 256, n / 0x100_0000_0000_0000 % 256]
  }

  lemma LongBytesStand(n: nat)
    requires n < TWO_64
    ensures LongStands(n, [254] + Bytes(n, 8))
  {
    EightBytes(n);
  }

  lemma Behind(a: seq<Byte>, b: seq<Byte>)
    ensures (a + b)[|a|..] == b
  {}

  lemma SizeBytesStand(n: nat)
    requires n < TWO_64
    ensures SizeStands(n, SizeBytes(n))
  {
    if n >= TWO_32 {
      LongBytesStand(n);
    } else if n > 65785 {
      FourBytesStand(n);
    } else {
      ShortBytesStand(n);
    }
  }

  lemma FourBytesStand(n: nat)
    requires 65785 < n < TWO_32
    ensures SizeStands(n, [253] + Bytes(n, 4))
  {
    FourBytes(n);
  }

  lemma ShortBytesStand(n: nat)
    requires n <= 65785
    ensures SizeStands(n, SizeBytes(n))
  {
    if n > 505 {
      TwoBytes(n - 250);
      Below(n - 250);
    } else if n > 250 {
      OneByte(n - 250);
    }
  }

  lemma Below(n: nat)
    requires n < TWO_16
    ensures n / 256 % 256 == n / 256
  {}

  /** The first byte never falls as the size grows, and a longer size has a greater one. */
  lemma FirstByteGrows(m: nat, a: seq<Byte>, n: nat, b: seq<Byte>)
    requires SizeStands(m, a) && SizeStands(n, b) && m <= n
    ensures a[0] <= b[0] && (|a| < |b| ==> a[0] < b[0])
  {}

  // What the byte at a place adds to a number
  function Part(b: seq<Byte>, i: nat, weight: nat): nat
    requires i < |b|
  {
    b[i] * weight
  }

  /** What the reader takes a size to be, by the first byte, and how many bytes it takes. */
  ghost predicate SizeReads(b: seq<Byte>, n: nat, taken: nat) {
    SizeWhole(b) &&
    if b[0] <= 250 then taken == 1 && n == b[0]
    else if b[0] == 251 then taken == 2 && n == 250 + Part(b, 1, 1)
    else if b[0] == 252 then taken == 3 && n == 250 + Part(b, 1, 1) + Part(b, 2, 0x100)
    else if b[0] == 253 then taken == 5 && n == NumberAt(b)
    else taken == 9 && n == NumberAt(b) + HighAt(b)
  }

  // No byte of it is missing.
  predicate SizeWhole(b: seq<Byte>) {
    |b| > if |b| == 0 || b[0] <= 250 then 0 else if b[0] == 251 then 1 else if b[0] == 252 then 2
      else if b[0] == 253 then 4 else 8
  }

  function NumberAt(b: seq<Byte>): nat
    requires |b| > 4
  {
    Part(b, 1, 1) + Part(b, 2, 0x100) + Part(b, 3, 0x1_0000) + Part(b, 4, 0x100_0000)
  }

  function HighAt(b: seq<Byte>): nat
    requires |b| > 8
  {
    Part(b, 5, 0x1_0000_0000) + Part(b, 6, 0x100_0000_0000) + Part(b, 7, 0x1_0000_0000_0000) +
    Part(b, 8, 0x100_0000_0000_0000)
  }

  lemma {:induction false} NumberAdds(b: seq<Byte>, k: nat)
    requires k <= |b|
    ensures Number(b) == Number(b[..k]) + Pow256(k) * Number(b[k..])
    decreases k
  {
    if k > 0 {
      NumberAdds(b[1..], k - 1);
      assert b[1..][..k - 1] == b[..k][1..] && b[1..][k - 1..] == b[k..];
      Spread(b[0], Number(b[..k][1..]), Pow256(k - 1), Number(b[k..]));
    } else {
      assert b[0..] == b;
    }
  }

  lemma Spread(c: nat, m: nat, p: nat, y: nat)
    ensures c + 256 * (m + p * y) == (c + 256 * m) + (256 * p) * y
  {
    Distributes(256, p, y, m);
  }

  lemma NumberOfTwo(b: seq<Byte>)
    requires |b| == 2
    ensures Number(b) == Part(b, 0, 1) + Part(b, 1, 0x100)
  {
    assert Number(b[1..]) == b[1] + 256 * Number(b[1..][1..]);
  }

  lemma NumberOfFour(b: seq<Byte>)
    requires |b| == 4
    ensures Number(b) == Part(b, 0, 1) + Part(b, 1, 0x100) + Part(b, 2, 0x1_0000) + Part(b, 3, 0x100_0000)
  {
    NumberAdds(b, 2);
    NumberOfTwo(b[..2]);
    NumberOfTwo(b[2..]);
    PowersOf256();
  }

  lemma NumberOfEight(b: seq<Byte>)
    requires |b| == 8
    ensures Number(b) == Part(b, 0, 1) + Part(b, 1, 0x100) + Part(b, 2, 0x1_0000) + Part(b, 3, 0x100_0000) +
      Part(b, 4, 0x1_0000_0000) + Part(b, 5, 0x100_0000_0000) + Part(b, 6, 0x1_0000_0000_0000) +
      Part(b, 7, 0x100_0000_0000_0000)
  {
    NumberAdds(b, 4);
    NumberOfFour(b[..4]);
    PowersOf256();
    UpperFour(b);
    Weighs(b[4] as nat, b[5] as nat, b[6] as nat, b[7] as nat);
  }

  lemma UpperFour(b: seq<Byte>)
    requires |b| == 8
    ensures Number(b[4..]) == Part(b, 4, 1) + Part(b, 5, 0x100) + Part(b, 6, 0x1_0000) + Part(b, 7, 0x100_0000)
  {
    NumberOfFour(b[4..]);
  }

  lemma Weighs(c: nat, d: nat, e: nat, f: nat)
    ensures 0x1_0000_0000 * (c + d * 0x100 + e * 0x1_0000 + f * 0x100_0000) ==
      c * 0x1_0000_0000 + d * 0x100_0000_0000 + e * 0x1_0000_0000_0000 + f * 0x100_0000_0000_0000
  {}

  lemma SizeOfReads(b: seq<Byte>)
    requires |b| > 0 && |b| > Extra(b[0])
    ensures SizeReads(b, SizeOf(b), 1 + Extra(b[0]))
  {
    if b[0] >= 254 {
      NumberOfEight(b[1..9]);
    } else if b[0] == 253 {
      NumberOfFour(b[1..5]);
    } else if b[0] == 252 {
      NumberOfTwo(b[1..3]);
    } else if b[0] == 251 {
      assert b[1..2][1..] == [];
    }
  }

  // ---------------------------------------------------------------------------
  // The buffer

  class Buffer {
    var data: array<Byte>
    var size: nat
    var offset: nat

    ghost predicate Valid()
      reads this
    {
      offset <= size <= data.Length
    }

    ghost function Contents(): (r: seq<Byte>)
      requires Valid()
      reads this, data
      ensures |r| == size - offset
    {
      data[offset..size]
    }

    constructor (capacity: nat)
      ensures Valid() && Contents() == [] && fresh(data)
    {
      data := new Byte[capacity];
      size, offset := 0, 0;
    }

    method Clear()
      modifies this`size, this`offset
      ensures Valid() && Contents() == []
    {
      size, offset := 0, 0;
    }

    /** Move the contents to the start of the buffer. */
    method Pack()
      requires Valid()
      modifies this`size, this`offset, data
      ensures Valid() && offset == 0 && Contents() == old(Contents())
    {
      if offset == 0 {
        return;
      }
      if offset > size - 1 {
        size, offset := 0, 0;
        return;
      }
      var n := size - offset;
      MoveDown(data, offset, n);
      assert data[..n] == old(Contents());
      size, offset := n, 0;
    }

    // memmove to the start of the array
    static method MoveDown(a: array<Byte>, from: nat, n: nat)
      requires from + n <= a.Length
      modifies a
      ensures a[..n] == old(a[from..from + n])
    {
      var i := 0;
      while i < n
        invariant 0 <= i <= n
        invariant forall j :: 0 <= j < i ==> a[j] == old(a[from + j])
        invariant forall j :: i <= j < a.Length ==> a[j] == old(a[j])
      {
        a[i] := a[from + i];
        i := i + 1;
      }
    }

    method Grow(needed: nat)
      requires Valid()
      modifies this`data
      ensures Valid() && data.Length >= needed && Contents() == old(Contents())
      ensures data == old(data) || fresh(data)
      ensures size == old(size) && offset == old(offset)
    {
      if needed > data.Length {
        var half := (needed + data.Length) / 2;
        var bigger := new Byte[needed + if CHUNK < half then CHUNK else half];
        forall i | 0 <= i < data.Length {
          bigger[i] := data[i];
        }
        assert forall i :: offset <= i < size ==> bigger[i] == old(data[i]);
        data := bigger;
      }
    }

    /** Append bytes. */
    method Cat(bytes: seq<Byte>)
      requires Valid()
      modifies this, data
      ensures Valid() && Contents() == old(Contents()) + bytes
      ensures data == old(data) || fresh(data)
    {
      if |bytes| == 0 {
        return;
      }
      Grow(|bytes| + size);
      PutAt(data, offset, size, bytes);
      size := size + |bytes|;
    }

    // memmove behind what is there from a place on
    static method PutAt(a: array<Byte>, from: nat, at: nat, bytes: seq<Byte>)
      requires from <= at && at + |bytes| <= a.Length
      modifies a
      ensures a[from..at + |bytes|] == old(a[from..at]) + bytes
    {
      forall i | at <= i < at + |bytes| {
        a[i] := bytes[i - at];
      }
      ghost var now := a[from..at + |bytes|];
      forall k | 0 <= k < at - from ensures now[k] == old(a[from..at])[k] {
        assert now[k] == a[from + k];
      }
      forall k | at - from <= k < |now| ensures now[k] == bytes[k - (at - from)] {
        assert now[k] == a[from + k];
      }
    }

    /** Drop bytes from the front, at most all. */
    method Move(n: nat)
      requires Valid()
      modifies this`offset
      ensures Valid() && Contents() == if n <= |old(Contents())| then old(Contents())[n..] else []
    {
      offset := if offset + n <= size then offset + n else size;
    }

    // sis_memory_cat_byte
    method CatNumber(n: nat, k: nat)
      requires Valid() && k in {1, 2, 4, 8}
      modifies this, data
      ensures Valid() && Contents() == old(Contents()) + Bytes(n, k)
      ensures data == old(data) || fresh(data)
    {
      Cat(Bytes(n, k));
    }

    // sis_memory_get_byte
    method TakeNumber(k: nat) returns (n: nat)
      requires Valid() && k in {1, 2, 4, 8} && k <= |Contents()|
      modifies this`offset
      ensures Valid() && n == Number(old(Contents())[..k]) && Contents() == old(Contents())[k..]
    {
      n := Number(data[offset..offset + k]);
      assert data[offset..offset + k] == old(Contents())[..k];
      Move(k);
    }

    // A first byte, then a number of k bytes.
    method CatTagged(tag: Byte, n: nat, k: nat)
      requires Valid() && k in {1, 2, 4, 8}
      modifies this, data
      ensures Valid() && Contents() == old(Contents()) + ([tag] + Bytes(n, k))
      ensures data == old(data) || fresh(data)
    {
      OneByte(tag);
      CatNumber(tag, 1);
      CatNumber(n, k);
      assert old(Contents()) + [tag] + Bytes(n, k) == old(Contents()) + ([tag] + Bytes(n, k));
    }

    /** sis_memory_cat_ssize: the return value is the number of bytes written. */
    method CatSize(n: nat) returns (written: nat)
      requires Valid() && n < TWO_64
      modifies this, data
      ensures Valid() && Contents() == old(Contents()) + SizeBytes(n) && written == |SizeBytes(n)|
      ensures SizeStands(n, Contents()[|old(Contents())|..])
      ensures data == old(data) || fresh(data)
    {
      SizeBytesStand(n);
      Behind(Contents(), SizeBytes(n));
      if n > 0xFFFFFFFF {
        CatTagged(254, n, 8);
        return 9;
      }
      if n > 0xFFFF + 250 {
        CatTagged(253, n, 4);
        return 5;
      }
      if n > 0xFF + 250 {
        CatTagged(252, n - 250, 2);
        return 3;
      }
      if n > 250 {
        CatTagged(251, n - 250, 1);
        return 2;
      }
      OneByte(n);
      CatNumber(n, 1);
      return 1;
    }

    /** sis_memory_get_ssize */
    method TakeSize() returns (n: nat)
      requires Valid() && |Contents()| > 0 && |Contents()| > Extra(Contents()[0])
      modifies this`offset
      ensures Valid() && n == SizeOf(old(Contents()))
      ensures Contents() == old(Contents())[1 + Extra(old(Contents())[0])..]
      ensures SizeReads(old(Contents()), n, |old(Contents())| - |Contents()|)
    {
      ghost var c := Contents();
      SizeOfReads(c);
      n := TakeNumber(1);
      assert c[..1] == [c[0]] && c[..1][1..] == [];
      if n == 254 || n == 255 {
        n := TakeNumber(8);
        assert c[1..][..8] == c[1..9];
      } else if n == 253 {
        n := TakeNumber(4);
        assert c[1..][..4] == c[1..5];
      } else if n == 252 {
        n := TakeNumber(2);
        n := n + 250;
        assert c[1..][..2] == c[1..3];
      } else if n == 251 {
        n := TakeNumber(1);
        n := n + 250;
        assert c[1..][..1] == c[1..2];
      }
    }

    /** sis_memory_try_ssize: whether a whole size stands at the front. */
    method TrySize() returns (ok: bool)
      requires Valid()
      ensures ok <==> |Contents()| > 0 && |Contents()| > Extra(Contents()[0])
      ensures ok <==> SizeWhole(Contents())
    {
      if size - offset < 1 {
        return false;
      }
      var first := data[offset];
      if first == 254 || first == 255 {
        return size - offset > 8;
      }
      if first == 253 {
        return size - offset > 4;
      }
      if first == 252 {
        return size - offset > 2;
      }
      if first == 251 {
        return size - offset > 1;
      }
      return true;
    }

    /** sis_memory_read: append some bytes of what is left of a file, none only at its end. */
    method ReadFrom(rest: seq<Byte>, limit: nat) returns (n: nat)
      requires Valid() && limit > 0
      modifies this, data
      ensures Valid() && n <= |rest| && n <= limit && Contents() == old(Contents()) + rest[..n]
      ensures n == 0 <==> rest == []
      ensures data == old(data) || fresh(data)
    {
      if rest == [] {
        n := 0;
        return;
      }
      n :| 0 < n <= |rest| && n <= limit;
      Pack();
      Cat(rest[..n]);
    }
  }
}
