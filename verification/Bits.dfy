/** The hash table's 64-bit words, as their bits (least significant first): the C operators on
    them, the numbers they stand for, and bit reversal. */
module Bits {
  import opened Sequences

  const WORD_BITS := 64

  type Word = b: seq<bool> | |b| == WORD_BITS witness seq(WORD_BITS, _ => false)

  function Pow2(n: nat): (r: nat)
    ensures r > 0
  {
    if n == 0 then 1 else 2 * Pow2(n - 1)
  }

  lemma {:induction false} Pow2Grows(a: nat, b: nat)
    requires a < b
    ensures 2 * Pow2(a) <= Pow2(b)
  {
    if a + 1 < b {
      Pow2Grows(a, b - 1);
    }
  }

  // ---------------------------------------------------------------------------
  // C operators, bit by bit

  function And(a: Word, b: Word): (r: Word)
    ensures forall i: nat :: i < WORD_BITS ==> r[i] == (a[i] && b[i])
  {
    seq(WORD_BITS, i requires 0 <= i < WORD_BITS => a[i] && b[i])
  }

  function Or(a: Word, b: Word): (r: Word)
    ensures forall i: nat :: i < WORD_BITS ==> r[i] == (a[i] || b[i])
  {
    seq(WORD_BITS, i requires 0 <= i < WORD_BITS => a[i] || b[i])
  }

  function Xor(a: Word, b: Word): (r: Word)
    ensures forall i: nat :: i < WORD_BITS ==> r[i] == (a[i] != b[i])
  {
    seq(WORD_BITS, i requires 0 <= i < WORD_BITS => a[i] != b[i])
  }

  function Not(a: Word): (r: Word)
    ensures forall i: nat :: i < WORD_BITS ==> r[i] == !a[i]
  {
    seq(WORD_BITS, i requires 0 <= i < WORD_BITS => !a[i])
  }

  function ShiftUp(a: Word, s: nat): (r: Word)
    ensures forall i: nat :: i < WORD_BITS ==> r[i] == (i >= s && a[i - s])
  {
    seq(WORD_BITS, i requires 0 <= i < WORD_BITS => i >= s && a[i - s])
  }

  function ShiftDown(a: Word, s: nat): (r: Word)
    ensures forall i: nat :: i < WORD_BITS ==> r[i] == (i + s < WORD_BITS && a[i + s])
  {
    seq(WORD_BITS, i requires 0 <= i < WORD_BITS => i + s < WORD_BITS && a[i + s])
  }

  // v + 1, the carry out of the top lost
  function Increment(b: seq<bool>): (r: seq<bool>)
    ensures |r| == |b|
  {
    if b == [] then []
    else if b[0] then [false] + Increment(b[1..])
    else [true] + b[1..]
  }

  /** The word whose low k bits are set. */
  function Mask(k: nat): (r: Word)
    requires k <= WORD_BITS
    ensures forall i: nat :: i < WORD_BITS ==> r[i] == (i < k)
  {
    seq(WORD_BITS, i => i < k)
  }

  // ---------------------------------------------------------------------------
  // Numbers

  /** The value of a bit string, least significant bit first. */
  function Value(b: seq<bool>): (r: nat)
    ensures r < Pow2(|b|)
  {
    if b == [] then 0 else (if b[0] then 1 else 0) + 2 * Value(b[1..])
  }

  function Reversed(b: seq<bool>): (r: seq<bool>)
    ensures |r| == |b|
    ensures forall i :: 0 <= i < |b| ==> r[i] == b[|b| - 1 - i]
  {
    seq(|b|, i requires 0 <= i < |b| => b[|b| - 1 - i])
  }

  /** The same string read with its first bit as the most significant one. */
  function Position(b: seq<bool>): nat {
    Value(Reversed(b))
  }

  /** The w low binary digits of n. */
  function Digits(n: nat, w: nat): (r: seq<bool>)
    ensures |r| == w
  {
    if w == 0 then [] else [n % 2 == 1] + Digits(n / 2, w - 1)
  }

  lemma MulDouble(p: nat, n: nat)
    ensures (2 * p) * n == 2 * (p * n)
  {}

  lemma {:induction false} ValueConcat(a: seq<bool>, b: seq<bool>)
    ensures Value(a + b) == Value(a) + Pow2(|a|) * Value(b)
  {
    if a == [] {
      EmptyLeft(b);
    } else {
      var p, n := Pow2(|a| - 1), Value(b);
      ValueConcat(a[1..], b);
      assert (a + b)[1..] == a[1..] + b;
      MulDouble(p, n);
    }
  }

  lemma {:induction false} ValueInjective(a: seq<bool>, b: seq<bool>)
    requires |a| == |b| && Value(a) == Value(b)
    ensures a == b
  {
    if a != [] {
      ValueInjective(a[1..], b[1..]);
      assert a == [a[0]] + a[1..] && b == [b[0]] + b[1..];
    }
  }

  lemma {:induction false} ValueUniform(b: seq<bool>, bit: bool)
    requires forall i :: 0 <= i < |b| ==> b[i] == bit
    ensures Value(b) == if bit then Pow2(|b|) - 1 else 0
  {
    if b != [] {
      ValueUniform(b[1..], bit);
    }
  }

  lemma {:induction false} IncrementAddsOne(b: seq<bool>)
    ensures Value(Increment(b)) == if Value(b) + 1 == Pow2(|b|) then 0 else Value(b) + 1
  {
    if b != [] {
      if b[0] {
        IncrementAddsOne(b[1..]);
        assert ([false] + Increment(b[1..]))[1..] == Increment(b[1..]);
      } else {
        assert ([true] + b[1..])[1..] == b[1..];
      }
    }
  }

  lemma {:induction false} DigitsOfMask(k: nat, w: nat)
    requires k <= w
    ensures Digits(Pow2(k) - 1, w) == seq(w, i => i < k)
  {
    if w > 0 {
      var m := if k == 0 then 0 else k - 1;
      DigitsOfMask(m, w - 1);
      assert (Pow2(k) - 1) % 2 == (if k == 0 then 0 else 1) && (Pow2(k) - 1) / 2 == Pow2(m) - 1;
      assert seq(w, i => i < k) == [k > 0] + seq(w - 1, i => i < m);
    }
  }

  // The mask of a table of 2^k buckets has its k low bits set.
  lemma MaskBits(k: nat, m: Word)
    requires k <= WORD_BITS && m == Digits(Pow2(k) - 1, WORD_BITS)
    ensures forall i: nat :: i < WORD_BITS ==> m[i] == (i < k)
  {
    DigitsOfMask(k, WORD_BITS);
  }

  lemma ReversedConcat(a: seq<bool>, b: seq<bool>)
    ensures Reversed(a + b) == Reversed(b) + Reversed(a)
  {
    var r := Reversed(b) + Reversed(a);
    forall i | 0 <= i < |a| + |b| ensures Reversed(a + b)[i] == r[i] {
      if i < |b| {} else {}
    }
  }

  lemma ReversedTwice(b: seq<bool>)
    ensures Reversed(Reversed(b)) == b
  {
    forall i | 0 <= i < |b| ensures Reversed(Reversed(b))[i] == b[i] {
      assert Reversed(b)[|b| - 1 - i] == b[i];
    }
  }

  lemma PositionConcat(a: seq<bool>, b: seq<bool>)
    ensures Position(a + b) == Pow2(|b|) * Position(a) + Position(b)
  {
    var ra, rb := Reversed(a), Reversed(b);
    ReversedConcat(a, b);
    ValueConcat(rb, ra);
  }

  lemma PositionInjective(a: seq<bool>, b: seq<bool>)
    requires |a| == |b| && Position(a) == Position(b)
    ensures a == b
  {
    ValueInjective(Reversed(a), Reversed(b));
    ReversedTwice(a);
    ReversedTwice(b);
  }

  // ---------------------------------------------------------------------------
  // Bit reversal

  // Binary digit k of an index, and the index made of the digits below it.
  function Digit(i: nat, k: nat): (r: nat)
    ensures r <= 1
  {
    if k == 0 then i % 2 else Digit(i / 2, k - 1)
  }

  function Below(i: nat, k: nat): (r: nat)
    ensures r < Pow2(k)
  {
    if k == 0 then 0 else i % 2 + 2 * Below(i / 2, k - 1)
  }

  lemma {:induction false} DigitSplits(i: nat, k: nat)
    ensures Below(i, k + 1) == Below(i, k) + (if Digit(i, k) == 1 then Pow2(k) else 0)
  {
    if k == 0 {
      assert Below(i / 2, 0) == 0;
    } else {
      DigitSplits(i / 2, k - 1);
    }
  }

  // Adding or taking away 2^k above digit 0 leaves digit 0 alone.
  lemma HalfFlip(i: nat, k: nat)
    requires k > 0
    ensures (i + Pow2(k)) / 2 == i / 2 + Pow2(k - 1) && (i + Pow2(k)) % 2 == i % 2
    ensures i >= Pow2(k) <==> i / 2 >= Pow2(k - 1)
    ensures i >= Pow2(k) ==> (i - Pow2(k)) / 2 == i / 2 - Pow2(k - 1) && (i - Pow2(k)) % 2 == i % 2
  {
    var p := Pow2(k - 1);
    assert Pow2(k) == 2 * p;
  }

  lemma {:induction false} FlipUp(i: nat, k: nat)
    requires Digit(i, k) == 0
    ensures Below(i + Pow2(k), k) == Below(i, k) && Digit(i + Pow2(k), k) == 1
  {
    if k > 0 {
      HalfFlip(i, k);
      FlipUp(i / 2, k - 1);
    }
  }

  lemma {:induction false} FlipDown(i: nat, k: nat)
    requires Digit(i, k) == 1
    ensures i >= Pow2(k) && Below(i - Pow2(k), k) == Below(i, k)
    ensures Digit(i - Pow2(k), k) == 0 && Digit(i - Pow2(k), k + 1) == Digit(i, k + 1)
  {
    if k == 0 {
      assert Digit(i, 1) == Digit(i / 2, 0) && Digit(i - 1, 1) == Digit((i - 1) / 2, 0);
    } else {
      FlipDown(i / 2, k - 1);
      HalfFlip(i, k);
    }
  }

  // Taking 2^k away from an index whose digit k is 0 borrows from digit k + 1.
  lemma {:induction false} Borrow(i: nat, k: nat)
    requires Digit(i, k) == 0
    ensures i >= Pow2(k) ==> Digit(i - Pow2(k), k + 1) == 1 - Digit(i, k + 1)
    ensures i < Pow2(k) ==> Digit(i, k + 1) == 0
  {
    if k == 0 {
      assert Digit(i, 1) == Digit(i / 2, 0);
      assert i >= 1 ==> Digit(i - 1, 1) == Digit((i - 1) / 2, 0);
    } else {
      HalfFlip(i, k);
      Borrow(i / 2, k - 1);
    }
  }

  lemma {:induction false} SmallIndex(i: nat, k: nat)
    requires i < Pow2(k)
    ensures Below(i, k) == i && Digit(i, k) == 0
  {
    if k > 0 {
      SmallIndex(i / 2, k - 1);
    }
  }

  lemma {:induction false} Fits(i: nat, k: nat, n: nat)
    requires k < n && i < Pow2(n) && Digit(i, k) == 0
    ensures i + Pow2(k) < Pow2(n)
  {
    if k > 0 {
      Fits(i / 2, k - 1, n - 1);
      Doubles(i, Pow2(k - 1), Pow2(n - 1));
    } else {
      Doubles(i, 0, Pow2(n - 1));
    }
  }

  lemma Doubles(i: nat, p: nat, q: nat)
    ensures i / 2 + p < q ==> i + 2 * p < 2 * q
    ensures i < 2 * q && i % 2 == 0 ==> i + 1 < 2 * q
  {}

  // Which bit of the word stands at i once groups of 32, 16, ..., 2^k bits have changed places.
  function Source(i: nat, k: nat): int {
    WORD_BITS - Pow2(k) - i + 2 * Below(i, k)
  }

  lemma MaskStep(i: nat, k: nat)
    ensures (Digit(i, k) == 0) == ((Digit(i, k + 1) == 0) != (i >= Pow2(k) && Digit(i - Pow2(k), k + 1) == 0))
  {
    if Digit(i, k) == 0 {
      Borrow(i, k);
    } else {
      FlipDown(i, k);
    }
  }

  lemma SwapStep(i: nat, k: nat)
    requires k < 6 && i < Pow2(6)
    ensures Digit(i, k) == 0 ==> i + Pow2(k) < Pow2(6) && Source(i + Pow2(k), k + 1) == Source(i, k)
    ensures Digit(i, k) == 1 ==> i >= Pow2(k) && Source(i - Pow2(k), k + 1) == Source(i, k)
  {
    if Digit(i, k) == 0 {
      FlipUp(i, k);
      Fits(i, k, 6);
      DigitSplits(i + Pow2(k), k);
    } else {
      FlipDown(i, k);
      DigitSplits(i - Pow2(k), k);
    }
  }

  /** The swap loop: the shift is halved and the mask refined until single bits have changed places. */
  method Rev(v0: Word) returns (v: Word)
    ensures v == Reversed(v0)
  {
    v := v0;
    var s := WORD_BITS / 2;
    var mask := Not(Mask(0));
    ghost var k := 6;
    assert Pow2(3) == 8;
    forall i: nat | i < WORD_BITS ensures Digit(i, 6) == 0 && Source(i, 6) == i {
      SmallIndex(i, 6);
    }
    while s > 0
      invariant 0 <= k <= 6 && s == Pow2(k) / 2
      invariant forall i: nat :: i < WORD_BITS ==> mask[i] == (Digit(i, k) == 0)
      invariant forall i: nat :: i < WORD_BITS ==> 0 <= Source(i, k) < WORD_BITS && v[i] == v0[Source(i, k)]
    {
      assert k > 0 && s == Pow2(k - 1);
      mask := NextMask(mask, k - 1, s);
      v := SwapGroups(v0, v, mask, k - 1, s);
      k, s := k - 1, s / 2;
    }
    assert forall i: nat :: i < WORD_BITS ==> Source(i, 0) == WORD_BITS - 1 - i;
  }

  // mask ^= mask << s
  method NextMask(mask: Word, ghost k: nat, s: nat) returns (r: Word)
    requires s == Pow2(k) && forall i: nat :: i < WORD_BITS ==> mask[i] == (Digit(i, k + 1) == 0)
    ensures forall i: nat :: i < WORD_BITS ==> r[i] == (Digit(i, k) == 0)
  {
    r := Xor(mask, ShiftUp(mask, s));
    forall i: nat | i < WORD_BITS ensures r[i] == (Digit(i, k) == 0) {
      MaskStep(i, k);
    }
  }

  // v = ((v >> s) & mask) | ((v << s) & ~mask)
  method SwapGroups(ghost v0: Word, v: Word, mask: Word, ghost k: nat, s: nat) returns (r: Word)
    requires k < 6 && Pow2(6) == WORD_BITS && s == Pow2(k)
    requires forall i: nat :: i < WORD_BITS ==> mask[i] == (Digit(i, k) == 0)
    requires forall i: nat :: i < WORD_BITS ==> 0 <= Source(i, k + 1) < WORD_BITS && v[i] == v0[Source(i, k + 1)]
    ensures forall i: nat :: i < WORD_BITS ==> 0 <= Source(i, k) < WORD_BITS && r[i] == v0[Source(i, k)]
  {
    r := Or(And(ShiftDown(v, s), mask), And(ShiftUp(v, s), Not(mask)));
    forall i: nat | i < WORD_BITS ensures 0 <= Source(i, k) < WORD_BITS && r[i] == v0[Source(i, k)] {
      SwapStep(i, k);
    }
  }
}
