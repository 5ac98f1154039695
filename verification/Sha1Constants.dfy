/** The constants of SHA-1 by what they are: the additive constants of section 4.2.1 of FIPS 180-4 are 2^30 times the
    square roots of 2, 3, 5 and 10, cut to whole numbers, and the first hash value of section 5.3.1 is the digits
    from 0 to f up and down again, and once more half of them, in the order of bytes of a little-endian machine. */
module Sha1Constants {
  import Bits
  import opened Memory
  import opened Sequences
  import opened Sha1
  import opened Sha1Message

  // The digit a nibble stands for
  function Digit(x: Nibble): nat {
    (if x[0] then 1 else 0) + (if x[1] then 2 else 0) + (if x[2] then 4 else 0) + (if x[3] then 8 else 0)
  }

  lemma NibbleValue(x: Nibble)
    ensures Bits.Value(x) == Digit(x) && Bits.Pow2(4) == 16
  {
    assert Bits.Value(x[1..]) == (if x[1] then 1 else 0) + 2 * Bits.Value(x[1..][1..]);
    assert Bits.Value(x[1..][1..]) == (if x[2] then 1 else 0) + 2 * Bits.Value(x[1..][1..][1..]);
    assert Bits.Value(x[1..][1..][1..]) == (if x[3] then 1 else 0) + 2 * Bits.Value(x[1..][1..][1..][1..]);
    assert Bits.Pow2(3) == 2 * Bits.Pow2(2);
  }

  // A digit more in front
  lemma DigitUp(low: seq<bool>, x: Nibble, p: nat)
    requires Bits.Pow2(|low|) == p
    ensures Bits.Value(low + x) == Bits.Value(low) + p * Digit(x)
    ensures Bits.Pow2(|low + x|) == 16 * p
  {
    NibbleValue(x);
    Bits.ValueConcat(low, x);
    assert Bits.Pow2(|low| + 4) == 2 * Bits.Pow2(|low| + 3) && Bits.Pow2(|low| + 2) == 2 * Bits.Pow2(|low| + 1);
  }

  /** The number eight hexadecimal digits stand for */
  lemma HexValue(a: Nibble, b: Nibble, c: Nibble, d: Nibble, e: Nibble, f: Nibble, g: Nibble, h: Nibble)
    ensures Bits.Value(Hex(a, b, c, d, e, f, g, h)) ==
      Digit(h) + 0x10 * Digit(g) + 0x100 * Digit(f) + 0x1000 * Digit(e) + 0x1_0000 * Digit(d) + 0x10_0000 * Digit(c) +
      0x100_0000 * Digit(b) + 0x1000_0000 * Digit(a)
  {
    NibbleValue(h);
    DigitUp(h, g, 0x10);
    DigitUp(h + g, f, 0x100);
    DigitUp(h + g + f, e, 0x1000);
    DigitUp(h + g + f + e, d, 0x1_0000);
    DigitUp(h + g + f + e + d, c, 0x10_0000);
    DigitUp(h + g + f + e + d + c, b, 0x100_0000);
    DigitUp(h + g + f + e + d + c + b, a, 0x1000_0000);
  }

  // What is under the root, round by round
  function Under(t: nat): nat { if t < 20 then 2 else if t < 40 then 3 else if t < 60 then 5 else 10 }

  lemma ConstantNumbers(t: nat)
    ensures Bits.Value(K(t)) ==
      if t < 20 then 0x5a82_7999 else if t < 40 then 0x6ed9_eba1 else if t < 60 then 0x8f1b_bcdc else 0xca62_c1d6
  {
    HexValue(X5, XA, X8, X2, X7, X9, X9, X9);
    HexValue(X6, XE, XD, X9, XE, XB, XA, X1);
    HexValue(X8, XF, X1, XB, XB, XC, XD, XC);
    HexValue(XC, XA, X6, X2, XC, X1, XD, X6);
  }

  /** Each constant is the greatest number whose square is not above 2^60 times that. */
  lemma ConstantsAreRoots(t: nat)
    ensures var k, n := Bits.Value(K(t)), 0x1000_0000_0000_0000 * Under(t); k * k <= n < (k + 1) * (k + 1)
  {
    ConstantNumbers(t);
  }

  // The bytes of a word, lowest first
  function LowFirst(w: Word): seq<Byte> { Bytes(Bits.Value(w), 4) }

  lemma {:induction false} BytesOfNumber(b: seq<Byte>)
    ensures Bytes(Number(b), |b|) == b
  {
    if b != [] {
      BytesOfNumber(b[1..]);
      LowByte(b[0], Number(b[1..]));
    }
  }

  lemma LowByte(b: Byte, n: nat)
    ensures (b + 256 * n) % 256 == b && (b + 256 * n) / 256 == n
  {}

  function Pair(high: Nibble, low: Nibble): Byte { 16 * Digit(high) + Digit(low) }

  lemma PairsAreBytes(a: Nibble, b: Nibble, c: Nibble, d: Nibble, e: Nibble, f: Nibble, g: Nibble, h: Nibble)
    ensures LowFirst(Hex(a, b, c, d, e, f, g, h)) ==
      [Pair(g, h), Pair(e, f), Pair(c, d), Pair(a, b)]
  {
    HexValue(a, b, c, d, e, f, g, h);
    var bytes := [Pair(g, h), Pair(e, f), Pair(c, d), Pair(a, b)];
    NumberOfFour(bytes);
    BytesOfNumber(bytes);
  }

  /** The words of the first hash value, lowest byte first. */
  lemma InitialBytes()
    ensures LowFirst(INITIAL.a) == [0x01, 0x23, 0x45, 0x67] && LowFirst(INITIAL.b) == [0x89, 0xab, 0xcd, 0xef]
    ensures LowFirst(INITIAL.c) == [0xfe, 0xdc, 0xba, 0x98] && LowFirst(INITIAL.d) == [0x76, 0x54, 0x32, 0x10]
    ensures LowFirst(INITIAL.e) == [0xf0, 0xe1, 0xd2, 0xc3]
  {
    PairsAreBytes(X6, X7, X4, X5, X2, X3, X0, X1);
    PairsAreBytes(XE, XF, XC, XD, XA, XB, X8, X9);
    PairsAreBytes(X9, X8, XB, XA, XD, XC, XF, XE);
    PairsAreBytes(X1, X0, X3, X2, X5, X4, X7, X6);
    PairsAreBytes(XC, X3, XD, X2, XE, X1, XF, X0);
  }
}
