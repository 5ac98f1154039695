/** SHA-1 of whole messages (src/core/sis_sha1.c): full blocks, and the padding put together in the word
    buffer of the last one or two blocks. */
module Sha1Message {
  import Bits
  import opened Sequences
  import opened Sha1

  type Octet = b: seq<bool> | |b| == 8 witness seq(8, _ => false)

  // A step over one block; what is said of whole messages holds for any.
  type Step = (Hash, seq<Word>) -> Hash

  // (unsigned int) of a byte
  function Widened(b: Octet): (r: Word)
    ensures forall i: nat :: i < WIDTH ==> r[i] == (i < 8 && b[i])
  {
    seq(WIDTH, i requires 0 <= i < WIDTH => i < 8 && b[i])
  }

  // ---------------------------------------------------------------------------
  // Blocks and padding: sections 5.1.1 and 5.2.1 of FIPS 180-4

  // Four bytes, the first one the most significant.
  function WordOf(a: Octet, b: Octet, c: Octet, d: Octet): Word {
    d + c + b + a
  }

  function BlockWords(bytes: seq<Octet>): (r: seq<Word>)
    requires |bytes| == 64
    ensures |r| == 16
  {
    seq(16, i requires 0 <= i < 16 => WordOf(bytes[4 * i], bytes[4 * i + 1], bytes[4 * i + 2], bytes[4 * i + 3]))
  }

  function HashBlocks(step: Step, h: Hash, bytes: seq<Octet>): Hash
    requires |bytes| % 64 == 0
    decreases |bytes|
  {
    if |bytes| == 0 then h else HashBlocks(step, step(h, BlockWords(bytes[..64])), bytes[64..])
  }

  function ZeroBits(n: nat): (r: seq<bool>)
    ensures |r| == n
  {
    seq(n, _ => false)
  }

  const ZERO: Octet := ZeroBits(8)
  // A one and seven zeros
  const ONE: Octet := ZeroBits(7) + [true]

  function Zeros(n: nat): (r: seq<Octet>)
    ensures |r| == n
  {
    seq(n, _ => ZERO)
  }

  // The number of bits in 64 bits, the most significant byte first.
  function LengthBytes(n: nat): (r: seq<Octet>)
    ensures |r| == 8
  {
    var l := Bits.Digits(8 * n, 64);
    [l[56..64], l[48..56], l[40..48], l[32..40], l[24..32], l[16..24], l[8..16], l[0..8]]
  }

  lemma WholeBlocks(n: nat)
    ensures (n + (1 + (55 - n) % 64 + 8)) % 64 == 0
  {}

  function Padding(n: nat): (r: seq<Octet>)
    ensures (n + |r|) % 64 == 0
  {
    WholeBlocks(n);
    [ONE] + Zeros((55 - n) % 64) + LengthBytes(n)
  }

  const INITIAL := Hash(
    Hex(X6, X7, X4, X5, X2, X3, X0, X1),
    Hex(XE, XF, XC, XD, XA, XB, X8, X9),
    Hex(X9, X8, XB, XA, XD, XC, XF, XE),
    Hex(X1, X0, X3, X2, X5, X4, X7, X6),
    Hex(XC, X3, XD, X2, XE, X1, XF, X0))

  function Sha1Step(h: Hash, m: seq<Word>): Hash {
    if |m| == 16 then Compress(h, m) else h
  }

  /** The hash of a message, for some step and the standard's initial value. */
  function DigestWith(step: Step, message: seq<Octet>): Hash {
    HashBlocks(step, INITIAL, message + Padding(|message|))
  }

  ghost predicate IsSha1(step: Step) {
    forall h, m {:trigger Compress(h, m)} :: |m| == 16 ==> step(h, m) == Compress(h, m)
  }

  // innerHash on the buffer
  method HashBuffer(h: Hash, w: array<Word>, ghost step: Step) returns (r: Hash)
    requires w.Length == 80 && IsSha1(step)
    modifies w
    ensures r == step(h, old(w[..16]))
  {
    r := InnerHash(h, w);
  }

  lemma HashFirst(step: Step, h: Hash, block: seq<Octet>, more: seq<Octet>)
    requires |block| == 64 && |more| % 64 == 0
    ensures HashBlocks(step, h, block + more) == HashBlocks(step, step(h, BlockWords(block)), more)
  {
    assert (block + more)[..64] == block && (block + more)[64..] == more;
  }

  // ---------------------------------------------------------------------------
  // Bytes into words

  lemma OrForm(a: Octet, b: Octet, c: Octet, d: Octet)
    ensures Or(Or(Or(Widened(d), ShiftUp(Widened(c), 8)), ShiftUp(Widened(b), 16)), ShiftUp(Widened(a), 24)) ==
      WordOf(a, b, c, d)
  {}

  // The byte goes to where a zero byte is.
  lemma PutByte(a: Octet, b: Octet, c: Octet, d: Octet, x: Octet)
    ensures a == ZERO ==> Or(WordOf(a, b, c, d), ShiftUp(Widened(x), 24)) == WordOf(x, b, c, d)
    ensures b == ZERO ==> Or(WordOf(a, b, c, d), ShiftUp(Widened(x), 16)) == WordOf(a, x, c, d)
    ensures c == ZERO ==> Or(WordOf(a, b, c, d), ShiftUp(Widened(x), 8)) == WordOf(a, b, x, d)
    ensures d == ZERO ==> Or(WordOf(a, b, c, d), ShiftUp(Widened(x), 0)) == WordOf(a, b, c, x)
  {}

  lemma FillStep(bytes: seq<Octet>, k: nat, x: Octet)
    requires |bytes| == 64 && k < 64 && bytes[k] == ZERO
    ensures BlockWords(bytes)[k / 4 := Or(BlockWords(bytes)[k / 4], ShiftUp(Widened(x), (3 - k % 4) * 8))] ==
      BlockWords(bytes[k := x])
  {
    var j := k / 4;
    PutByte(bytes[4 * j], bytes[4 * j + 1], bytes[4 * j + 2], bytes[4 * j + 3], x);
    assert k == 4 * j + k % 4;
  }

  /** One full block, word by word. */
  method LoadBlock(src: seq<Octet>, at: nat, w: array<Word>)
    requires at + 64 <= |src| && w.Length == 80
    modifies w
    ensures w[..16] == BlockWords(src[at..at + 64])
  {
    var i := 0;
    ghost var block := src[at..at + 64];
    while i < 16
      invariant 0 <= i <= 16 && forall j :: 0 <= j < i ==> w[j] == BlockWords(block)[j]
    {
      var p := at + 4 * i;
      OrForm(src[p], src[p + 1], src[p + 2], src[p + 3]);
      w[i] := Or(Or(Or(Widened(src[p + 3]), ShiftUp(Widened(src[p + 2]), 8)), ShiftUp(Widened(src[p + 1]), 16)),
        ShiftUp(Widened(src[p]), 24));
      i := i + 1;
    }
  }

  method ClearBuffer(w: array<Word>)
    requires w.Length == 80
    modifies w
    ensures w[..16] == BlockWords(Zeros(64))
  {
    forall i | 0 <= i < 16 {
      w[i] := ZeroBits(32);
    }
    assert forall i :: 0 <= i < 16 ==> BlockWords(Zeros(64))[i] == ZeroBits(32);
  }

  // w[k >> 2] |= x << ((3 - (k & 3)) << 3)
  method Put(w: array<Word>, k: nat, x: Octet, ghost bytes: seq<Octet>)
    requires w.Length == 80 && |bytes| == 64 && k < 64 && bytes[k] == ZERO && w[..16] == BlockWords(bytes)
    modifies w
    ensures w[..16] == BlockWords(bytes[k := x])
  {
    FillStep(bytes, k, x);
    ghost var was := w[..16];
    w[k / 4] := Or(w[k / 4], ShiftUp(Widened(x), (3 - k % 4) * 8));
    assert w[..16] == was[k / 4 := w[k / 4]];
  }

  /** What is left after the full blocks, and the 1 bit. */
  method LoadRest(rest: seq<Octet>, w: array<Word>)
    requires |rest| < 64 && w.Length == 80
    modifies w
    ensures w[..16] == BlockWords(rest + [ONE] + Zeros(63 - |rest|))
  {
    ClearBuffer(w);
    assert rest[..0] + Zeros(64) == Zeros(64);
    var i := 0;
    while i < |rest|
      invariant 0 <= i <= |rest| && w[..16] == BlockWords(rest[..i] + Zeros(64 - i))
    {
      Put(w, i, rest[i], rest[..i] + Zeros(64 - i));
      assert (rest[..i] + Zeros(64 - i))[i := rest[i]] == rest[..i + 1] + Zeros(64 - (i + 1));
      i := i + 1;
    }
    assert rest[..i] == rest;
    Put(w, i, ONE, rest + Zeros(64 - i));
    assert (rest + Zeros(64 - i))[i := ONE] == rest + [ONE] + Zeros(63 - i);
  }

  // ---------------------------------------------------------------------------
  // The length

  lemma {:induction false} DigitsPrefix(n: nat, v: nat, w: nat)
    requires v <= w
    ensures Bits.Digits(n, w)[..v] == Bits.Digits(n, v)
  {
    if v > 0 {
      DigitsPrefix(n / 2, v - 1, w - 1);
      assert Bits.Digits(n, w)[..v] == [n % 2 == 1] + Bits.Digits(n / 2, w - 1)[..v - 1];
    }
  }

  lemma {:induction false} DigitsEnd(n: nat, v: nat, w: nat)
    requires v <= w && n < Bits.Pow2(v)
    ensures Bits.Digits(n, w)[v..] == ZeroBits(w - v)
  {
    if v > 0 {
      DigitsEnd(n / 2, v - 1, w - 1);
      assert Bits.Digits(n, w)[v..] == Bits.Digits(n / 2, w - 1)[v - 1..];
    } else {
      DigitsOfZero(w);
    }
  }

  lemma {:induction false} DigitsOfZero(w: nat)
    ensures Bits.Digits(0, w) == ZeroBits(w)
  {
    if w > 0 {
      DigitsOfZero(w - 1);
      assert ZeroBits(w) == [false] + ZeroBits(w - 1);
    }
  }

  // n << 1
  lemma DigitsDouble(n: nat, w: nat)
    requires w > 0
    ensures Bits.Digits(2 * n, w) == [false] + Bits.Digits(n, w - 1)
  {}

  lemma DigitsTimesEight(n: nat, w: nat)
    requires w >= 3
    ensures Bits.Digits(8 * n, w) == ZeroBits(3) + Bits.Digits(n, w - 3)
  {
    DigitsDouble(4 * n, w);
    DigitsDouble(2 * n, w - 1);
    DigitsDouble(n, w - 2);
    assert ZeroBits(3) == [false, false, false];
  }

  // bytelength << 3 is the number of bits.
  lemma ShiftedLength(n: nat, x: Word, w: nat)
    requires w == WIDTH && x == Bits.Digits(n, w)
    ensures ShiftUp(x, 3) == Bits.Digits(8 * n, w)
  {
    DigitsTimesEight(n, w);
    DigitsPrefix(n, w - 3, w);
  }

  // The length in bits fits one word, the other is zero.
  lemma LengthSplit(n: nat)
    requires n < Bits.Pow2(28)
    ensures Bits.Digits(8 * n, 64)[..32] == ShiftUp(FromNumber(n), 3)
    ensures Bits.Digits(8 * n, 64)[32..] == ZeroBits(32)
  {
    ShiftedLength(n, FromNumber(n), WIDTH);
    DigitsPrefix(8 * n, 32, 64);
    assert 8 * Bits.Pow2(28) == Bits.Pow2(31) && Bits.Pow2(31) < Bits.Pow2(32);
    DigitsEnd(8 * n, 32, 64);
  }

  // The last two words of a block that ends in the length.
  lemma LengthWords(x: seq<Octet>, n: nat)
    requires |x| == 56 && n < Bits.Pow2(28)
    ensures BlockWords(x + LengthBytes(n)) == BlockWords(x + Zeros(8))[15 := ShiftUp(FromNumber(n), 3)]
  {
    var l := Bits.Digits(8 * n, 64);
    var b := x + LengthBytes(n);
    LengthSplit(n);
    assert BlockWords(b)[15] == l[..32];
    assert BlockWords(b)[14] == l[32..] == BlockWords(x + Zeros(8))[14];
  }

  // ---------------------------------------------------------------------------
  // Whole messages

  ghost predicate ComesTo(step: Step, h: Hash, bytes: seq<Octet>, outcome: Hash) {
    |bytes| % 64 == 0 && HashBlocks(step, h, bytes) == outcome
  }

  // The full-block loop, whatever the padding; what is left is shorter than a block.
  method FullBlocks(initial: Hash, src: seq<Octet>, w: array<Word>, ghost padding: seq<Octet>, ghost step: Step,
      ghost outcome: Hash) returns (result: Hash, at: nat)
    requires w.Length == 80 && IsSha1(step) && ComesTo(step, initial, src + padding, outcome)
    modifies w
    ensures at <= |src| < at + 64 && at % 64 == 0 && ComesTo(step, result, src[at..] + padding, outcome)
  {
    result, at := initial, 0;
    var endOfFullBlocks := |src| - 64;
    assert src[0..] == src;
    while at <= endOfFullBlocks
      invariant at <= |src| && at % 64 == 0 && ComesTo(step, result, src[at..] + padding, outcome)
    {
      BlockFirst(step, src, at, padding, result, outcome);
      LoadBlock(src, at, w);
      result := HashBuffer(result, w, step);
      at := at + 64;
    }
  }

  lemma BlockFirst(step: Step, src: seq<Octet>, at: nat, padding: seq<Octet>, h: Hash, outcome: Hash)
    requires at + 64 <= |src| && ComesTo(step, h, src[at..] + padding, outcome)
    ensures ComesTo(step, step(h, BlockWords(src[at..at + 64])), src[at + 64..] + padding, outcome)
  {
    var block, more := src[at..at + 64], src[at + 64..] + padding;
    assert src[at..] + padding == block + more;
    assert |more| == |src[at..] + padding| - 64;
    HashFirst(step, h, block, more);
  }

  lemma LastBlock(step: Step, h: Hash, block: seq<Octet>, outcome: Hash)
    requires |block| == 64 && ComesTo(step, h, block, outcome)
    ensures step(h, BlockWords(block)) == outcome
  {
    EmptyRight(block);
    HashFirst(step, h, block, []);
  }

  // The padding of what is left, in one block or two.
  lemma PaddedRest(rest: seq<Octet>, n: nat)
    requires |rest| < 64 && n % 64 == |rest|
    ensures |rest| < 56 ==> rest + Padding(n) == (rest + [ONE] + Zeros(55 - |rest|)) + LengthBytes(n)
    ensures |rest| >= 56 ==> rest + Padding(n) == (rest + [ONE] + Zeros(63 - |rest|)) + (Zeros(56) + LengthBytes(n))
  {
    ZerosAfterOne(n, |rest|);
    Regrouped(rest, [ONE], (55 - n) % 64, LengthBytes(n));
  }

  lemma ZerosAfterOne(n: nat, k: nat)
    requires k < 64 && n % 64 == k
    ensures (55 - n) % 64 == if k < 56 then 55 - k else 119 - k
  {}

  lemma Regrouped(rest: seq<Octet>, one: seq<Octet>, z: nat, l: seq<Octet>)
    ensures rest + (one + Zeros(z) + l) == (rest + one + Zeros(z)) + l
    ensures z >= 56 ==> rest + (one + Zeros(z) + l) == (rest + one + Zeros(z - 56)) + (Zeros(56) + l)
  {
    assert z >= 56 ==> Zeros(z) == Zeros(z - 56) + Zeros(56);
  }

  lemma OneBlock(step: Step, rest: seq<Octet>, n: nat, h: Hash, outcome: Hash)
    requires |rest| < 56 && n % 64 == |rest| && n < Bits.Pow2(28) && ComesTo(step, h, rest + Padding(n), outcome)
    ensures step(h, BlockWords(rest + [ONE] + Zeros(63 - |rest|))[15 := ShiftUp(FromNumber(n), 3)]) == outcome
  {
    var x := rest + [ONE] + Zeros(55 - |rest|);
    PaddedRest(rest, n);
    LengthWords(x, n);
    assert x + Zeros(8) == rest + [ONE] + Zeros(63 - |rest|);
    LastBlock(step, h, x + LengthBytes(n), outcome);
  }

  lemma TwoBlocks(step: Step, rest: seq<Octet>, n: nat, h: Hash, outcome: Hash)
    requires 56 <= |rest| < 64 && n % 64 == |rest| && n < Bits.Pow2(28) && ComesTo(step, h, rest + Padding(n), outcome)
    ensures var h' := step(h, BlockWords(rest + [ONE] + Zeros(63 - |rest|)));
      step(h', BlockWords(Zeros(64))[15 := ShiftUp(FromNumber(n), 3)]) == outcome
  {
    var block, x := rest + [ONE] + Zeros(63 - |rest|), Zeros(56);
    PaddedRest(rest, n);
    LengthWords(x, n);
    assert x + Zeros(8) == Zeros(64);
    HashFirst(step, h, block, x + LengthBytes(n));
    LastBlock(step, step(h, BlockWords(block)), x + LengthBytes(n), outcome);
  }

  // The ending.
  method LastBlocks(rest: seq<Octet>, n: nat, h: Hash, w: array<Word>, ghost step: Step, ghost outcome: Hash)
    returns (result: Hash)
    requires IsSha1(step) && |rest| < 64 && n % 64 == |rest| && n < Bits.Pow2(28) && w.Length == 80 &&
      ComesTo(step, h, rest + Padding(n), outcome)
    modifies w
    ensures result == outcome
  {
    result := h;
    LoadRest(rest, w);
    if |rest| >= 56 {
      TwoBlocks(step, rest, n, h, outcome);
      result := HashBuffer(result, w, step);
      ClearBuffer(w);
    } else {
      OneBlock(step, rest, n, h, outcome);
    }
    SetLast(w, ShiftUp(FromNumber(n), 3));
    result := HashBuffer(result, w, step);
  }

  method SetLast(w: array<Word>, x: Word)
    requires w.Length == 80
    modifies w
    ensures w[..16] == old(w[..16])[15 := x]
  {
    w[15] := x;
  }

  method HashMessage(initial: Hash, src: seq<Octet>, ghost padding: seq<Octet>, ghost step: Step, ghost outcome: Hash)
    returns (result: Hash)
    requires |src| < Bits.Pow2(28) && IsSha1(step) && padding == Padding(|src|) &&
      ComesTo(step, initial, src + padding, outcome)
    ensures result == outcome
  {
    var w := new Word[80](_ => ZeroBits(32));
    var at;
    result, at := FullBlocks(initial, src, w, padding, step, outcome);
    result := LastBlocks(src[at..], |src|, result, w, step, outcome);
  }

  method CalcWith(src: seq<Octet>, ghost step: Step) returns (result: Hash)
    requires |src| < Bits.Pow2(28) && IsSha1(step)
    ensures result == DigestWith(step, src)
  {
    result := HashMessage(INITIAL, src, Padding(|src|), step, DigestWith(step, src));
  }

  lemma Sha1StepIs()
    ensures IsSha1(Sha1Step)
  {}

  /** shacalc, up to the five words: for any message below 2^28 bytes the full-block loop and the one-
      or two-block ending give the digest of the standard. */
  method ShaCalc(src: seq<Octet>) returns (result: Hash)
    requires |src| < Bits.Pow2(28)
    ensures result == DigestWith(Sha1Step, src)
  {
    Sha1StepIs();
    result := CalcWith(src, Sha1Step);
  }
}
