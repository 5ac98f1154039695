/** The compression step of SHA-1 as src/core/sis_sha1.c computes it, against FIPS 180-4: the message
    schedule is worked out in place between the rounds. Words are their bits, least significant first. */
module Sha1 {
  import Bits

  const WIDTH := 32

  type Word = b: seq<bool> | |b| == WIDTH witness seq(WIDTH, _ => false)

  // ---------------------------------------------------------------------------
  // C operators

  function And(a: Word, b: Word): (r: Word)
    ensures forall i: nat :: i < WIDTH ==> r[i] == (a[i] && b[i])
  {
    seq(WIDTH, i requires 0 <= i < WIDTH => a[i] && b[i])
  }

  function Or(a: Word, b: Word): (r: Word)
    ensures forall i: nat :: i < WIDTH ==> r[i] == (a[i] || b[i])
  {
    seq(WIDTH, i requires 0 <= i < WIDTH => a[i] || b[i])
  }

  function Xor(a: Word, b: Word): (r: Word)
    ensures forall i: nat :: i < WIDTH ==> r[i] == (a[i] != b[i])
  {
    seq(WIDTH, i requires 0 <= i < WIDTH => a[i] != b[i])
  }

  function Not(a: Word): (r: Word)
    ensures forall i: nat :: i < WIDTH ==> r[i] == !a[i]
  {
    seq(WIDTH, i requires 0 <= i < WIDTH => !a[i])
  }

  function ShiftUp(a: Word, s: nat): (r: Word)
    ensures forall i: nat :: i < WIDTH ==> r[i] == (i >= s && a[i - s])
  {
    seq(WIDTH, i requires 0 <= i < WIDTH => i >= s && a[i - s])
  }

  function ShiftDown(a: Word, s: nat): (r: Word)
    ensures forall i: nat :: i < WIDTH ==> r[i] == (i + s < WIDTH && a[i + s])
  {
    seq(WIDTH, i requires 0 <= i < WIDTH => i + s < WIDTH && a[i + s])
  }

  // The word for a number, modulo 2^32; the sum of words is theirs modulo 2^32.
  function FromNumber(n: nat): Word { Bits.Digits(n, WIDTH) }

  // Hexadecimal digits, and the word written with eight of them.
  type Nibble = b: seq<bool> | |b| == 4 witness [false, false, false, false]

  const X0: Nibble := [false, false, false, false]
  const X1: Nibble := [true, false, false, false]
  const X2: Nibble := [false, true, false, false]
  const X3: Nibble := [true, true, false, false]
  const X4: Nibble := [false, false, true, false]
  const X5: Nibble := [true, false, true, false]
  const X6: Nibble := [false, true, true, false]
  const X7: Nibble := [true, true, true, false]
  const X8: Nibble := [false, false, false, true]
  const X9: Nibble := [true, false, false, true]
  const XA: Nibble := [false, true, false, true]
  const XB: Nibble := [true, true, false, true]
  const XC: Nibble := [false, false, true, true]
  const XD: Nibble := [true, false, true, true]
  const XE: Nibble := [false, true, true, true]
  const XF: Nibble := [true, true, true, true]

  function Hex(a: Nibble, b: Nibble, c: Nibble, d: Nibble, e: Nibble, f: Nibble, g: Nibble, h: Nibble): Word {
    h + g + f + e + d + c + b + a
  }

  function Add(a: Word, b: Word): Word { FromNumber(Bits.Value(a) + Bits.Value(b)) }

  // ---------------------------------------------------------------------------
  // Section 6.1.2 of FIPS 180-4

  datatype Hash = Hash(a: Word, b: Word, c: Word, d: Word, e: Word)

  /** ROTL: the bits go round. */
  function Rotl(x: Word, n: nat): Word
    requires n <= WIDTH
  {
    x[WIDTH - n..] + x[..WIDTH - n]
  }

  function Ch(x: Word, y: Word, z: Word): Word { Xor(And(x, y), And(Not(x), z)) }
  function Parity(x: Word, y: Word, z: Word): Word { Xor(Xor(x, y), z) }
  function Maj(x: Word, y: Word, z: Word): Word { Xor(Xor(And(x, y), And(x, z)), And(y, z)) }

  function F(t: nat, x: Word, y: Word, z: Word): Word {
    if t < 20 then Ch(x, y, z) else if t < 40 then Parity(x, y, z) else if t < 60 then Maj(x, y, z) else Parity(x, y, z)
  }

  function K(t: nat): Word {
    if t < 20 then Hex(X5, XA, X8, X2, X7, X9, X9, X9) else if t < 40 then Hex(X6, XE, XD, X9, XE, XB, XA, X1)
      else if t < 60 then Hex(X8, XF, X1, XB, XB, XC, XD, XC) else Hex(XC, XA, X6, X2, XC, X1, XD, X6)
  }

  function Schedule(m: seq<Word>, t: nat): Word
    requires |m| == 16
  {
    if t < 16 then m[t]
    else Rotl(Xor(Xor(Xor(Schedule(m, t - 3), Schedule(m, t - 8)), Schedule(m, t - 14)), Schedule(m, t - 16)), 1)
  }

  function Expanded(m: seq<Word>): (r: seq<Word>)
    requires |m| == 16
    ensures |r| == 80
  {
    seq(80, t requires 0 <= t < 80 => Schedule(m, t))
  }

  // One round: T, and the shift of the working variables.
  function NextRound(s: Hash, t: nat, w: Word): Hash {
    Hash(Add(Add(Add(Add(Rotl(s.a, 5), F(t, s.b, s.c, s.d)), s.e), K(t)), w), s.a, Rotl(s.b, 30), s.c, s.d)
  }

  // The working variables before round t.
  function Rounds(h: Hash, w: seq<Word>, t: nat): Hash
    requires t <= |w|
  {
    if t == 0 then h else NextRound(Rounds(h, w, t - 1), t - 1, w[t - 1])
  }

  function Plus(h: Hash, s: Hash): Hash {
    Hash(Add(h.a, s.a), Add(h.b, s.b), Add(h.c, s.c), Add(h.d, s.d), Add(h.e, s.e))
  }

  function Compress(h: Hash, m: seq<Word>): Hash
    requires |m| == 16
  {
    var w := Expanded(m);
    Plus(h, Rounds(h, w, |w|))
  }

  // ---------------------------------------------------------------------------
  // The rounds in place

  // (value << steps) | (value >> (32 - steps))
  function Rol(value: Word, steps: nat): Word
    requires 0 < steps < WIDTH
  {
    Or(ShiftUp(value, steps), ShiftDown(value, WIDTH - steps))
  }

  lemma RolIsRotl(x: Word, n: nat)
    requires 0 < n < WIDTH
    ensures Rol(x, n) == Rotl(x, n)
  {}

  lemma ChForm(b: Word, c: Word, d: Word)
    ensures Or(And(b, c), And(Not(b), d)) == Ch(b, c, d)
  {}

  lemma MajForm(b: Word, c: Word, d: Word)
    ensures Or(Or(And(b, c), And(b, d)), And(c, d)) == Maj(b, c, d)
  {}

  ghost predicate AtRound(h: Hash, ws: seq<Word>, t: nat, s: Hash) {
    |ws| == 80 && t <= 80 && Rounds(h, ws, t) == s
  }

  // The buffer holds the schedule up to round t.
  ghost predicate Scheduled(ws: seq<Word>, w: seq<Word>, t: nat) {
    |ws| == 80 && |w| == 80 && t <= 80 && forall i :: 0 <= i < t ==> w[i] == ws[i]
  }

  lemma RoundStep(h: Hash, ws: seq<Word>, t: nat, s: Hash)
    requires AtRound(h, ws, t, s) && t < 80
    ensures AtRound(h, ws, t + 1, NextRound(s, t, ws[t]))
  {}

  // w[t] for the next round, when it is not one of the block's own.
  lemma ScheduleStep(m: seq<Word>, w: seq<Word>, t: nat)
    requires |m| == 16 && Scheduled(Expanded(m), w, t) && 16 <= t < 80
    ensures Scheduled(Expanded(m), w[t := Rotl(Xor(Xor(Xor(w[t - 3], w[t - 8]), w[t - 14]), w[t - 16]), 1)], t + 1)
  {}

  method Extend(w: array<Word>, round: nat, ghost m: seq<Word>)
    requires w.Length == 80 && 16 <= round < 80 && |m| == 16 && Scheduled(Expanded(m), w[..], round)
    modifies w
    ensures Scheduled(Expanded(m), w[..], round + 1)
  {
    ghost var was := w[..];
    ScheduleStep(m, was, round);
    var x := Xor(Xor(Xor(w[round - 3], w[round - 8]), w[round - 14]), w[round - 16]);
    RolIsRotl(x, 1);
    w[round] := Rol(x, 1);
    assert w[..] == was[round := Rotl(x, 1)];
  }

  // The round macro.
  method Turn(s: Hash, f: Word, k: Word, w: Word, ghost t: nat) returns (r: Hash)
    requires f == F(t, s.b, s.c, s.d) && k == K(t)
    ensures r == NextRound(s, t, w)
  {
    RolIsRotl(s.a, 5);
    RolIsRotl(s.b, 30);
    r := Hash(Add(Add(Add(Add(Rol(s.a, 5), f), s.e), k), w), s.a, Rol(s.b, 30), s.c, s.d);
  }

  // Before round t: its working variables, and the schedule as far as the buffer needs to hold it.
  ghost predicate Running(h: Hash, m: seq<Word>, w: seq<Word>, t: nat, s: Hash) {
    |m| == 16 && AtRound(h, Expanded(m), t, s) && Scheduled(Expanded(m), w, if t < 16 then 16 else t)
  }

  // A round, once the buffer holds the schedule for it.
  method TakeTurn(s: Hash, f: Word, k: Word, w: array<Word>, round: nat, ghost h: Hash, ghost m: seq<Word>)
    returns (r: Hash)
    requires w.Length == 80 && round < 80 && |m| == 16 && AtRound(h, Expanded(m), round, s) &&
      Scheduled(Expanded(m), w[..], round + 1)
    requires f == F(round, s.b, s.c, s.d) && k == K(round)
    ensures AtRound(h, Expanded(m), round + 1, r)
  {
    RoundStep(h, Expanded(m), round, s);
    r := Turn(s, f, k, w[round], round);
  }

  method LoadedRounds(result: Hash, w: array<Word>, ghost m: seq<Word>) returns (s: Hash)
    requires w.Length == 80 && Running(result, m, w[..], 0, result)
    ensures Running(result, m, w[..], 16, s)
  {
    s := result;
    var round: nat := 0;
    while round < 16
      invariant round <= 16 && Running(result, m, w[..], round, s)
    {
      ChForm(s.b, s.c, s.d);
      s := TakeTurn(s, Or(And(s.b, s.c), And(Not(s.b), s.d)), Hex(X5, XA, X8, X2, X7, X9, X9, X9), w, round, result, m);
      round := round + 1;
    }
  }

  method ChooseRounds(s0: Hash, w: array<Word>, ghost h: Hash, ghost m: seq<Word>) returns (s: Hash)
    requires w.Length == 80 && Running(h, m, w[..], 16, s0)
    modifies w
    ensures Running(h, m, w[..], 20, s)
  {
    s := s0;
    var round: nat := 16;
    while round < 20
      invariant 16 <= round <= 20 && Running(h, m, w[..], round, s)
    {
      Extend(w, round, m);
      ChForm(s.b, s.c, s.d);
      s := TakeTurn(s, Or(And(s.b, s.c), And(Not(s.b), s.d)), Hex(X5, XA, X8, X2, X7, X9, X9, X9), w, round, h, m);
      round := round + 1;
    }
  }

  method ParityRounds(s0: Hash, from: nat, k: Word, w: array<Word>, ghost h: Hash, ghost m: seq<Word>) returns (s: Hash)
    requires w.Length == 80 && Running(h, m, w[..], from, s0)
    requires (from == 20 && k == Hex(X6, XE, XD, X9, XE, XB, XA, X1)) ||
      (from == 60 && k == Hex(XC, XA, X6, X2, XC, X1, XD, X6))
    modifies w
    ensures Running(h, m, w[..], from + 20, s)
  {
    s := s0;
    var round: nat := from;
    while round < from + 20
      invariant from <= round <= from + 20 && Running(h, m, w[..], round, s)
    {
      Extend(w, round, m);
      s := TakeTurn(s, Xor(Xor(s.b, s.c), s.d), k, w, round, h, m);
      round := round + 1;
    }
  }

  method MajorityRounds(s0: Hash, w: array<Word>, ghost h: Hash, ghost m: seq<Word>) returns (s: Hash)
    requires w.Length == 80 && Running(h, m, w[..], 40, s0)
    modifies w
    ensures Running(h, m, w[..], 60, s)
  {
    s := s0;
    var round: nat := 40;
    while round < 60
      invariant 40 <= round <= 60 && Running(h, m, w[..], round, s)
    {
      Extend(w, round, m);
      MajForm(s.b, s.c, s.d);
      s := TakeTurn(s, Or(Or(And(s.b, s.c), And(s.b, s.d)), And(s.c, s.d)), Hex(X8, XF, X1, XB, XB, XC, XD, XC), w,
        round, h, m);
      round := round + 1;
    }
  }

  /** innerHash: 80 rounds, the schedule extended as they go, are one step of the standard. */
  method InnerHash(result: Hash, w: array<Word>) returns (r: Hash)
    requires w.Length == 80
    modifies w
    ensures r == Compress(result, old(w[..16]))
  {
    ghost var m := w[..16];
    var s := LoadedRounds(result, w, m);
    s := ChooseRounds(s, w, result, m);
    s := ParityRounds(s, 20, Hex(X6, XE, XD, X9, XE, XB, XA, X1), w, result, m);
    s := MajorityRounds(s, w, result, m);
    s := ParityRounds(s, 60, Hex(XC, XA, X6, X2, XC, X1, XD, X6), w, result, m);
    r := Plus(result, s);
  }
}
