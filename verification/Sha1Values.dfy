/** What the words, functions and constants of Sha1Spec are as numbers and bit by bit. */
module Sha1Values {
  import opened Sha1Spec

  // ----- words as numbers -----

  /** The digits of a word to the base 256, the highest first. */
  function Byte0(w: Word): Byte { (w / 0x100_0000) as Byte }

  function Byte1(w: Word): Byte { (w / 0x1_0000 % 0x100) as Byte }

  function Byte2(w: Word): Byte { (w / 0x100 % 0x100) as Byte }

  function Byte3(w: Word): Byte { (w % 0x100) as Byte }

  function Combined(d0: int, d1: int, d2: int, d3: int): int {
    0x100_0000 * d0 + 0x1_0000 * d1 + 0x100 * d2 + d3
  }

  function Value(b: Byte): int { b as int }

  function Number(w: Word): int {
    Combined(Value(Byte0(w)), Value(Byte1(w)), Value(Byte2(w)), Value(Byte3(w)))
  }

  lemma WordOfDigits(b0: Byte, b1: Byte, b2: Byte, b3: Byte)
    ensures var w := WordOf(b0, b1, b2, b3); Byte0(w) == b0 && Byte1(w) == b1 && Byte2(w) == b2 && Byte3(w) == b3
  {
  }

  /** Of four bytes the first counts most. */
  lemma WordOfNumber(b0: Byte, b1: Byte, b2: Byte, b3: Byte)
    ensures Number(WordOf(b0, b1, b2, b3))
         == 0x100_0000 * (b0 as int) + 0x1_0000 * (b1 as int) + 0x100 * (b2 as int) + b3 as int
  {
    WordOfDigits(b0, b1, b2, b3);
    hide WordOf, Byte0, Byte1, Byte2, Byte3;
  }

  /** Taking a word apart and putting it together undo each other. */
  lemma BytesOfWord(w: Word, b0: Byte, b1: Byte, b2: Byte, b3: Byte)
    ensures var s := BytesOf(w); WordOf(s[0], s[1], s[2], s[3]) == w
    ensures BytesOf(WordOf(b0, b1, b2, b3)) == [b0, b1, b2, b3]
  {
  }

  // ----- rotations -----

  lemma ShiftedBit(x: bv32, n: bv32, i: bv32)
    requires n < 32 && i < 32
    ensures (((x << n) | (x >> (32 - n))) >> ((i + n) & 31)) & 1 == (x >> i) & 1
  {
  }

  /** Every bit goes up by the distance, the highest ones to the lowest places. */
  lemma RotlBit(x: Word, n: Word, i: Word)
    requires n < 32 && i < 32
    ensures (Rotl(x, n) >> ((i + n) & 31)) & 1 == (x >> i) & 1
  {
    ShiftedBit(x, n, i);
  }

  lemma Shifts1(x: bv32)
    ensures (x << 1) | (x >> 31) == 2 * x + x / 0x8000_0000
  {
  }

  lemma RotlWord1(x: Word)
    ensures Rotl(x, 1) == 2 * x + x / 0x8000_0000
  {
    Shifts1(x);
  }

  lemma Shifts5(x: bv32)
    ensures (x << 5) | (x >> 27) == 0x20 * x + x / 0x800_0000
  {
  }

  lemma RotlWord5(x: Word)
    ensures Rotl(x, 5) == 0x20 * x + x / 0x800_0000
  {
    Shifts5(x);
  }

  lemma Shifts30(x: bv32)
    ensures (x << 30) | (x >> 2) == 0x4000_0000 * x + x / 4
  {
  }

  lemma RotlWord30(x: Word)
    ensures Rotl(x, 30) == 0x4000_0000 * x + x / 4
  {
    Shifts30(x);
  }

  /** The three distances that are used, in the arithmetic of words, which is modulo 2^32: the multiple, and
      what it loses at the top. */
  lemma RotlWord(x: Word)
    ensures Rotl(x, 1) == 2 * x + x / 0x8000_0000
    ensures Rotl(x, 5) == 0x20 * x + x / 0x800_0000
    ensures Rotl(x, 30) == 0x4000_0000 * x + x / 4
  {
    hide Rotl;
    RotlWord1(x);
    RotlWord5(x);
    RotlWord30(x);
  }

  // ----- the logical functions, bit by bit -----

  /** Where `x` has ones in `bits`, `y` is chosen, and where it has zeros, `z`. */
  lemma ChooseBits(x: Word, y: Word, z: Word, bits: Word)
    ensures x & bits == bits ==> Choose(x, y, z) & bits == y & bits
    ensures x & bits == 0 ==> Choose(x, y, z) & bits == z & bits
  {
  }

  lemma MajoritySymmetric(x: Word, y: Word, z: Word)
    ensures Majority(x, y, z) == Majority(x, z, y) == Majority(z, x, y)
  {
  }

  /** Two that agree in `bits` decide. */
  lemma MajorityBits(x: Word, y: Word, z: Word, bits: Word)
    requires x & bits == y & bits
    ensures Majority(x, y, z) & bits == x & bits
  {
  }

  /** Two that agree in `bits` leave the third, two that are opposite there turn it round. */
  lemma ParityBits(x: Word, y: Word, z: Word, bits: Word)
    ensures x & bits == y & bits ==> Parity(x, y, z) & bits == z & bits
    ensures x & bits == !y & bits ==> Parity(x, y, z) & bits == !z & bits
  {
  }

  // ----- the constants -----

  /** `k` is the integer part of 2^30 times the square root of `r`. */
  predicate IsRoot(k: int, r: int) {
    k * k <= r * 0x1000_0000_0000_0000 < (k + 1) * (k + 1)
  }

  lemma ConstantRoots(t: nat)
    requires t < 80
    ensures IsRoot(Constant(t) as int, if t < 20 then 2 else if t < 40 then 3 else if t < 60 then 5 else 10)
  {
    assert 0x5a827999 as Word as int == 0x5a827999 && 0x6ed9eba1 as Word as int == 0x6ed9eba1;
    assert 0x8f1bbcdc as Word as int == 0x8f1bbcdc && 0xca62c1d6 as Word as int == 0xca62c1d6;
  }

  /** The byte with the two hexadecimal digits `h` and `l`. */
  predicate HasNibbles(b: Byte, h: int, l: int) {
    b as int == 16 * h + l
  }

  /** The bytes of the first four words, the lowest of each first, count all hexadecimal digits up and down
      again; those of the fifth count down and up. */
  lemma InitialBytes(i: nat)
    requires i < 4
    ensures HasNibbles(BytesOf(INITIAL.a)[3 - i], 2 * i, 2 * i + 1)
    ensures HasNibbles(BytesOf(INITIAL.b)[3 - i], 8 + 2 * i, 9 + 2 * i)
    ensures HasNibbles(BytesOf(INITIAL.c)[3 - i], 15 - 2 * i, 14 - 2 * i)
    ensures HasNibbles(BytesOf(INITIAL.d)[3 - i], 7 - 2 * i, 6 - 2 * i)
    ensures HasNibbles(BytesOf(INITIAL.e)[3 - i], 15 - i, i)
  {
  }
}
