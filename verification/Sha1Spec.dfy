/** SHA-1 as FIPS 180-4 defines it: padding (section 5.1.1), the 80-word schedule and the rounds
    (section 6.1.2), the chaining of blocks and the digest. */
module Sha1Spec {

  type Byte = bv8
  type Word = bv32

  datatype Regs = Regs(a: Word, b: Word, c: Word, d: Word, e: Word)

  const INITIAL := Regs(0x67452301, 0xefcdab89, 0x98badcfe, 0x10325476, 0xc3d2e1f0)

  function Rotl(x: Word, n: Word): Word
    requires n < 32
  {
    (x << n) | (x >> (32 - n))
  }

  /** Big-endian words. */
  function WordOf(b0: Byte, b1: Byte, b2: Byte, b3: Byte): Word {
    ((b0 as Word) << 24) | ((b1 as Word) << 16) | ((b2 as Word) << 8) | (b3 as Word)
  }

  function BytesOf(w: Word): (s: seq<Byte>)
    ensures |s| == 4
  {
    [((w >> 24) & 0xff) as Byte, ((w >> 16) & 0xff) as Byte, ((w >> 8) & 0xff) as Byte, (w & 0xff) as Byte]
  }

  /** Section 4.1.1. */
  function Choose(x: Word, y: Word, z: Word): Word {
    (x & y) ^ (!x & z)
  }

  function Parity(x: Word, y: Word, z: Word): Word {
    x ^ y ^ z
  }

  function Majority(x: Word, y: Word, z: Word): Word {
    (x & y) ^ (x & z) ^ (y & z)
  }

  function LogicalFunction(t: nat, x: Word, y: Word, z: Word): Word {
    if t < 20 then Choose(x, y, z) else if t < 40 then Parity(x, y, z)
    else if t < 60 then Majority(x, y, z) else Parity(x, y, z)
  }

  /** Section 4.2.1. */
  function Constant(t: nat): Word {
    if t < 20 then 0x5a827999 else if t < 40 then 0x6ed9eba1
    else if t < 60 then 0x8f1bbcdc else 0xca62c1d6
  }

  function Xor4(w: Word, x: Word, y: Word, z: Word): Word {
    w ^ x ^ y ^ z
  }

  /** Section 6.1.2, step 1. */
  function Schedule(block: seq<Byte>, t: nat): Word
    requires |block| == 64
  {
    if t < 16 then WordOf(block[4 * t], block[4 * t + 1], block[4 * t + 2], block[4 * t + 3])
    else Rotl(Xor4(Schedule(block, t - 3), Schedule(block, t - 8), Schedule(block, t - 14), Schedule(block, t - 16)), 1)
  }

  function Sum5(v: Word, w: Word, x: Word, y: Word, z: Word): Word {
    v + w + x + y + z
  }

  /** Section 6.1.2, step 3. */
  function Round(r: Regs, t: nat, w: Word): Regs {
    Regs(Sum5(Rotl(r.a, 5), LogicalFunction(t, r.b, r.c, r.d), r.e, Constant(t), w), r.a, Rotl(r.b, 30), r.c, r.d)
  }

  function Rounds(r: Regs, block: seq<Byte>, t: nat): Regs
    requires |block| == 64
  {
    if t == 0 then r else Round(Rounds(r, block, t - 1), t - 1, Schedule(block, t - 1))
  }

  function Plus(x: Word, y: Word): Word {
    x + y
  }

  function Add(r: Regs, s: Regs): Regs {
    Regs(Plus(r.a, s.a), Plus(r.b, s.b), Plus(r.c, s.c), Plus(r.d, s.d), Plus(r.e, s.e))
  }

  function Compress(r: Regs, block: seq<Byte>): Regs
    requires |block| == 64
  {
    Add(r, Rounds(r, block, 80))
  }

  function HashBlocks(r: Regs, data: seq<Byte>): Regs
    requires |data| % 64 == 0
  {
    if data == [] then r
    else Compress(HashBlocks(r, data[..|data| - 64]), data[|data| - 64..])
  }

  /** The eight bytes of a number below 2^64, the highest first. */
  function LengthBytes(n: nat): (s: seq<Byte>)
    requires n < 0x1_0000_0000_0000_0000
    ensures |s| == 8
  {
    [ByteAt(n, 0x100_0000_0000_0000), ByteAt(n, 0x1_0000_0000_0000), ByteAt(n, 0x100_0000_0000), ByteAt(n, 0x1_0000_0000),
     ByteAt(n, 0x100_0000), ByteAt(n, 0x1_0000), ByteAt(n, 0x100), ByteAt(n, 1)]
  }

  function ByteAt(n: nat, unit: nat): Byte
    requires unit > 0
  {
    ((n / unit) % 256) as Byte
  }

  function Zeros(n: nat): (s: seq<Byte>)
    ensures |s| == n
  {
    seq(n, _ => 0)
  }

  /** The number of zero bytes in the padding: the smallest that makes the length 56 modulo 64. */
  function ZeroCount(length: nat): nat {
    (119 - length % 64) % 64
  }

  lemma Mod64(x: nat, q: nat, r: nat)
    requires x == 64 * q + r && r < 64
    ensures x % 64 == r && x / 64 == q
  {
  }

  lemma ZeroCountSmallest(length: nat, k: nat)
    ensures (length + 1 + ZeroCount(length)) % 64 == 56
    ensures (length + 1 + k) % 64 == 56 ==> ZeroCount(length) <= k
  {
    var q, r := length / 64, length % 64;
    var z: nat := if r < 56 then 55 - r else 119 - r;
    var p: nat := if r < 56 then q else q + 1;
    Mod64(119 - r, (119 - r) / 64, z);
    Mod64(length + 1 + z, p, 56);
    var n := (length + 1 + k) / 64;
    assert length + 1 + k == 64 * n + (length + 1 + k) % 64;
  }

  function Padding(length: nat): seq<Byte>
    requires 8 * length < 0x1_0000_0000_0000_0000
  {
    [0x80] + Zeros(ZeroCount(length)) + LengthBytes(8 * length)
  }

  lemma PaddedWhole(length: nat)
    requires 8 * length < 0x1_0000_0000_0000_0000
    ensures (length + |Padding(length)|) % 64 == 0
  {
    ZeroCountSmallest(length, 0);
    hide ZeroCount, LengthBytes, Zeros;
    var z := length + 1 + ZeroCount(length);
    assert length + |Padding(length)| == z + 8;
    Mod64(z + 8, z / 64 + 1, 0);
  }

  function Digest(r: Regs): seq<Byte> {
    BytesOf(r.a) + BytesOf(r.b) + BytesOf(r.c) + BytesOf(r.d) + BytesOf(r.e)
  }

  /** The digest of a message of fewer than 2^64 bits. */
  function Sha1(message: seq<Byte>): seq<Byte>
    requires 8 * |message| < 0x1_0000_0000_0000_0000
  {
    PaddedWhole(|message|);
    Digest(HashBlocks(INITIAL, message + Padding(|message|)))
  }
}
