/** The context of sha1.c: whatever way the input is cut, the digest is that of the whole. */
module Sha1Stream {
  import opened Sha1Spec
  import opened Sha1Transform
  import opened Chunks

  const W32: nat := 0x1_0000_0000

  // ----- the two-word bit count -----

  /** The words hold the number of bits of `n` bytes, modulo 2^64. */
  ghost predicate Counts(count0: nat, count1: nat, n: nat) {
    && count0 < W32 && count1 < W32
    && exists over: nat :: 8 * n == count0 + W32 * count1 + W32 * W32 * over
  }

  /** The low word goes up by the low part of the bit length, with a carry on wrap-around; the high
      word by the carry and the high part. */
  lemma CountUp(count0: nat, count1: nat, n: nat, length: nat)
    requires Counts(count0, count1, n) && length < W32
    ensures var low := (8 * length) % W32; var now0 := (count0 + low) % W32;
      Counts(now0, (count1 + (if now0 < low then 1 else 0) + length / 0x2000_0000) % W32, n + length)
  {
    var low := (8 * length) % W32;
    var now0 := (count0 + low) % W32;
    var carry := if now0 < low then 1 else 0;
    var high := length / 0x2000_0000;
    assert 8 * length == low + W32 * high;
    assert count0 + low == now0 + W32 * carry;
    var sum := count1 + carry + high;
    var over: nat :| 8 * n == count0 + W32 * count1 + W32 * W32 * over;
    assert sum == sum % W32 + W32 * (sum / W32);
    assert 8 * (n + length) == now0 + W32 * (sum % W32) + W32 * W32 * (over + sum / W32);
  }

  lemma ModTwice(x: nat, y: nat)
    ensures (x % W32 + y) % W32 == (x + y) % W32
  {
    var q := x / W32;
    assert x == x % W32 + W32 * q;
    var z := x % W32 + y;
    assert x + y == z % W32 + W32 * (z / W32 + q);
  }

  /** The low word tells how full the buffer is. */
  lemma CountIndex(count0: nat, count1: nat, n: nat)
    requires Counts(count0, count1, n)
    ensures (count0 / 8) % 64 == n % 64
  {
    var over: nat :| 8 * n == count0 + W32 * count1 + W32 * W32 * over;
    var rest := count1 + W32 * over;
    assert 8 * n == count0 + W32 * rest;
    assert n == count0 / 8 + 0x2000_0000 * rest;
    Mod64(n, (count0 / 8) / 64 + 0x80_0000 * rest, (count0 / 8) % 64);
  }

  // ----- blocks -----

  function Whole(n: nat): (p: nat)
    ensures p <= n && p % 64 == 0 && n - p == n % 64
  {
    n / 64 * 64
  }

  lemma HashSnoc(message: seq<Byte>, p: nat)
    requires p % 64 == 0 && p + 64 <= |message|
    ensures HashBlocks(INITIAL, message[..p + 64]) ==
      Compress(HashBlocks(INITIAL, message[..p]), message[p..p + 64])
  {
    var data := message[..p + 64];
    assert data[..|data| - 64] == message[..p] && data[|data| - 64..] == message[p..p + 64];
  }

  /** The state after the first `p` bytes of `message`. */
  ghost predicate HashedTo(state: seq<Word>, message: seq<Byte>, p: nat) {
    |state| == 5 && p % 64 == 0 && p <= |message| && RegsOf(state) == HashBlocks(INITIAL, message[..p])
  }

  lemma HashedLonger(state: seq<Word>, message: seq<Byte>, more: seq<Byte>, p: nat)
    requires HashedTo(state, message, p)
    ensures HashedTo(state, message + more, p)
  {
    assert (message + more)[..p] == message[..p];
  }

  lemma HashedStep(state: seq<Word>, now: seq<Word>, message: seq<Byte>, p: nat)
    requires HashedTo(state, message, p) && p + 64 <= |message| && |now| == 5
    requires RegsOf(now) == Compress(RegsOf(state), message[p..p + 64])
    ensures HashedTo(now, message, p + 64)
  {
    hide HashBlocks, Compress;
    HashSnoc(message, p);
  }

  /** The loop's index never wraps round. */
  predicate NoWrap(index: nat, length: nat)
    requires index < 64
  {
    length < W32 && (length >= 64 - index ==> length - (index + length) % 64 + 63 < W32)
  }

  class Context {
    const state: array<Word>
    const buffer: array<Byte>
    var count0: nat
    var count1: nat
    /** All that has been put in. */
    ghost var message: seq<Byte>

    ghost predicate Valid()
      reads this, state, buffer
    {
      && state.Length == 5 && buffer.Length == 64
      && Counts(count0, count1, |message|)
      && HashedTo(state[..], message, Whole(|message|))
      && buffer[..|message| % 64] == message[Whole(|message|)..]
    }

    /** `SHA1Init`. */
    constructor ()
      ensures Valid() && fresh(state) && fresh(buffer) && message == []
    {
      var s := new Word[5];
      s[0], s[1], s[2], s[3], s[4] := 0x67452301, 0xefcdab89, 0x98badcfe, 0x10325476, 0xc3d2e1f0;
      state := s;
      buffer := new Byte[64];
      count0, count1, message := 0, 0, [];
      new;
      assert Counts(0, 0, 0) by { assert 8 * 0 == 0 + W32 * 0 + W32 * W32 * 0; }
      assert RegsOf(state[..]) == HashBlocks(INITIAL, message[..0]);
    }

    method CountBytes(length: nat)
      requires Counts(count0, count1, |message|) && length < W32
      modifies this`count0, this`count1
      ensures Counts(count0, count1, |message| + length)
    {
      hide Counts;
      CountUp(count0, count1, |message|, length);
      ModTwice(count1 + 1, length / 0x2000_0000);
      var low := (8 * length) % W32;
      count0 := (count0 + low) % W32;
      if count0 < low {
        count1 := (count1 + 1) % W32;
      }
      count1 := (count1 + length / 0x2000_0000) % W32;
    }

    /** One more block of the message goes into the state. */
    method Block(block: seq<Byte>, ghost m: seq<Byte>, ghost p: nat)
      requires state.Length == 5 && |block| == 64 && HashedTo(state[..], m, p)
      requires p + 64 <= |m| && block == m[p..p + 64]
      modifies state
      ensures HashedTo(state[..], m, p + 64)
    {
      ghost var before := state[..];
      assert RegsOf(before) == RegsOf(state[..]);
      Transform(state, block);
      HashedStep(before, state[..], m, p);
    }

    /** The complete blocks of the input from `from` on, straight out of the input. */
    method Blocks(input: seq<Byte>, from: nat, ghost m: seq<Byte>, ghost n: nat) returns (i: nat)
      requires state.Length == 5 && |m| == n + |input| && m[n..] == input
      requires NoWrap(n % 64, |input|) && from == 64 - n % 64 <= |input| && HashedTo(state[..], m, n + from)
      modifies state
      ensures from <= i <= |input| < i + 64 && HashedTo(state[..], m, n + i) && (n + i) % 64 == 0
    {
      assert (n + from) % 64 == 0;
      hide HashedTo;
      i := from;
      while (i + 63) % W32 < |input|
        invariant from <= i <= |input| && (n + i) % 64 == 0 && HashedTo(state[..], m, n + i)
        decreases |input| - i
      {
        LoopIndex(n % 64, n, i, |input|);
        InputBlock(m, n, input, i);
        Block(input[i..i + 64], m, n + i);
        i := i + 64;
      }
      LoopIndex(n % 64, n, i, |input|);
    }

    /** Bytes of the input into the buffer. */
    method Copy(index: nat, input: seq<Byte>, from: nat, to: nat)
      requires from <= to <= |input| && index + (to - from) <= buffer.Length
      modifies buffer
      ensures buffer[..index + (to - from)] == old(buffer[..index]) + input[from..to]
    {
      forall k | 0 <= k < to - from {
        buffer[index + k] := input[from + k];
      }
    }

    /** If the input completes the buffered block: that block and all further complete ones. Then the
        input from `i` on belongs into the buffer at `at`. */
    method CompleteBlocks(input: seq<Byte>, index: nat, ghost n: nat, ghost m: seq<Byte>) returns (i: nat, at: nat)
      requires state.Length == 5 && buffer.Length == 64 && n <= |m| && |m| == n + |input| && m[n..] == input
      requires index == n % 64 && NoWrap(index, |input|) && HashedTo(state[..], m, Whole(n))
      requires Whole(n) + index == n && buffer[..index] == m[Whole(n)..n]
      modifies state, buffer
      ensures i <= |input| && at + |input[i..]| == |m| % 64 && buffer[..at] + input[i..] == m[Whole(|m|)..]
      ensures HashedTo(state[..], m, Whole(|m|))
    {
      hide HashedTo, NoWrap, Whole;
      var partLen := 64 - index;
      if |input| >= partLen {
        Copy(index, input, 0, partLen);
        Filled(m, n, input, Whole(n), partLen);
        assert buffer[..] == buffer[..64] == m[Whole(n)..Whole(n) + 64];
        Block(buffer[..], m, Whole(n));
        i := Blocks(input, partLen, m, n);
        WholeIs(n + |input|, n + i);
        at := 0;
        assert input[i..] == m[n + i..];
      } else {
        WholeIs(n + |input|, Whole(n));
        i, at := 0, index;
        assert m[Whole(n)..] == m[Whole(n)..n] + input;
      }
    }

    /** `SHA1Update`; the condition keeps the loop's 32-bit index from wrapping round. */
    method Update(input: seq<Byte>)
      requires Valid() && NoWrap(|message| % 64, |input|)
      modifies this, state, buffer
      ensures Valid() && message == old(message) + input
    {
      hide Counts, HashedTo, NoWrap;
      ghost var n := |message|;
      ghost var m := message + input;
      CountIndex(count0, count1, n);
      var index := (count0 / 8) % 64;
      NoWrapShort(index, |input|);
      CountBytes(|input|);
      HashedLonger(state[..], message, input, Whole(n));
      hide *;
      var i, at := CompleteBlocks(input, index, n, m);
      Copy(at, input, i, |input|);
      message := m;
    }

    /** `SHA1Final`. */
    method Final(digest: array<Byte>)
      requires Valid() && digest.Length == 20 && digest != buffer && 8 * |message| < W32 * W32
      modifies this, state, buffer, digest
      ensures digest[..] == Sha1(old(message))
      ensures state.Length == 5 && forall k :: 0 <= k < 5 ==> state[k] == 0
      ensures count0 == 0 && count1 == 0 && forall k :: 0 <= k < 64 ==> buffer[k] == 0
    {
      hide Counts, HashedTo, LengthBytes, Digest, NoWrap, ZeroCount, Whole, Bits, HashBlocks;
      ghost var m, n := message, |message|;
      CountIndex(count0, count1, n);
      var bits := Bits(count0, count1);
      BitsAre(count0, count1, n);
      var index := (count0 / 8) % 64;
      var padLen := if index < 56 then 56 - index else 120 - index;
      PaddingIs(n, padLen);
      ShortInput(n % 64, padLen);
      Update(PADDING[..padLen]);
      ShortInput(|message| % 64, 8);
      Update(bits);
      PaddedWhole(n);
      assert message == m + Padding(n);
      HashedAll(state[..], message);
      Encode(digest, state);
      forall k | 0 <= k < 5 { state[k] := 0; }
      forall k | 0 <= k < 64 { buffer[k] := 0; }
      count0, count1, message := 0, 0, [];
    }
  }

  const PADDING: seq<Byte> := [0x80] + Zeros(63)

  /** The counter as eight bytes, the high word first. */
  function Bits(count0: nat, count1: nat): (s: seq<Byte>)
    ensures |s| == 8
  {
    [ByteAt(count1, 0x100_0000), ByteAt(count1, 0x1_0000), ByteAt(count1, 0x100), ByteAt(count1, 1),
     ByteAt(count0, 0x100_0000), ByteAt(count0, 0x1_0000), ByteAt(count0, 0x100), ByteAt(count0, 1)]
  }

  lemma High3(count0: nat, count1: nat, x: nat)
    requires count0 < W32 && x == count0 + W32 * count1
    ensures x / 0x100_0000_0000_0000 == count1 / 0x100_0000
  {
    var q, r := count1 / 0x100_0000, count1 % 0x100_0000;
    assert count1 == 0x100_0000 * q + r;
    assert x == 0x100_0000_0000_0000 * q + (count0 + W32 * r);
  }

  lemma High2(count0: nat, count1: nat, x: nat)
    requires count0 < W32 && x == count0 + W32 * count1
    ensures x / 0x1_0000_0000_0000 == count1 / 0x1_0000
  {
    var q, r := count1 / 0x1_0000, count1 % 0x1_0000;
    assert count1 == 0x1_0000 * q + r;
    assert x == 0x1_0000_0000_0000 * q + (count0 + W32 * r);
  }

  lemma High1(count0: nat, count1: nat, x: nat)
    requires count0 < W32 && x == count0 + W32 * count1
    ensures x / 0x100_0000_0000 == count1 / 0x100
  {
    var q, r := count1 / 0x100, count1 % 0x100;
    assert count1 == 0x100 * q + r;
    assert x == 0x100_0000_0000 * q + (count0 + W32 * r);
  }

  lemma High0(count0: nat, count1: nat, x: nat)
    requires count0 < W32 && x == count0 + W32 * count1
    ensures x / 0x1_0000_0000 == count1 / 1
  {
    var q, r := count1 / 1, count1 % 1;
    assert count1 == 1 * q + r;
    assert x == 0x1_0000_0000 * q + (count0 + W32 * r);
  }

  lemma Mod256(x: nat, q: nat, y: nat)
    requires x == q + 256 * y
    ensures x % 256 == q % 256
  {
  }

  lemma Low3(count0: nat, count1: nat, x: nat)
    requires count0 < W32 && x == count0 + W32 * count1
    ensures (x / 0x100_0000) % 256 == (count0 / 0x100_0000) % 256
  {
    var q, r := count0 / 0x100_0000, count0 % 0x100_0000;
    assert count0 == 0x100_0000 * q + r;
    assert x == 0x100_0000 * (q + 0x100 * count1) + r;
    Mod256(x / 0x100_0000, q, count1);
  }

  lemma Low2(count0: nat, count1: nat, x: nat)
    requires count0 < W32 && x == count0 + W32 * count1
    ensures (x / 0x1_0000) % 256 == (count0 / 0x1_0000) % 256
  {
    var q, r := count0 / 0x1_0000, count0 % 0x1_0000;
    assert count0 == 0x1_0000 * q + r;
    assert x == 0x1_0000 * (q + 0x1_0000 * count1) + r;
    Mod256(x / 0x1_0000, q, 0x100 * count1);
  }

  lemma Low1(count0: nat, count1: nat, x: nat)
    requires count0 < W32 && x == count0 + W32 * count1
    ensures (x / 0x100) % 256 == (count0 / 0x100) % 256
  {
    var q, r := count0 / 0x100, count0 % 0x100;
    assert count0 == 0x100 * q + r;
    assert x == 0x100 * (q + 0x100_0000 * count1) + r;
    Mod256(x / 0x100, q, 0x1_0000 * count1);
  }

  lemma Low0(count0: nat, count1: nat, x: nat)
    requires count0 < W32 && x == count0 + W32 * count1
    ensures (x / 1) % 256 == (count0 / 1) % 256
  {
    var q, r := count0 / 1, count0 % 1;
    assert count0 == 1 * q + r;
    assert x == 1 * (q + 0x1_0000_0000 * count1) + r;
    Mod256(x / 1, q, 0x100_0000 * count1);
  }

  lemma BitsAre(count0: nat, count1: nat, n: nat)
    requires Counts(count0, count1, n) && 8 * n < W32 * W32
    ensures Bits(count0, count1) == LengthBytes(8 * n)
  {
    var over: nat :| 8 * n == count0 + W32 * count1 + W32 * W32 * over;
    assert over == 0;
    High3(count0, count1, 8 * n);
    High2(count0, count1, 8 * n);
    High1(count0, count1, 8 * n);
    High0(count0, count1, 8 * n);
    Low3(count0, count1, 8 * n);
    Low2(count0, count1, 8 * n);
    Low1(count0, count1, 8 * n);
    Low0(count0, count1, 8 * n);
  }

  lemma PaddingIs(n: nat, padLen: nat)
    requires padLen == if n % 64 < 56 then 56 - n % 64 else 120 - n % 64
    ensures 1 <= padLen <= 64 && PADDING[..padLen] == [0x80] + Zeros(ZeroCount(n))
  {
    assert ZeroCount(n) == padLen - 1;
  }

  lemma HashedAll(state: seq<Word>, message: seq<Byte>)
    requires |message| % 64 == 0 && HashedTo(state, message, Whole(|message|))
    ensures |state| == 5 && RegsOf(state) == HashBlocks(INITIAL, message)
  {
    assert message[..|message|] == message;
  }

  /** However a message is cut, the digest is that of the whole. */
  method HashChunks(chunks: seq<seq<Byte>>) returns (digest: array<Byte>)
    requires 8 * |Concat(chunks)| < W32 * W32
    requires forall i :: 0 <= i < |chunks| ==> NoWrap(|Concat(chunks[..i])| % 64, |chunks[i]|)
    ensures digest[..] == Sha1(Concat(chunks))
  {
    var context := new Context();
    assert chunks[..0] == [];
    for i := 0 to |chunks|
      invariant context.Valid() && fresh(context) && fresh(context.state) && fresh(context.buffer)
      invariant context.message == Concat(chunks[..i])
    {
      assert chunks[..i + 1][..i] == chunks[..i];
      context.Update(chunks[i]);
    }
    assert chunks[..|chunks|] == chunks;
    digest := new Byte[20];
    context.Final(digest);
  }

  /** Short inputs are safe whatever the buffer holds. */
  lemma ShortInput(index: nat, length: nat)
    requires index < 64 && length + 63 < W32
    ensures NoWrap(index, length)
  {
  }

  /** Otherwise the index wraps round behind the last complete block, and the loop reads on past the input. */
  lemma WrapsPast(index: nat, length: nat)
    requires index < 64 && length < W32 && !NoWrap(index, length)
    ensures var i := length - (index + length) % 64;
      64 - index <= i && (index + i) % 64 == 0 && i + 64 > length && (i + 63) % W32 < length
  {
    var q := (index + length) / 64;
    assert index + length == 64 * q + (index + length) % 64;
  }

  /** With one byte in the buffer, an input of 2^32 - 1 bytes. */
  lemma WrappingInput()
    ensures !NoWrap(1, W32 - 1) && (W32 - 1 + 63) % W32 == 62
  {
  }

  lemma NoWrapShort(index: nat, length: nat)
    requires index < 64 && NoWrap(index, length)
    ensures length < W32
  {
  }

  lemma WholeIs(x: nat, p: nat)
    requires p % 64 == 0 && p <= x < p + 64
    ensures Whole(x) == p && x % 64 == x - p
  {
    Mod64(x, p / 64, x - p);
  }

  lemma Filled(m: seq<Byte>, n: nat, input: seq<Byte>, p: nat, taken: nat)
    requires |m| == n + |input| && m[n..] == input && p <= n && taken <= |input|
    ensures m[p..n] + input[0..taken] == m[p..n + taken]
  {
  }

  lemma InputBlock(m: seq<Byte>, n: nat, input: seq<Byte>, i: nat)
    requires |m| == n + |input| && m[n..] == input && i + 64 <= |input|
    ensures input[i..i + 64] == m[n + i..n + i + 64]
  {
  }

  /** The loop goes on exactly as long as there is another block. */
  lemma LoopIndex(index: nat, n: nat, i: nat, length: nat)
    requires index == n % 64 && NoWrap(index, length)
    requires 64 - index <= i <= length && (n + i) % 64 == 0
    ensures (i + 63) % W32 < length <==> i + 64 <= length
  {
    var p := (n + i) / 64;
    assert n + i == 64 * p;
    var q := n / 64;
    assert n == 64 * q + index;
    if i + 64 > length {
      Mod64(index + length, p - q, length - i);
    }
  }
}
