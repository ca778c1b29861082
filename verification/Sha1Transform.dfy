/** The streaming SHA-1 of sha1.c, with its 16-word ring, renamed registers and block buffer. */
module Sha1Transform {
  import opened Sha1Spec

  // ----- the functions and macros of the source -----

  function F(x: Word, y: Word, z: Word): Word { z ^ (x & (y ^ z)) }

  function G(x: Word, y: Word, z: Word): Word { x ^ y ^ z }

  function H(x: Word, y: Word, z: Word): Word { (x & y) | (z & (x | y)) }

  function I(x: Word, y: Word, z: Word): Word { x ^ y ^ z }

  lemma ChooseForm(x: bv32, y: bv32, z: bv32)
    ensures z ^ (x & (y ^ z)) == (x & y) ^ (!x & z)
  {
  }

  lemma MajorityForm(x: bv32, y: bv32, z: bv32)
    ensures (x & y) | (z & (x | y)) == (x & y) ^ (x & z) ^ (y & z)
  {
  }

  /** The shorter forms are the functions of the standard. */
  lemma ShortForms(x: Word, y: Word, z: Word)
    ensures F(x, y, z) == Choose(x, y, z)
    ensures H(x, y, z) == Majority(x, y, z)
  {
    ChooseForm(x, y, z);
    MajorityForm(x, y, z);
  }

  lemma SumOrder(e: Word, f: Word, w: Word, k: Word, s: Word)
    ensures e + (f + w + k) + s == s + f + e + k + w
  {
  }

  /** The two additions of a macro. */
  function Accumulate(e: Word, f: Word, w: Word, k: Word, s: Word): Word {
    e + (f + w + k) + s
  }

  lemma AccumulateIs(e: Word, f: Word, w: Word, k: Word, s: Word)
    ensures Accumulate(e, f, w, k, s) == Sum5(s, f, e, k, w)
  {
    SumOrder(e, f, w, k, s);
  }

  ghost function RegsOf(state: seq<Word>): Regs
    requires |state| == 5
  {
    Regs(state[0], state[1], state[2], state[3], state[4])
  }

  /** The ring holds the sixteen words of the schedule before `t`, at first the block itself. */
  ghost predicate Ring(x: seq<Word>, block: seq<Byte>, t: nat)
    requires |block| == 64
  {
    |x| == 16 && forall k: nat :: t <= k + 16 && k < (if t < 16 then 16 else t) ==> x[k % 16] == Schedule(block, k)
  }

  /** The `W` macro. */
  method W(x: array<Word>, i: nat, ghost block: seq<Byte>) returns (w: Word)
    requires |block| == 64 && x.Length == 16 && 16 <= i && Ring(x[..], block, i)
    modifies x
    ensures w == Schedule(block, i) && Ring(x[..], block, i + 1)
  {
    hide Rotl, Xor4, WordOf;
    RingAt(x[..], block, i);
    var tmp := Xor4(x[(i - 3) % 16], x[(i - 8) % 16], x[(i - 14) % 16], x[i % 16]);
    x[i % 16] := Rotl(tmp, 1);
    w := x[i % 16];
    RingTurns(old(x[..]), x[..], block, i);
  }

  lemma RingAt(x: seq<Word>, block: seq<Byte>, i: nat)
    requires |block| == 64 && 16 <= i && Ring(x, block, i)
    ensures x[(i - 3) % 16] == Schedule(block, i - 3) && x[(i - 8) % 16] == Schedule(block, i - 8)
    ensures x[(i - 14) % 16] == Schedule(block, i - 14) && x[i % 16] == Schedule(block, i - 16)
  {
    assert i % 16 == (i - 16) % 16;
    hide Schedule;
  }

  lemma RingTurns(x: seq<Word>, now: seq<Word>, block: seq<Byte>, i: nat)
    requires |block| == 64 && 16 <= i && Ring(x, block, i)
    requires now == x[i % 16 := Schedule(block, i)]
    ensures Ring(now, block, i + 1)
  {
    hide Schedule;
    forall k: nat | i + 1 <= k + 16 && k < i + 1 ensures now[k % 16] == Schedule(block, k) {
      if k < i {
        Apart(k, i);
      }
    }
  }

  lemma Apart(k: nat, i: nat)
    requires k < i < k + 16
    ensures k % 16 != i % 16
  {
  }

  /** One macro line: `FF`, `GG`, `HH` or `II` with a word of the block or of the ring. */
  method Step(t: nat, a: Word, b: Word, c: Word, d: Word, e: Word, x: array<Word>, ghost block: seq<Byte>)
    returns (e': Word, b': Word)
    requires |block| == 64 && x.Length == 16 && t < 80 && Ring(x[..], block, t)
    modifies x
    ensures Ring(x[..], block, t + 1)
    ensures Regs(e', a, b', c, d) == Round(Regs(a, b, c, d, e), t, Schedule(block, t))
  {
    hide Rotl, Schedule, Logic, LogicalFunction, Constant, Accumulate, Sum5;
    var w;
    if t < 16 {
      w := x[t];
      assert x[..][t % 16] == Schedule(block, t);
    } else {
      w := W(x, t, block);
    }
    var f, k := Logic(t, b, c, d), Constant(t);
    e' := Accumulate(e, f, w, k, Rotl(a, 5));
    b' := Rotl(b, 30);
    AccumulateIs(e, f, w, k, Rotl(a, 5));
    LogicIs(t, b, c, d);
  }

  /** The function that the macro of line `t` uses. */
  function Logic(t: nat, x: Word, y: Word, z: Word): Word {
    if t < 20 then F(x, y, z) else if t < 40 then G(x, y, z) else if t < 60 then H(x, y, z) else I(x, y, z)
  }

  lemma LogicIs(t: nat, x: Word, y: Word, z: Word)
    ensures Logic(t, x, y, z) == LogicalFunction(t, x, y, z)
  {
    ShortForms(x, y, z);
  }

  /** `SHA1Decode` of one block. */
  method Decode(block: seq<Byte>) returns (x: array<Word>)
    requires |block| == 64
    ensures fresh(x) && x.Length == 16 && Ring(x[..], block, 0)
  {
    hide WordOf;
    x := new Word[16];
    for i := 0 to 16
      invariant forall k: nat :: k < i ==> x[k] == Schedule(block, k)
    {
      x[i] := WordOf(block[4 * i], block[4 * i + 1], block[4 * i + 2], block[4 * i + 3]);
    }
  }

  /** `SHA1Transform`: five macro lines at a time, after which the registers have their names back. */
  method Transform(state: array<Word>, block: seq<Byte>)
    requires state.Length == 5 && |block| == 64
    modifies state
    ensures RegsOf(state[..]) == Compress(old(RegsOf(state[..])), block)
  {
    hide Ring, Round, Schedule;
    var a, b, c, d, e := state[0], state[1], state[2], state[3], state[4];
    ghost var r := Regs(a, b, c, d, e);
    var x := Decode(block);
    for g := 0 to 16
      invariant state[..] == old(state[..])
      invariant Ring(x[..], block, 5 * g) && Regs(a, b, c, d, e) == Rounds(r, block, 5 * g)
    {
      e, b := Step(5 * g, a, b, c, d, e, x, block);
      assert Regs(e, a, b, c, d) == Rounds(r, block, 5 * g + 1);
      d, a := Step(5 * g + 1, e, a, b, c, d, x, block);
      assert Regs(d, e, a, b, c) == Rounds(r, block, 5 * g + 2);
      c, e := Step(5 * g + 2, d, e, a, b, c, x, block);
      assert Regs(c, d, e, a, b) == Rounds(r, block, 5 * g + 3);
      b, d := Step(5 * g + 3, c, d, e, a, b, x, block);
      assert Regs(b, c, d, e, a) == Rounds(r, block, 5 * g + 4);
      a, c := Step(5 * g + 4, b, c, d, e, a, x, block);
    }
    hide Rounds, Plus;
    state[0] := Plus(state[0], a);
    state[1] := Plus(state[1], b);
    state[2] := Plus(state[2], c);
    state[3] := Plus(state[3], d);
    state[4] := Plus(state[4], e);
  }

  function BytesUpTo(words: seq<Word>, i: nat): (s: seq<Byte>)
    requires i <= |words|
    ensures |s| == 4 * i
  {
    if i == 0 then [] else BytesUpTo(words, i - 1) + BytesOf(words[i - 1])
  }

  lemma BytesUpToFive(words: seq<Word>)
    requires |words| == 5
    ensures BytesUpTo(words, 5) == Digest(RegsOf(words))
  {
    hide BytesOf;
    assert BytesUpTo(words, 1) == BytesOf(words[0]);
    assert BytesUpTo(words, 3) == BytesOf(words[0]) + BytesOf(words[1]) + BytesOf(words[2]);
  }

  /** `SHA1Encode` of the whole state. */
  method Encode(output: array<Byte>, input: array<Word>)
    requires output.Length == 20 && input.Length == 5
    modifies output
    ensures output[..] == Digest(RegsOf(input[..]))
  {
    hide BytesOf, Digest;
    var i, j := 0, 0;
    while j < 20
      invariant 0 <= i <= 5 && j == 4 * i
      invariant output[..j] == BytesUpTo(input[..], i)
    {
      var bytes := BytesOf(input[i]);
      ghost var done := output[..j];
      output[j], output[j + 1], output[j + 2], output[j + 3] := bytes[0], bytes[1], bytes[2], bytes[3];
      assert output[..j + 4] == done + bytes;
      i, j := i + 1, j + 4;
    }
    assert output[..] == output[..20];
    BytesUpToFive(input[..]);
  }
}
