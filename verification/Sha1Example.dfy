/** The algorithm of Sha1Spec on the message "abc": the digest is the one FIPS 180-4 gives for it. */
module Sha1Example {
  import opened Sha1Spec

  const ABC: seq<Byte> := [0x61, 0x62, 0x63]

  /** The message with its padding. */
  function Padded(): (s: seq<Byte>)
    ensures |s| == 64
  {
    ABC + [0x80] + Zeros(52) + [0, 0, 0, 0, 0, 0, 0, 24]
  }

  function Word(t: nat): Word {
    Schedule(Padded(), t)
  }

  function After(t: nat): Regs {
    Rounds(INITIAL, Padded(), t)
  }

  lemma PaddedIs()
    ensures ABC + Padding(3) == Padded()
  {
    LengthIs();
    assert ZeroCount(3) == 52;
    hide LengthBytes, ZeroCount;
  }

  lemma LengthIs()
    ensures LengthBytes(24) == [0, 0, 0, 0, 0, 0, 0, 24]
  {
    assert ByteAt(24, 1) == 24 && ByteAt(24, 0x100) == 0;
  }

  // ----- the schedule -----

  lemma WordValues()
    ensures WordOf(0x61, 0x62, 0x63, 0x80) == 0x61626380 && WordOf(0, 0, 0, 0) == 0 && WordOf(0, 0, 0, 24) == 24
  {
  }

  lemma Words0()
    ensures Word(0) == 0x61626380 && Word(15) == 24
    ensures forall t :: 0 < t < 15 ==> Word(t) == 0
  {
    hide WordOf;
    var b := Padded();
    assert b[0] == 0x61 && b[1] == 0x62 && b[2] == 0x63 && b[3] == 0x80 && b[63] == 24;
    assert forall i :: 4 <= i < 63 ==> b[i] == 0;
    WordValues();
  }

  lemma NextWord(t: nat)
    requires t >= 16
    ensures Word(t) == Rotl(Xor4(Word(t - 3), Word(t - 8), Word(t - 14), Word(t - 16)), 1)
  {
    hide Rotl, Xor4;
  }

  /** Four words after the ones before. */
  lemma NextWords(t: nat)
    requires t >= 16
    ensures Word(t) == Rotl(Xor4(Word(t - 3), Word(t - 8), Word(t - 14), Word(t - 16)), 1)
    ensures Word(t + 1) == Rotl(Xor4(Word(t - 2), Word(t - 7), Word(t - 13), Word(t - 15)), 1)
    ensures Word(t + 2) == Rotl(Xor4(Word(t - 1), Word(t - 6), Word(t - 12), Word(t - 14)), 1)
    ensures Word(t + 3) == Rotl(Xor4(Word(t), Word(t - 5), Word(t - 11), Word(t - 13)), 1)
  {
    hide *;
    NextWord(t);
    NextWord(t + 1);
    NextWord(t + 2);
    NextWord(t + 3);
  }

  lemma Words16()
    ensures Word(16) == 0xc2c4c700 && Word(17) == 0x00000000
    ensures Word(18) == 0x00000030 && Word(19) == 0x85898e01
    ensures Word(20) == 0x00000000 && Word(21) == 0x00000060
    ensures Word(22) == 0x0b131c03 && Word(23) == 0x00000030
  {
    hide Word;
    Words0();
    NextWords(16);
    NextWords(20);
  }

  lemma Words24()
    ensures Word(24) == 0x85898ec1 && Word(25) == 0x16263806
    ensures Word(26) == 0x00000000 && Word(27) == 0x00000180
    ensures Word(28) == 0x2c4c700c && Word(29) == 0x000000f0
    ensures Word(30) == 0x93afb507 && Word(31) == 0x5898e048
  {
    hide Word;
    Words0();
    Words16();
    NextWords(24);
    NextWords(28);
  }

  lemma Words32()
    ensures Word(32) == 0x8e9a9202 && Word(33) == 0x00000600
    ensures Word(34) == 0xb131c0f0 && Word(35) == 0x16263bc6
    ensures Word(36) == 0x4ebed41e && Word(37) == 0x626380a1
    ensures Word(38) == 0x16263806 && Word(39) == 0x000018c0
  {
    hide Word;
    Words16();
    Words24();
    NextWords(32);
    NextWords(36);
  }

  lemma Words40()
    ensures Word(40) == 0xd2e138c4 && Word(41) == 0x00000f00
    ensures Word(42) == 0x3afb5079 && Word(43) == 0x898e04e5
    ensures Word(44) == 0xe2ba3c2b && Word(45) == 0x000060c0
    ensures Word(46) == 0x053a37cd && Word(47) == 0x74458547
  {
    hide Word;
    Words24();
    Words32();
    NextWords(40);
    NextWords(44);
  }

  lemma Words48()
    ensures Word(48) == 0xda9415ed && Word(49) == 0x26380a16
    ensures Word(50) == 0x626383a1 && Word(51) == 0x4ebf54de
    ensures Word(52) == 0x3835b44b && Word(53) == 0x0000f600
    ensures Word(54) == 0x1e84c7a3 && Word(55) == 0x98e04d98
  {
    hide Word;
    Words32();
    Words40();
    NextWords(48);
    NextWords(52);
  }

  lemma Words56()
    ensures Word(56) == 0x651d16a0 && Word(57) == 0x62658ca1
    ensures Word(58) == 0x458544d6 && Word(59) == 0x44584cb7
    ensures Word(60) == 0x7ba06619 && Word(61) == 0x6380aea2
    ensures Word(62) == 0x0ae55269 && Word(63) == 0x627b49a1
  {
    hide Word;
    Words40();
    Words48();
    NextWords(56);
    NextWords(60);
  }

  lemma Words64()
    ensures Word(64) == 0x7cd45c9d && Word(65) == 0x000f0000
    ensures Word(66) == 0xfb50753a && Word(67) == 0xec6765e8
    ensures Word(68) == 0xba3c2be2 && Word(69) == 0x0060c000
    ensures Word(70) == 0x3a37cd05 && Word(71) == 0x458546f4
  {
    hide Word;
    Words48();
    Words56();
    NextWords(64);
    NextWords(68);
  }

  lemma Words72()
    ensures Word(72) == 0xb8599dd6 && Word(73) == 0x380a1a26
    ensures Word(74) == 0x01e02203 && Word(75) == 0xe7cc3456
    ensures Word(76) == 0xe6e60b69 && Word(77) == 0x00f60a00
    ensures Word(78) == 0x5795ef4f && Word(79) == 0x822e0879
  {
    hide Word;
    Words56();
    Words64();
    NextWords(72);
    NextWords(76);
  }

  // ----- the rounds -----

  lemma OneRound(t: nat)
    ensures After(t + 1) == Round(After(t), t, Word(t)) && After(0) == INITIAL
  {
    hide Round, Schedule;
  }

  lemma FiveRounds(t: nat)
    ensures After(t + 1) == Round(After(t), t, Word(t)) && After(t + 2) == Round(After(t + 1), t + 1, Word(t + 1))
    ensures After(t + 3) == Round(After(t + 2), t + 2, Word(t + 2))
    ensures After(t + 4) == Round(After(t + 3), t + 3, Word(t + 3))
    ensures After(t + 5) == Round(After(t + 4), t + 4, Word(t + 4))
  {
    hide *;
    OneRound(t);
    OneRound(t + 1);
    OneRound(t + 2);
    OneRound(t + 3);
    OneRound(t + 4);
  }

  lemma Rounds5()
    ensures After(5) == Regs(0xcfd499de, 0xcdd8e11b, 0x284e43c2, 0x626414db, 0xc045bf0c)
  {
    hide After, Word;
    OneRound(0);
    Words0();
    FiveRounds(0);
  }

  lemma Rounds10()
    ensures After(10) == Regs(0x8351f929, 0x4b6ae328, 0x27a301f5, 0x664f8c30, 0x0ff1f290)
  {
    hide After, Word;
    Rounds5();
    Words0();
    FiveRounds(5);
  }

  lemma Rounds15()
    ensures After(15) == Regs(0x196bee77, 0x9128f695, 0x1181ed99, 0x18c623f9, 0x7ef6a7a2)
  {
    hide After, Word;
    Rounds10();
    Words0();
    FiveRounds(10);
  }

  lemma Rounds20()
    ensures After(20) == Regs(0xfd9e1d7d, 0xdc64901d, 0x20aa99ca, 0xd3a49608, 0xc82f758b)
  {
    hide After, Word;
    Rounds15();
    Words0();
    Words16();
    FiveRounds(15);
  }

  lemma Rounds25()
    ensures After(25) == Regs(0xc7567dc6, 0xd541f12d, 0x884a0d21, 0x0ce88eff, 0x868dec32)
  {
    hide After, Word;
    Rounds20();
    Words16();
    Words24();
    FiveRounds(20);
  }

  lemma Rounds30()
    ensures After(30) == Regs(0xc5fbaf5d, 0x8370b52e, 0xd2aa1365, 0x6f8d7ef5, 0x12104ee9)
  {
    hide After, Word;
    Rounds25();
    Words24();
    FiveRounds(25);
  }

  lemma Rounds35()
    ensures After(35) == Regs(0x21796ad4, 0x2c0ebc11, 0x811bea82, 0xcee1174c, 0xc499ed01)
  {
    hide After, Word;
    Rounds30();
    Words24();
    Words32();
    FiveRounds(30);
  }

  lemma Rounds40()
    ensures After(40) == Regs(0x32de1cba, 0x4c986405, 0xf718e5cf, 0x03d447f6, 0xf72eec32)
  {
    hide After, Word;
    Rounds35();
    Words32();
    FiveRounds(35);
  }

  lemma Rounds45()
    ensures After(45) == Regs(0x40f28e09, 0xee1b1aaf, 0x5fc64f71, 0x25c28357, 0xff21f7b7)
  {
    hide After, Word;
    Rounds40();
    Words40();
    FiveRounds(40);
  }

  lemma Rounds50()
    ensures After(50) == Regs(0x120731c5, 0xbaf39337, 0xafab40b2, 0x2806e11b, 0x8714787c)
  {
    hide After, Word;
    Rounds45();
    Words40();
    Words48();
    FiveRounds(45);
  }

  lemma Rounds55()
    ensures After(55) == Regs(0x7b71f76d, 0x27e9f1d8, 0x792410db, 0x8e11eb59, 0x99076cb3)
  {
    hide After, Word;
    Rounds50();
    Words48();
    FiveRounds(50);
  }

  lemma Rounds60()
    ensures After(60) == Regs(0x3f52de5a, 0x09d785fd, 0x3498bfd4, 0xf211824f, 0xd79915ab)
  {
    hide After, Word;
    Rounds55();
    Words48();
    Words56();
    FiveRounds(55);
  }

  lemma Rounds65()
    ensures After(65) == Regs(0x19dfa7ac, 0x6b61c9e1, 0xed9b0082, 0x9523272c, 0xf5d5b051)
  {
    hide After, Word;
    Rounds60();
    Words56();
    Words64();
    FiveRounds(60);
  }

  lemma Rounds70()
    ensures After(70) == Regs(0x3f2588c2, 0x497093c0, 0xde37534a, 0x030f7cad, 0x4405957e)
  {
    hide After, Word;
    Rounds65();
    Words64();
    FiveRounds(65);
  }

  lemma Rounds75()
    ensures After(75) == Regs(0x5ee76897, 0x11793f6f, 0x3b6d0b79, 0xce616779, 0xf0667e31)
  {
    hide After, Word;
    Rounds70();
    Words64();
    Words72();
    FiveRounds(70);
  }

  lemma Rounds80()
    ensures After(80) == Regs(0x42541b35, 0x5738d5e1, 0x21834873, 0x681e6df6, 0xd8fdf6ad)
  {
    hide After, Word;
    Rounds75();
    Words72();
    FiveRounds(75);
  }

  lemma DigestValue()
    ensures Digest(Add(INITIAL, Regs(0x42541b35, 0x5738d5e1, 0x21834873, 0x681e6df6, 0xd8fdf6ad))) == [
              0xa9, 0x99, 0x3e, 0x36, 0x47, 0x06, 0x81, 0x6a, 0xba, 0x3e,
              0x25, 0x71, 0x78, 0x50, 0xc2, 0x6c, 0x9c, 0xd0, 0xd8, 0x9d]
  {
  }

  /** The known answer. */
  lemma DigestOfAbc()
    ensures Sha1(ABC) == [
              0xa9, 0x99, 0x3e, 0x36, 0x47, 0x06, 0x81, 0x6a, 0xba, 0x3e,
              0x25, 0x71, 0x78, 0x50, 0xc2, 0x6c, 0x9c, 0xd0, 0xd8, 0x9d]
  {
    PaddedIs();
    Rounds80();
    DigestValue();
    assert HashBlocks(INITIAL, Padded()) == Compress(INITIAL, Padded()) by {
      assert Padded()[..0] == [] && Padded()[0..] == Padded();
    }
    hide *;
  }
}
