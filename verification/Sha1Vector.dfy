/** A message whose digest is known: the first test of section 7.3 of RFC 3174. */
module Sha1Vector {
  import opened Sequences
  import opened ByteOrder
  import opened Sha1

  /** The state before round t, and words t to t + 15 of the message schedule. */
  datatype Machine = Machine(
    t: nat, s: Words,
    w0: bv32, w1: bv32, w2: bv32, w3: bv32, w4: bv32, w5: bv32, w6: bv32, w7: bv32,
    w8: bv32, w9: bv32, w10: bv32, w11: bv32, w12: bv32, w13: bv32, w14: bv32, w15: bv32)

  function Tick(m: Machine): Machine {
    Machine(m.t + 1, Round(m.s, m.t, m.w0),
            m.w1, m.w2, m.w3, m.w4, m.w5, m.w6, m.w7, m.w8,
            m.w9, m.w10, m.w11, m.w12, m.w13, m.w14, m.w15,
            Extended(m.w13, m.w8, m.w2, m.w0))
  }

  function Ticks(m: Machine, n: nat): Machine
    decreases n
  {
    if n == 0 then m else Ticks(Tick(m), n - 1)
  }

  /** Where the rounds over a block stand. */
  ghost function ShownAt(h: Words, block: seq<Byte>, t: nat): Machine
    requires |block| == BLOCK
  {
    Machine(t, Rounds(h, block, t),
            Schedule(block, t), Schedule(block, t + 1), Schedule(block, t + 2), Schedule(block, t + 3),
            Schedule(block, t + 4), Schedule(block, t + 5), Schedule(block, t + 6), Schedule(block, t + 7),
            Schedule(block, t + 8), Schedule(block, t + 9), Schedule(block, t + 10), Schedule(block, t + 11),
            Schedule(block, t + 12), Schedule(block, t + 13), Schedule(block, t + 14), Schedule(block, t + 15))
  }

  ghost function Shown(h: Words, block: seq<Byte>): nat -> Machine
    requires |block| == BLOCK
  {
    (t: nat) => ShownAt(h, block, t)
  }

  ghost predicate Follows(shown: nat -> Machine, t: nat) {
    shown(t).t == t && Tick(shown(t)) == shown(t + 1)
  }

  lemma {:induction false} ShownFollows(h: Words, block: seq<Byte>, t: nat)
    requires |block| == BLOCK
    ensures Follows(Shown(h, block), t)
  {
    assert Rounds(h, block, t + 1) == Round(Rounds(h, block, t), t, Schedule(block, t));
    ScheduleOn(block, t + 16);
  }

  lemma {:induction false} ScheduleOn(block: seq<Byte>, t: nat)
    requires |block| == BLOCK && t >= 16
    ensures Schedule(block, t)
         == Extended(Schedule(block, t - 3), Schedule(block, t - 8), Schedule(block, t - 14), Schedule(block, t - 16))
  {
  }

  lemma {:induction false} TicksShown(shown: nat -> Machine, t: nat, n: nat)
    requires forall i: nat :: Follows(shown, i)
    ensures Ticks(shown(t), n) == shown(t + n)
    decreases n
  {
    if n > 0 {
      assert Follows(shown, t);
      TicksShown(shown, t + 1, n - 1);
    }
  }

  // Where the rounds stand after every five of them, when the block is that of "abc".
  const MARK0 := Machine(0, Words(0x67452301, 0xefcdab89, 0x98badcfe, 0x10325476, 0xc3d2e1f0),
    0x61626380, 0x00000000, 0x00000000, 0x00000000, 0x00000000, 0x00000000, 0x00000000, 0x00000000,
    0x00000000, 0x00000000, 0x00000000, 0x00000000, 0x00000000, 0x00000000, 0x00000000, 0x00000018)
  const MARK1 := Machine(5, Words(0xcfd499de, 0xcdd8e11b, 0x284e43c2, 0x626414db, 0xc045bf0c),
    0x00000000, 0x00000000, 0x00000000, 0x00000000, 0x00000000, 0x00000000, 0x00000000, 0x00000000,
    0x00000000, 0x00000000, 0x00000018, 0xc2c4c700, 0x00000000, 0x00000030, 0x85898e01, 0x00000000)
  const MARK2 := Machine(10, Words(0x8351f929, 0x4b6ae328, 0x27a301f5, 0x664f8c30, 0x0ff1f290),
    0x00000000, 0x00000000, 0x00000000, 0x00000000, 0x00000000, 0x00000018, 0xc2c4c700, 0x00000000,
    0x00000030, 0x85898e01, 0x00000000, 0x00000060, 0x0b131c03, 0x00000030, 0x85898ec1, 0x16263806)
  const MARK3 := Machine(15, Words(0x196bee77, 0x9128f695, 0x1181ed99, 0x18c623f9, 0x7ef6a7a2),
    0x00000018, 0xc2c4c700, 0x00000000, 0x00000030, 0x85898e01, 0x00000000, 0x00000060, 0x0b131c03,
    0x00000030, 0x85898ec1, 0x16263806, 0x00000000, 0x00000180, 0x2c4c700c, 0x000000f0, 0x93afb507)
  const MARK4 := Machine(20, Words(0xfd9e1d7d, 0xdc64901d, 0x20aa99ca, 0xd3a49608, 0xc82f758b),
    0x00000000, 0x00000060, 0x0b131c03, 0x00000030, 0x85898ec1, 0x16263806, 0x00000000, 0x00000180,
    0x2c4c700c, 0x000000f0, 0x93afb507, 0x5898e048, 0x8e9a9202, 0x00000600, 0xb131c0f0, 0x16263bc6)
  const MARK5 := Machine(25, Words(0xc7567dc6, 0xd541f12d, 0x884a0d21, 0x0ce88eff, 0x868dec32),
    0x16263806, 0x00000000, 0x00000180, 0x2c4c700c, 0x000000f0, 0x93afb507, 0x5898e048, 0x8e9a9202,
    0x00000600, 0xb131c0f0, 0x16263bc6, 0x4ebed41e, 0x626380a1, 0x16263806, 0x000018c0, 0xd2e138c4)
  const MARK6 := Machine(30, Words(0xc5fbaf5d, 0x8370b52e, 0xd2aa1365, 0x6f8d7ef5, 0x12104ee9),
    0x93afb507, 0x5898e048, 0x8e9a9202, 0x00000600, 0xb131c0f0, 0x16263bc6, 0x4ebed41e, 0x626380a1,
    0x16263806, 0x000018c0, 0xd2e138c4, 0x00000f00, 0x3afb5079, 0x898e04e5, 0xe2ba3c2b, 0x000060c0)
  const MARK7 := Machine(35, Words(0x21796ad4, 0x2c0ebc11, 0x811bea82, 0xcee1174c, 0xc499ed01),
    0x16263bc6, 0x4ebed41e, 0x626380a1, 0x16263806, 0x000018c0, 0xd2e138c4, 0x00000f00, 0x3afb5079,
    0x898e04e5, 0xe2ba3c2b, 0x000060c0, 0x053a37cd, 0x74458547, 0xda9415ed, 0x26380a16, 0x626383a1)
  const MARK8 := Machine(40, Words(0x32de1cba, 0x4c986405, 0xf718e5cf, 0x03d447f6, 0xf72eec32),
    0xd2e138c4, 0x00000f00, 0x3afb5079, 0x898e04e5, 0xe2ba3c2b, 0x000060c0, 0x053a37cd, 0x74458547,
    0xda9415ed, 0x26380a16, 0x626383a1, 0x4ebf54de, 0x3835b44b, 0x0000f600, 0x1e84c7a3, 0x98e04d98)
  const MARK9 := Machine(45, Words(0x40f28e09, 0xee1b1aaf, 0x5fc64f71, 0x25c28357, 0xff21f7b7),
    0x000060c0, 0x053a37cd, 0x74458547, 0xda9415ed, 0x26380a16, 0x626383a1, 0x4ebf54de, 0x3835b44b,
    0x0000f600, 0x1e84c7a3, 0x98e04d98, 0x651d16a0, 0x62658ca1, 0x458544d6, 0x44584cb7, 0x7ba06619)
  const MARK10 := Machine(50, Words(0x120731c5, 0xbaf39337, 0xafab40b2, 0x2806e11b, 0x8714787c),
    0x626383a1, 0x4ebf54de, 0x3835b44b, 0x0000f600, 0x1e84c7a3, 0x98e04d98, 0x651d16a0, 0x62658ca1,
    0x458544d6, 0x44584cb7, 0x7ba06619, 0x6380aea2, 0x0ae55269, 0x627b49a1, 0x7cd45c9d, 0x000f0000)
  const MARK11 := Machine(55, Words(0x7b71f76d, 0x27e9f1d8, 0x792410db, 0x8e11eb59, 0x99076cb3),
    0x98e04d98, 0x651d16a0, 0x62658ca1, 0x458544d6, 0x44584cb7, 0x7ba06619, 0x6380aea2, 0x0ae55269,
    0x627b49a1, 0x7cd45c9d, 0x000f0000, 0xfb50753a, 0xec6765e8, 0xba3c2be2, 0x0060c000, 0x3a37cd05)
  const MARK12 := Machine(60, Words(0x3f52de5a, 0x09d785fd, 0x3498bfd4, 0xf211824f, 0xd79915ab),
    0x7ba06619, 0x6380aea2, 0x0ae55269, 0x627b49a1, 0x7cd45c9d, 0x000f0000, 0xfb50753a, 0xec6765e8,
    0xba3c2be2, 0x0060c000, 0x3a37cd05, 0x458546f4, 0xb8599dd6, 0x380a1a26, 0x01e02203, 0xe7cc3456)
  const MARK13 := Machine(65, Words(0x19dfa7ac, 0x6b61c9e1, 0xed9b0082, 0x9523272c, 0xf5d5b051),
    0x000f0000, 0xfb50753a, 0xec6765e8, 0xba3c2be2, 0x0060c000, 0x3a37cd05, 0x458546f4, 0xb8599dd6,
    0x380a1a26, 0x01e02203, 0xe7cc3456, 0xe6e60b69, 0x00f60a00, 0x5795ef4f, 0x822e0879, 0x7e577ce2)
  const MARK14 := Machine(70, Words(0x3f2588c2, 0x497093c0, 0xde37534a, 0x030f7cad, 0x4405957e),
    0x3a37cd05, 0x458546f4, 0xb8599dd6, 0x380a1a26, 0x01e02203, 0xe7cc3456, 0xe6e60b69, 0x00f60a00,
    0x5795ef4f, 0x822e0879, 0x7e577ce2, 0x07ef2103, 0x8544e945, 0xeb39dab8, 0xc205991a, 0x80aecb63)
  const MARK15 := Machine(75, Words(0x5ee76897, 0x11793f6f, 0x3b6d0b79, 0xce616779, 0xf0667e31),
    0xe7cc3456, 0xe6e60b69, 0x00f60a00, 0x5795ef4f, 0x822e0879, 0x7e577ce2, 0x07ef2103, 0x8544e945,
    0xeb39dab8, 0xc205991a, 0x80aecb63, 0x7d84ca48, 0x7b499b62, 0x8e8010a8, 0x4b5b8a77, 0x3216b69a)
  const MARK16 := Machine(80, Words(0x42541b35, 0x5738d5e1, 0x21834873, 0x681e6df6, 0xd8fdf6ad),
    0x7e577ce2, 0x07ef2103, 0x8544e945, 0xeb39dab8, 0xc205991a, 0x80aecb63, 0x7d84ca48, 0x7b499b62,
    0x8e8010a8, 0x4b5b8a77, 0x3216b69a, 0x0507e88d, 0x705bee96, 0x60c0ff00, 0xa28362d0, 0x1da6b91d)

  /** From one mark to the next. */
  lemma {:induction false} Further(shown: nat -> Machine, m: Machine, next: Machine, n: nat)
    requires (forall i: nat :: Follows(shown, i)) && shown(m.t) == m && Ticks(m, n) == next && next.t == m.t + n
    ensures shown(next.t) == next
  {
    TicksShown(shown, m.t, n);
  }

  lemma From0(shown: nat -> Machine)
    requires (forall i: nat :: Follows(shown, i)) && shown(0) == MARK0
    ensures shown(5) == MARK1
  {
    Further(shown, MARK0, MARK1, 5);
  }

  lemma From5(shown: nat -> Machine)
    requires (forall i: nat :: Follows(shown, i)) && shown(5) == MARK1
    ensures shown(10) == MARK2
  {
    Further(shown, MARK1, MARK2, 5);
  }

  lemma From10(shown: nat -> Machine)
    requires (forall i: nat :: Follows(shown, i)) && shown(10) == MARK2
    ensures shown(15) == MARK3
  {
    Further(shown, MARK2, MARK3, 5);
  }

  lemma From15(shown: nat -> Machine)
    requires (forall i: nat :: Follows(shown, i)) && shown(15) == MARK3
    ensures shown(20) == MARK4
  {
    Further(shown, MARK3, MARK4, 5);
  }

  lemma From20(shown: nat -> Machine)
    requires (forall i: nat :: Follows(shown, i)) && shown(20) == MARK4
    ensures shown(25) == MARK5
  {
    Further(shown, MARK4, MARK5, 5);
  }

  lemma From25(shown: nat -> Machine)
    requires (forall i: nat :: Follows(shown, i)) && shown(25) == MARK5
    ensures shown(30) == MARK6
  {
    Further(shown, MARK5, MARK6, 5);
  }

  lemma From30(shown: nat -> Machine)
    requires (forall i: nat :: Follows(shown, i)) && shown(30) == MARK6
    ensures shown(35) == MARK7
  {
    Further(shown, MARK6, MARK7, 5);
  }

  lemma From35(shown: nat -> Machine)
    requires (forall i: nat :: Follows(shown, i)) && shown(35) == MARK7
    ensures shown(40) == MARK8
  {
    Further(shown, MARK7, MARK8, 5);
  }

  lemma From40(shown: nat -> Machine)
    requires (forall i: nat :: Follows(shown, i)) && shown(40) == MARK8
    ensures shown(45) == MARK9
  {
    Further(shown, MARK8, MARK9, 5);
  }

  lemma From45(shown: nat -> Machine)
    requires (forall i: nat :: Follows(shown, i)) && shown(45) == MARK9
    ensures shown(50) == MARK10
  {
    Further(shown, MARK9, MARK10, 5);
  }

  lemma From50(shown: nat -> Machine)
    requires (forall i: nat :: Follows(shown, i)) && shown(50) == MARK10
    ensures shown(55) == MARK11
  {
    Further(shown, MARK10, MARK11, 5);
  }

  lemma From55(shown: nat -> Machine)
    requires (forall i: nat :: Follows(shown, i)) && shown(55) == MARK11
    ensures shown(60) == MARK12
  {
    Further(shown, MARK11, MARK12, 5);
  }

  lemma From60(shown: nat -> Machine)
    requires (forall i: nat :: Follows(shown, i)) && shown(60) == MARK12
    ensures shown(65) == MARK13
  {
    Further(shown, MARK12, MARK13, 5);
  }

  lemma From65(shown: nat -> Machine)
    requires (forall i: nat :: Follows(shown, i)) && shown(65) == MARK13
    ensures shown(70) == MARK14
  {
    Further(shown, MARK13, MARK14, 5);
  }

  lemma From70(shown: nat -> Machine)
    requires (forall i: nat :: Follows(shown, i)) && shown(70) == MARK14
    ensures shown(75) == MARK15
  {
    Further(shown, MARK14, MARK15, 5);
  }

  lemma From75(shown: nat -> Machine)
    requires (forall i: nat :: Follows(shown, i)) && shown(75) == MARK15
    ensures shown(80) == MARK16
  {
    Further(shown, MARK15, MARK16, 5);
  }

  lemma {:induction false} AllTheWay(shown: nat -> Machine)
    requires (forall i: nat :: Follows(shown, i)) && shown(0) == MARK0
    ensures shown(80) == MARK16
  {
    From0(shown);
    From5(shown);
    From10(shown);
    From15(shown);
    From20(shown);
    From25(shown);
    From30(shown);
    From35(shown);
    From40(shown);
    From45(shown);
    From50(shown);
    From55(shown);
    From60(shown);
    From65(shown);
    From70(shown);
    From75(shown);
  }

  lemma {:induction false} ZerosAt(n: nat, i: nat)
    requires i < n
    ensures Zeros(n)[i] == 0
  {
    if i < n - 1 {
      ZerosAt(n - 1, i);
    }
  }

  lemma ZeroBytes(x: nat, n: nat, i: nat)
    requires x == 0 && i < n
    ensures BigEndian(x, n)[i] == 0
  {
    BigEndianLast(x, n);
    if i < n - 1 {
      ZeroBytes(x, n - 1, i);
      assert BigEndian(x, n)[i] == BigEndian(x, n)[..n - 1][i];
    }
  }

  /** The words of that block. */
  lemma {:induction false} WordsOfAbc(block: seq<Byte>)
    requires |block| == BLOCK && block[..4] == [0x61, 0x62, 0x63, 0x80] && block[63] == 24
    requires forall i :: 4 <= i < 63 ==> block[i] == 0
    ensures WordAt(block, 0) == 0x61626380 && WordAt(block, 15) == 24
    ensures forall t :: 1 <= t < 15 ==> WordAt(block, t) == 0
  {
    assert block[0] == block[..4][0] && block[1] == block[..4][1];
    assert block[2] == block[..4][2] && block[3] == block[..4][3];
  }

  lemma {:induction false} StartsAtMark(block: seq<Byte>)
    requires |block| == BLOCK && WordAt(block, 0) == 0x61626380 && WordAt(block, 15) == 24
    requires forall t :: 1 <= t < 15 ==> WordAt(block, t) == 0
    ensures ShownAt(INITIAL, block, 0) == MARK0
  {
  }

  lemma {:induction false} OutputOfAbc(h: Words)
    requires h == Sum(INITIAL, MARK16.s)
    ensures Output(h) == [0xa9, 0x99, 0x3e, 0x36, 0x47, 0x06, 0x81, 0x6a, 0xba, 0x3e,
                          0x25, 0x71, 0x78, 0x50, 0xc2, 0x6c, 0x9c, 0xd0, 0xd8, 0x9d]
  {
  }

  /** The digest of "abc", byte by byte. */
  lemma {:induction false} DigestOfAbc(m: seq<Byte>, rounds: nat)
    requires m == [0x61, 0x62, 0x63] && rounds == ROUNDS
    ensures Digest(m, rounds) == [0xa9, 0x99, 0x3e, 0x36, 0x47, 0x06, 0x81, 0x6a, 0xba, 0x3e,
                                  0x25, 0x71, 0x78, 0x50, 0xc2, 0x6c, 0x9c, 0xd0, 0xd8, 0x9d]
  {
    var block := Padded(m);
    PaddedAbc(m, block);
    WordsOfAbc(block);
    StartsAtMark(block);
    var shown := Shown(INITIAL, block);
    forall i: nat ensures Follows(shown, i) {
      ShownFollows(INITIAL, block, i);
    }
    AllTheWay(shown);
    OneBlock(block, rounds);
    OutputOfAbc(Absorb(block, rounds));
  }

  lemma {:induction false} OneBlock(block: seq<Byte>, rounds: nat)
    requires |block| == BLOCK
    ensures Absorb(block, rounds) == Compress(INITIAL, block, rounds)
  {
    AbsorbBlock([], block, rounds);
    assert [] + block == block;
  }

  /** The one block of the padded message: four bytes that are not zero, and the last. */
  lemma {:induction false} PaddedAbc(m: seq<Byte>, block: seq<Byte>)
    requires m == [0x61, 0x62, 0x63] && block == Padded(m)
    ensures |block| == BLOCK && block[..4] == [0x61, 0x62, 0x63, 0x80] && block[63] == 24
    ensures forall i :: 4 <= i < 63 ==> block[i] == 0
  {
    var zeros, tail := Zeros(Gap(|m|)), BigEndian(8 * |m| % Pow256(LENGTH_BYTES), LENGTH_BYTES);
    assert |zeros| == 52;
    forall i | 0 <= i < |zeros| ensures zeros[i] == 0 {
      ZerosAt(Gap(|m|), i);
    }
    Pow256Grows(LENGTH_BYTES);
    SmallRemainder(24, Pow256(LENGTH_BYTES), 24 % Pow256(LENGTH_BYTES));
    TailOfAbc(24, LENGTH_BYTES);
    ThreeParts(m + [0x80], zeros, tail, block);
  }

  lemma {:induction false} Pow256Grows(n: nat)
    requires n > 0
    ensures Pow256(n) >= 256
  {
    if n > 1 {
      Pow256Grows(n - 1);
    }
  }

  /** A number below 256 is its last byte, behind zeros. */
  lemma {:induction false} TailOfAbc(x: nat, n: nat)
    requires n > 0 && x < 256
    ensures BigEndian(x, n)[n - 1] == x && forall i :: 0 <= i < n - 1 ==> BigEndian(x, n)[i] == 0
  {
    BigEndianLast(x, n);
    forall i | 0 <= i < n - 1 ensures BigEndian(x, n)[i] == 0 {
      ZeroBytes(x / 256, n - 1, i);
      assert BigEndian(x, n)[i] == BigEndian(x, n)[..n - 1][i];
    }
  }

  lemma ThreeParts(head: seq<Byte>, zeros: seq<Byte>, tail: seq<Byte>, block: seq<Byte>)
    requires |head| == 4 && |zeros| == 52 && |tail| == 8 && block == head + zeros + tail
    requires forall i :: 0 <= i < |zeros| ==> zeros[i] == 0
    requires forall i :: 0 <= i < |tail| - 1 ==> tail[i] == 0
    ensures |block| == BLOCK && block[..4] == head && block[63] == tail[7]
    ensures forall i :: 4 <= i < 63 ==> block[i] == 0
  {
  }
}
