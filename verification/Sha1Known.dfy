/** The digest of "abc", as the standard's example gives it, from the definitions. */
module Sha1Known {
  import opened Bits
  import opened Sha1Spec

  const ABC: seq<Byte> := [0x61, 0x62, 0x63]

  ghost const BLOCK: Block := Pad(ABC)

  lemma {:induction false} BlockBytes()
    ensures BLOCK == ABC + [0x80] + Zeros(59) + [24]
  {
    hide Zeros, BigEndian;
    LengthBytes();
    assert ZeroCount(3) == 52;
    ZerosJoin(52, 7);
    assert BLOCK == ABC + [0x80] + (Zeros(52) + Zeros(7)) + [24];
  }

  lemma {:induction false} ZerosJoin(j: nat, k: nat)
    ensures Zeros(j) + Zeros(k) == Zeros(j + k)
  {
  }

  lemma {:induction false} LengthBytes()
    ensures BigEndian(8, 24) == Zeros(7) + [24]
  {
    assert BigEndian(7, 0) == Zeros(7) by {
      ZeroBytes(7);
    }
    assert BigEndian(8, 24) == BigEndian(7, 0) + [LowByte(24)];
  }

  lemma {:induction false} ZeroBytes(k: nat)
    ensures BigEndian(k, 0) == Zeros(k)
  {
    if k > 0 {
      ZeroBytes(k - 1);
    }
  }

  /** The words of the block. */
  lemma {:induction false} FirstWords(t: nat)
    requires t < 16
    ensures W(BLOCK, t) == if t == 0 then 0x61626380 else if t == 15 then 24 else 0
  {
    BlockBytes();
    assert BLOCK[4 * t + 3] == if t == 0 then 0x80 else if t == 15 then 24 else 0;
    assert t > 0 ==> BLOCK[4 * t] == 0 && BLOCK[4 * t + 1] == 0 && BLOCK[4 * t + 2] == 0;
  }

  lemma {:induction false} NextWord(t: nat, x: Word, y: Word, z: Word, w: Word)
    requires t >= 16
    requires W(BLOCK, t - 3) == x && W(BLOCK, t - 8) == y && W(BLOCK, t - 14) == z && W(BLOCK, t - 16) == w
    ensures W(BLOCK, t) == Mix(x, y, z, w)
  {
    hide Mix;
  }

  /** Sixteen words of the schedule, from the `t`-th on. */
  ghost predicate Window(t: nat, ws: seq<Word>) {
    && |ws| == 16
    && W(BLOCK, t + 0) == ws[0] && W(BLOCK, t + 1) == ws[1] && W(BLOCK, t + 2) == ws[2] && W(BLOCK, t + 3) == ws[3]
    && W(BLOCK, t + 4) == ws[4] && W(BLOCK, t + 5) == ws[5] && W(BLOCK, t + 6) == ws[6] && W(BLOCK, t + 7) == ws[7]
    && W(BLOCK, t + 8) == ws[8] && W(BLOCK, t + 9) == ws[9] && W(BLOCK, t + 10) == ws[10] && W(BLOCK, t + 11) == ws[11]
    && W(BLOCK, t + 12) == ws[12] && W(BLOCK, t + 13) == ws[13] && W(BLOCK, t + 14) == ws[14] && W(BLOCK, t + 15) == ws[15]
  }

  const WORDS0: seq<Word> := [
    0x61626380, 0, 0, 0, 0, 0, 0, 0,
    0, 0, 0, 0, 0, 0, 0, 0x00000018]

  const WORDS16: seq<Word> := [
    0xc2c4c700, 0, 0x00000030, 0x85898e01, 0, 0x00000060, 0x0b131c03, 0x00000030,
    0x85898ec1, 0x16263806, 0, 0x00000180, 0x2c4c700c, 0x000000f0, 0x93afb507, 0x5898e048]

  const WORDS32: seq<Word> := [
    0x8e9a9202, 0x00000600, 0xb131c0f0, 0x16263bc6, 0x4ebed41e, 0x626380a1, 0x16263806, 0x000018c0,
    0xd2e138c4, 0x00000f00, 0x3afb5079, 0x898e04e5, 0xe2ba3c2b, 0x000060c0, 0x053a37cd, 0x74458547]

  const WORDS48: seq<Word> := [
    0xda9415ed, 0x26380a16, 0x626383a1, 0x4ebf54de, 0x3835b44b, 0x0000f600, 0x1e84c7a3, 0x98e04d98,
    0x651d16a0, 0x62658ca1, 0x458544d6, 0x44584cb7, 0x7ba06619, 0x6380aea2, 0x0ae55269, 0x627b49a1]

  const WORDS64: seq<Word> := [
    0x7cd45c9d, 0x000f0000, 0xfb50753a, 0xec6765e8, 0xba3c2be2, 0x0060c000, 0x3a37cd05, 0x458546f4,
    0xb8599dd6, 0x380a1a26, 0x01e02203, 0xe7cc3456, 0xe6e60b69, 0x00f60a00, 0x5795ef4f, 0x822e0879]

  lemma {:induction false} FirstWindow()
    ensures Window(0, WORDS0)
  {
    hide W;
    forall t | 0 <= t < 16
      ensures W(BLOCK, t) == if t == 0 then 0x61626380 else if t == 15 then 24 else 0
    {
      FirstWords(t);
    }
  }

  lemma {:induction false} NextWindow16()
    requires Window(0, WORDS0)
    ensures Window(16, WORDS16)
  {
    hide W;
    NextWord(16, 0, 0, 0, 0x61626380);
    NextWord(17, 0, 0, 0, 0);
    NextWord(18, 0x00000018, 0, 0, 0);
    NextWord(19, 0xc2c4c700, 0, 0, 0);
    NextWord(20, 0, 0, 0, 0);
    NextWord(21, 0x00000030, 0, 0, 0);
    NextWord(22, 0x85898e01, 0, 0, 0);
    NextWord(23, 0, 0x00000018, 0, 0);
    NextWord(24, 0x00000060, 0xc2c4c700, 0, 0);
    NextWord(25, 0x0b131c03, 0, 0, 0);
    NextWord(26, 0x00000030, 0x00000030, 0, 0);
    NextWord(27, 0x85898ec1, 0x85898e01, 0, 0);
    NextWord(28, 0x16263806, 0, 0, 0);
    NextWord(29, 0, 0x00000060, 0x00000018, 0);
    NextWord(30, 0x00000180, 0x0b131c03, 0xc2c4c700, 0);
    NextWord(31, 0x2c4c700c, 0x00000030, 0, 0x00000018);
  }

  lemma {:induction false} NextWindow32()
    requires Window(16, WORDS16)
    ensures Window(32, WORDS32)
  {
    hide W;
    NextWord(32, 0x000000f0, 0x85898ec1, 0x00000030, 0xc2c4c700);
    NextWord(33, 0x93afb507, 0x16263806, 0x85898e01, 0);
    NextWord(34, 0x5898e048, 0, 0, 0x00000030);
    NextWord(35, 0x8e9a9202, 0x00000180, 0x00000060, 0x85898e01);
    NextWord(36, 0x00000600, 0x2c4c700c, 0x0b131c03, 0);
    NextWord(37, 0xb131c0f0, 0x000000f0, 0x00000030, 0x00000060);
    NextWord(38, 0x16263bc6, 0x93afb507, 0x85898ec1, 0x0b131c03);
    NextWord(39, 0x4ebed41e, 0x5898e048, 0x16263806, 0x00000030);
    NextWord(40, 0x626380a1, 0x8e9a9202, 0, 0x85898ec1);
    NextWord(41, 0x16263806, 0x00000600, 0x00000180, 0x16263806);
    NextWord(42, 0x000018c0, 0xb131c0f0, 0x2c4c700c, 0);
    NextWord(43, 0xd2e138c4, 0x16263bc6, 0x000000f0, 0x00000180);
    NextWord(44, 0x00000f00, 0x4ebed41e, 0x93afb507, 0x2c4c700c);
    NextWord(45, 0x3afb5079, 0x626380a1, 0x5898e048, 0x000000f0);
    NextWord(46, 0x898e04e5, 0x16263806, 0x8e9a9202, 0x93afb507);
    NextWord(47, 0xe2ba3c2b, 0x000018c0, 0x00000600, 0x5898e048);
  }

  lemma {:induction false} NextWindow48()
    requires Window(32, WORDS32)
    ensures Window(48, WORDS48)
  {
    hide W;
    NextWord(48, 0x000060c0, 0xd2e138c4, 0xb131c0f0, 0x8e9a9202);
    NextWord(49, 0x053a37cd, 0x00000f00, 0x16263bc6, 0x00000600);
    NextWord(50, 0x74458547, 0x3afb5079, 0x4ebed41e, 0xb131c0f0);
    NextWord(51, 0xda9415ed, 0x898e04e5, 0x626380a1, 0x16263bc6);
    NextWord(52, 0x26380a16, 0xe2ba3c2b, 0x16263806, 0x4ebed41e);
    NextWord(53, 0x626383a1, 0x000060c0, 0x000018c0, 0x626380a1);
    NextWord(54, 0x4ebf54de, 0x053a37cd, 0xd2e138c4, 0x16263806);
    NextWord(55, 0x3835b44b, 0x74458547, 0x00000f00, 0x000018c0);
    NextWord(56, 0x0000f600, 0xda9415ed, 0x3afb5079, 0xd2e138c4);
    NextWord(57, 0x1e84c7a3, 0x26380a16, 0x898e04e5, 0x00000f00);
    NextWord(58, 0x98e04d98, 0x626383a1, 0xe2ba3c2b, 0x3afb5079);
    NextWord(59, 0x651d16a0, 0x4ebf54de, 0x000060c0, 0x898e04e5);
    NextWord(60, 0x62658ca1, 0x3835b44b, 0x053a37cd, 0xe2ba3c2b);
    NextWord(61, 0x458544d6, 0x0000f600, 0x74458547, 0x000060c0);
    NextWord(62, 0x44584cb7, 0x1e84c7a3, 0xda9415ed, 0x053a37cd);
    NextWord(63, 0x7ba06619, 0x98e04d98, 0x26380a16, 0x74458547);
  }

  lemma {:induction false} NextWindow64()
    requires Window(48, WORDS48)
    ensures Window(64, WORDS64)
  {
    hide W;
    NextWord(64, 0x6380aea2, 0x651d16a0, 0x626383a1, 0xda9415ed);
    NextWord(65, 0x0ae55269, 0x62658ca1, 0x4ebf54de, 0x26380a16);
    NextWord(66, 0x627b49a1, 0x458544d6, 0x3835b44b, 0x626383a1);
    NextWord(67, 0x7cd45c9d, 0x44584cb7, 0x0000f600, 0x4ebf54de);
    NextWord(68, 0x000f0000, 0x7ba06619, 0x1e84c7a3, 0x3835b44b);
    NextWord(69, 0xfb50753a, 0x6380aea2, 0x98e04d98, 0x0000f600);
    NextWord(70, 0xec6765e8, 0x0ae55269, 0x651d16a0, 0x1e84c7a3);
    NextWord(71, 0xba3c2be2, 0x627b49a1, 0x62658ca1, 0x98e04d98);
    NextWord(72, 0x0060c000, 0x7cd45c9d, 0x458544d6, 0x651d16a0);
    NextWord(73, 0x3a37cd05, 0x000f0000, 0x44584cb7, 0x62658ca1);
    NextWord(74, 0x458546f4, 0xfb50753a, 0x7ba06619, 0x458544d6);
    NextWord(75, 0xb8599dd6, 0xec6765e8, 0x6380aea2, 0x44584cb7);
    NextWord(76, 0x380a1a26, 0xba3c2be2, 0x0ae55269, 0x7ba06619);
    NextWord(77, 0x01e02203, 0x0060c000, 0x627b49a1, 0x6380aea2);
    NextWord(78, 0xe7cc3456, 0x3a37cd05, 0x7cd45c9d, 0x0ae55269);
    NextWord(79, 0xe6e60b69, 0x458546f4, 0x000f0000, 0x627b49a1);
  }

  lemma {:induction false} NextRound(t: nat, s: Digest, w: Word, a: Word)
    requires Rounds(IV, BLOCK, t) == s && W(BLOCK, t) == w
    requires Sum(RotL5(s.a), F(t, s.b, s.c, s.d), s.e, K(t), w) == a
    ensures Rounds(IV, BLOCK, t + 1) == Digest(a, s.a, RotL30(s.b), s.c, s.d)
  {
    hide F, K, W, RotL5, RotL30, Sum;
  }

  lemma {:induction false} Rounds0()
    requires Window(0, WORDS0) && Rounds(IV, BLOCK, 0) == Digest(0x67452301, 0xefcdab89, 0x98badcfe, 0x10325476, 0xc3d2e1f0)
    ensures Rounds(IV, BLOCK, 16) == Digest(0x20bdd62f, 0x196bee77, 0x644a3da5, 0x1181ed99, 0x18c623f9)
  {
    hide W, Rounds;
    NextRound(0, Digest(0x67452301, 0xefcdab89, 0x98badcfe, 0x10325476, 0xc3d2e1f0), 0x61626380, 0x0116fc33);
    NextRound(1, Digest(0x0116fc33, 0x67452301, 0x7bf36ae2, 0x98badcfe, 0x10325476), 0, 0x8990536d);
    NextRound(2, Digest(0x8990536d, 0x0116fc33, 0x59d148c0, 0x7bf36ae2, 0x98badcfe), 0, 0xa1390f08);
    NextRound(3, Digest(0xa1390f08, 0x8990536d, 0xc045bf0c, 0x59d148c0, 0x7bf36ae2), 0, 0xcdd8e11b);
    NextRound(4, Digest(0xcdd8e11b, 0xa1390f08, 0x626414db, 0xc045bf0c, 0x59d148c0), 0, 0xcfd499de);
    NextRound(5, Digest(0xcfd499de, 0xcdd8e11b, 0x284e43c2, 0x626414db, 0xc045bf0c), 0, 0x3fc7ca40);
    NextRound(6, Digest(0x3fc7ca40, 0xcfd499de, 0xf3763846, 0x284e43c2, 0x626414db), 0, 0x993e30c1);
    NextRound(7, Digest(0x993e30c1, 0x3fc7ca40, 0xb3f52677, 0xf3763846, 0x284e43c2), 0, 0x9e8c07d4);
    NextRound(8, Digest(0x9e8c07d4, 0x993e30c1, 0x0ff1f290, 0xb3f52677, 0xf3763846), 0, 0x4b6ae328);
    NextRound(9, Digest(0x4b6ae328, 0x9e8c07d4, 0x664f8c30, 0x0ff1f290, 0xb3f52677), 0, 0x8351f929);
    NextRound(10, Digest(0x8351f929, 0x4b6ae328, 0x27a301f5, 0x664f8c30, 0x0ff1f290), 0, 0xfbda9e89);
    NextRound(11, Digest(0xfbda9e89, 0x8351f929, 0x12dab8ca, 0x27a301f5, 0x664f8c30), 0, 0x63188fe4);
    NextRound(12, Digest(0x63188fe4, 0xfbda9e89, 0x60d47e4a, 0x12dab8ca, 0x27a301f5), 0, 0x4607b664);
    NextRound(13, Digest(0x4607b664, 0x63188fe4, 0x7ef6a7a2, 0x60d47e4a, 0x12dab8ca), 0, 0x9128f695);
    NextRound(14, Digest(0x9128f695, 0x4607b664, 0x18c623f9, 0x7ef6a7a2, 0x60d47e4a), 0, 0x196bee77);
    NextRound(15, Digest(0x196bee77, 0x9128f695, 0x1181ed99, 0x18c623f9, 0x7ef6a7a2), 0x00000018, 0x20bdd62f);
  }

  lemma {:induction false} Rounds16()
    requires Window(16, WORDS16) && Rounds(IV, BLOCK, 16) == Digest(0x20bdd62f, 0x196bee77, 0x644a3da5, 0x1181ed99, 0x18c623f9)
    ensures Rounds(IV, BLOCK, 32) == Digest(0x3b845d33, 0x1267b407, 0x717eebd7, 0xa0dc2d4b, 0xd2aa1365)
  {
    hide W, Rounds;
    NextRound(16, Digest(0x20bdd62f, 0x196bee77, 0x644a3da5, 0x1181ed99, 0x18c623f9), 0xc2c4c700, 0x4e925823);
    NextRound(17, Digest(0x4e925823, 0x20bdd62f, 0xc65afb9d, 0x644a3da5, 0x1181ed99), 0, 0x82aa6728);
    NextRound(18, Digest(0x82aa6728, 0x4e925823, 0xc82f758b, 0xc65afb9d, 0x644a3da5), 0x00000030, 0xdc64901d);
    NextRound(19, Digest(0xdc64901d, 0x82aa6728, 0xd3a49608, 0xc82f758b, 0xc65afb9d), 0x85898e01, 0xfd9e1d7d);
    NextRound(20, Digest(0xfd9e1d7d, 0xdc64901d, 0x20aa99ca, 0xd3a49608, 0xc82f758b), 0, 0x1a37b0ca);
    NextRound(21, Digest(0x1a37b0ca, 0xfd9e1d7d, 0x77192407, 0x20aa99ca, 0xd3a49608), 0x00000060, 0x33a23bfc);
    NextRound(22, Digest(0x33a23bfc, 0x1a37b0ca, 0x7f67875f, 0x77192407, 0x20aa99ca), 0x0b131c03, 0x21283486);
    NextRound(23, Digest(0x21283486, 0x33a23bfc, 0x868dec32, 0x7f67875f, 0x77192407), 0x00000030, 0xd541f12d);
    NextRound(24, Digest(0xd541f12d, 0x21283486, 0x0ce88eff, 0x868dec32, 0x7f67875f), 0x85898ec1, 0xc7567dc6);
    NextRound(25, Digest(0xc7567dc6, 0xd541f12d, 0x884a0d21, 0x0ce88eff, 0x868dec32), 0x16263806, 0x48413ba4);
    NextRound(26, Digest(0x48413ba4, 0xc7567dc6, 0x75507c4b, 0x884a0d21, 0x0ce88eff), 0, 0xbe35fbd5);
    NextRound(27, Digest(0xbe35fbd5, 0x48413ba4, 0xb1d59f71, 0x75507c4b, 0x884a0d21), 0x00000180, 0x4aa84d97);
    NextRound(28, Digest(0x4aa84d97, 0xbe35fbd5, 0x12104ee9, 0xb1d59f71, 0x75507c4b), 0x2c4c700c, 0x8370b52e);
    NextRound(29, Digest(0x8370b52e, 0x4aa84d97, 0x6f8d7ef5, 0x12104ee9, 0xb1d59f71), 0x000000f0, 0xc5fbaf5d);
    NextRound(30, Digest(0xc5fbaf5d, 0x8370b52e, 0xd2aa1365, 0x6f8d7ef5, 0x12104ee9), 0x93afb507, 0x1267b407);
    NextRound(31, Digest(0x1267b407, 0xc5fbaf5d, 0xa0dc2d4b, 0xd2aa1365, 0x6f8d7ef5), 0x5898e048, 0x3b845d33);
  }

  lemma {:induction false} Rounds32()
    requires Window(32, WORDS32) && Rounds(IV, BLOCK, 32) == Digest(0x3b845d33, 0x1267b407, 0x717eebd7, 0xa0dc2d4b, 0xd2aa1365)
    ensures Rounds(IV, BLOCK, 48) == Digest(0xbead02ca, 0xa01b846c, 0x8714787c, 0x503ca382, 0xfb86c6ab)
  {
    hide W, Rounds;
    NextRound(32, Digest(0x3b845d33, 0x1267b407, 0x717eebd7, 0xa0dc2d4b, 0xd2aa1365), 0x8e9a9202, 0x046faa0a);
    NextRound(33, Digest(0x046faa0a, 0x3b845d33, 0xc499ed01, 0x717eebd7, 0xa0dc2d4b), 0x00000600, 0x2c0ebc11);
    NextRound(34, Digest(0x2c0ebc11, 0x046faa0a, 0xcee1174c, 0xc499ed01, 0x717eebd7), 0xb131c0f0, 0x21796ad4);
    NextRound(35, Digest(0x21796ad4, 0x2c0ebc11, 0x811bea82, 0xcee1174c, 0xc499ed01), 0x16263bc6, 0xdcbbb0cb);
    NextRound(36, Digest(0xdcbbb0cb, 0x21796ad4, 0x4b03af04, 0x811bea82, 0xcee1174c), 0x4ebed41e, 0x0f511fd8);
    NextRound(37, Digest(0x0f511fd8, 0xdcbbb0cb, 0x085e5ab5, 0x4b03af04, 0x811bea82), 0x626380a1, 0xdc63973f);
    NextRound(38, Digest(0xdc63973f, 0x0f511fd8, 0xf72eec32, 0x085e5ab5, 0x4b03af04), 0x16263806, 0x4c986405);
    NextRound(39, Digest(0x4c986405, 0xdc63973f, 0x03d447f6, 0xf72eec32, 0x085e5ab5), 0x000018c0, 0x32de1cba);
    NextRound(40, Digest(0x32de1cba, 0x4c986405, 0xf718e5cf, 0x03d447f6, 0xf72eec32), 0xd2e138c4, 0xfc87dedf);
    NextRound(41, Digest(0xfc87dedf, 0x32de1cba, 0x53261901, 0xf718e5cf, 0x03d447f6), 0x00000f00, 0x970a0d5c);
    NextRound(42, Digest(0x970a0d5c, 0xfc87dedf, 0x8cb7872e, 0x53261901, 0xf718e5cf), 0x3afb5079, 0x7f193dc5);
    NextRound(43, Digest(0x7f193dc5, 0x970a0d5c, 0xff21f7b7, 0x8cb7872e, 0x53261901), 0x898e04e5, 0xee1b1aaf);
    NextRound(44, Digest(0xee1b1aaf, 0x7f193dc5, 0x25c28357, 0xff21f7b7, 0x8cb7872e), 0xe2ba3c2b, 0x40f28e09);
    NextRound(45, Digest(0x40f28e09, 0xee1b1aaf, 0x5fc64f71, 0x25c28357, 0xff21f7b7), 0x000060c0, 0x1c51e1f2);
    NextRound(46, Digest(0x1c51e1f2, 0x40f28e09, 0xfb86c6ab, 0x5fc64f71, 0x25c28357), 0x053a37cd, 0xa01b846c);
    NextRound(47, Digest(0xa01b846c, 0x1c51e1f2, 0x503ca382, 0xfb86c6ab, 0x5fc64f71), 0x74458547, 0xbead02ca);
  }

  lemma {:induction false} Rounds48()
    requires Window(48, WORDS48) && Rounds(IV, BLOCK, 48) == Digest(0xbead02ca, 0xa01b846c, 0x8714787c, 0x503ca382, 0xfb86c6ab)
    ensures Rounds(IV, BLOCK, 64) == Digest(0x6b61c9e1, 0xb66c020b, 0x9523272c, 0xf5d5b051, 0x8fd4b796)
  {
    hide W, Rounds;
    NextRound(48, Digest(0xbead02ca, 0xa01b846c, 0x8714787c, 0x503ca382, 0xfb86c6ab), 0xda9415ed, 0xbaf39337);
    NextRound(49, Digest(0xbaf39337, 0xbead02ca, 0x2806e11b, 0x8714787c, 0x503ca382), 0x26380a16, 0x120731c5);
    NextRound(50, Digest(0x120731c5, 0xbaf39337, 0xafab40b2, 0x2806e11b, 0x8714787c), 0x626383a1, 0x641db2ce);
    NextRound(51, Digest(0x641db2ce, 0x120731c5, 0xeebce4cd, 0xafab40b2, 0x2806e11b), 0x4ebf54de, 0x3847ad66);
    NextRound(52, Digest(0x3847ad66, 0x641db2ce, 0x4481cc71, 0xeebce4cd, 0xafab40b2), 0x3835b44b, 0xe490436d);
    NextRound(53, Digest(0xe490436d, 0x3847ad66, 0x99076cb3, 0x4481cc71, 0xeebce4cd), 0x0000f600, 0x27e9f1d8);
    NextRound(54, Digest(0x27e9f1d8, 0xe490436d, 0x8e11eb59, 0x99076cb3, 0x4481cc71), 0x1e84c7a3, 0x7b71f76d);
    NextRound(55, Digest(0x7b71f76d, 0x27e9f1d8, 0x792410db, 0x8e11eb59, 0x99076cb3), 0x98e04d98, 0x5e6456af);
    NextRound(56, Digest(0x5e6456af, 0x7b71f76d, 0x09fa7c76, 0x792410db, 0x8e11eb59), 0x651d16a0, 0xc846093f);
    NextRound(57, Digest(0xc846093f, 0x5e6456af, 0x5edc7ddb, 0x09fa7c76, 0x792410db), 0x62658ca1, 0xd262ff50);
    NextRound(58, Digest(0xd262ff50, 0xc846093f, 0xd79915ab, 0x5edc7ddb, 0x09fa7c76), 0x458544d6, 0x09d785fd);
    NextRound(59, Digest(0x09d785fd, 0xd262ff50, 0xf211824f, 0xd79915ab, 0x5edc7ddb), 0x44584cb7, 0x3f52de5a);
    NextRound(60, Digest(0x3f52de5a, 0x09d785fd, 0x3498bfd4, 0xf211824f, 0xd79915ab), 0x7ba06619, 0xd756c147);
    NextRound(61, Digest(0xd756c147, 0x3f52de5a, 0x4275e17f, 0x3498bfd4, 0xf211824f), 0x6380aea2, 0x548c9cb2);
    NextRound(62, Digest(0x548c9cb2, 0xd756c147, 0x8fd4b796, 0x4275e17f, 0x3498bfd4), 0x0ae55269, 0xb66c020b);
    NextRound(63, Digest(0xb66c020b, 0x548c9cb2, 0xf5d5b051, 0x8fd4b796, 0x4275e17f), 0x627b49a1, 0x6b61c9e1);
  }

  lemma {:induction false} Rounds64()
    requires Window(64, WORDS64) && Rounds(IV, BLOCK, 64) == Digest(0x6b61c9e1, 0xb66c020b, 0x9523272c, 0xf5d5b051, 0x8fd4b796)
    ensures Rounds(IV, BLOCK, 80) == Digest(0x42541b35, 0x5738d5e1, 0x21834873, 0x681e6df6, 0xd8fdf6ad)
  {
    hide W, Rounds;
    NextRound(64, Digest(0x6b61c9e1, 0xb66c020b, 0x9523272c, 0xf5d5b051, 0x8fd4b796), 0x7cd45c9d, 0x19dfa7ac);
    NextRound(65, Digest(0x19dfa7ac, 0x6b61c9e1, 0xed9b0082, 0x9523272c, 0xf5d5b051), 0x000f0000, 0x101655f9);
    NextRound(66, Digest(0x101655f9, 0x19dfa7ac, 0x5ad87278, 0xed9b0082, 0x9523272c), 0xfb50753a, 0x0c3df2b4);
    NextRound(67, Digest(0x0c3df2b4, 0x101655f9, 0x0677e9eb, 0x5ad87278, 0xed9b0082), 0xec6765e8, 0x78dd4d2b);
    NextRound(68, Digest(0x78dd4d2b, 0x0c3df2b4, 0x4405957e, 0x0677e9eb, 0x5ad87278), 0xba3c2be2, 0x497093c0);
    NextRound(69, Digest(0x497093c0, 0x78dd4d2b, 0x030f7cad, 0x4405957e, 0x0677e9eb), 0x0060c000, 0x3f2588c2);
    NextRound(70, Digest(0x3f2588c2, 0x497093c0, 0xde37534a, 0x030f7cad, 0x4405957e), 0x3a37cd05, 0xc199f8c7);
    NextRound(71, Digest(0xc199f8c7, 0x3f2588c2, 0x125c24f0, 0xde37534a, 0x030f7cad), 0x458546f4, 0x39859de7);
    NextRound(72, Digest(0x39859de7, 0xc199f8c7, 0x8fc96230, 0x125c24f0, 0xde37534a), 0xb8599dd6, 0xedb42de4);
    NextRound(73, Digest(0xedb42de4, 0x39859de7, 0xf0667e31, 0x8fc96230, 0x125c24f0), 0x380a1a26, 0x11793f6f);
    NextRound(74, Digest(0x11793f6f, 0xedb42de4, 0xce616779, 0xf0667e31, 0x8fc96230), 0x01e02203, 0x5ee76897);
    NextRound(75, Digest(0x5ee76897, 0x11793f6f, 0x3b6d0b79, 0xce616779, 0xf0667e31), 0xe7cc3456, 0x63f7dab7);
    NextRound(76, Digest(0x63f7dab7, 0x5ee76897, 0xc45e4fdb, 0x3b6d0b79, 0xce616779), 0xe6e60b69, 0xa079b7d9);
    NextRound(77, Digest(0xa079b7d9, 0x63f7dab7, 0xd7b9da25, 0xc45e4fdb, 0x3b6d0b79), 0x00f60a00, 0x860d21cc);
    NextRound(78, Digest(0x860d21cc, 0xa079b7d9, 0xd8fdf6ad, 0xd7b9da25, 0xc45e4fdb), 0x5795ef4f, 0x5738d5e1);
    NextRound(79, Digest(0x5738d5e1, 0x860d21cc, 0x681e6df6, 0xd8fdf6ad, 0xd7b9da25), 0x822e0879, 0x42541b35);
  }

  /** The example of FIPS 180-4: the digest of "abc". */
  lemma {:induction false} DigestOfAbc()
    ensures Sha1(ABC) == Digest(0xa9993e36, 0x4706816a, 0xba3e2571, 0x7850c26c, 0x9cd0d89d)
  {
    hide W, Rounds, Window;
    FirstWindow();
    NextWindow16();
    NextWindow32();
    NextWindow48();
    NextWindow64();
    assert Rounds(IV, BLOCK, 0) == IV by {
      NoRounds();
    }
    Rounds0();
    Rounds16();
    Rounds32();
    Rounds48();
    Rounds64();
    HashOne(IV, BLOCK);
  }

  lemma {:induction false} NoRounds()
    ensures Rounds(IV, BLOCK, 0) == IV
  {
  }

  /** The round constants are the integer parts of 2^30 times the square roots of 2, 3, 5 and 10. */
  lemma {:induction false} RootConstants(t: nat)
    ensures var k := K(t) as nat;
            var n := if t < 20 then 2 else if t < 40 then 3 else if t < 60 then 5 else 10;
            k * k <= n * 0x1000_0000_0000_0000 < (k + 1) * (k + 1)
  {
    assert K(0) as nat == 1518500249 && K(20) as nat == 1859775393 && K(40) as nat == 2400959708 && K(60) as nat == 3395469782;
  }
}
