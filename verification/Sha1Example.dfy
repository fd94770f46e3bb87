/** The first example of FIPS 180-4: the SHA-1 digest of the three bytes "abc", worked out round by round,
    and where its constants come from. */
module Sha1Example {
  import opened HashStream
  import opened Sha1
  import opened Sha1Stream

  const ABC: Bytes := [0x61, 0x62, 0x63]

  /** The message padded to a block. */
  const BLOCK: Bytes := seq(64, i => Padding(i))

  function Padding(i: int): bv8 {
    if i == 0 then 0x61 else if i == 1 then 0x62 else if i == 2 then 0x63 else if i == 3 then 0x80
    else if i == 63 then 0x18 else 0
  }

  // ----- The schedule -----

  lemma WordFirst(t: nat, p: bv8, q: bv8, r: bv8, s: bv8)
    requires t < 16 && Padding(4 * t) == p && Padding(4 * t + 1) == q
    requires Padding(4 * t + 2) == r && Padding(4 * t + 3) == s
    ensures W(BLOCK, t) == ((p as bv32) << 24) | ((q as bv32) << 16) | ((r as bv32) << 8) | (s as bv32)
  {
    hide Padding;
  }

  lemma NoWord(t: nat)
    requires 1 <= t < 15
    ensures W(BLOCK, t) == 0
  {
    WordFirst(t, 0, 0, 0, 0);
    hide W;
  }

  lemma WordIs(t: nat, w3: bv32, w8: bv32, w14: bv32, w16: bv32, w: bv32)
    requires 16 <= t && W(BLOCK, t - 3) == w3 && W(BLOCK, t - 8) == w8
    requires W(BLOCK, t - 14) == w14 && W(BLOCK, t - 16) == w16
    requires Rotl1(w3 ^ w8 ^ w14 ^ w16) == w
    ensures W(BLOCK, t) == w
  {
    hide BigEndian, Rotl1;
  }

  lemma Words0()
    ensures W(BLOCK, 0) == 0x61626380 && W(BLOCK, 1) == 0x00000000
    ensures W(BLOCK, 2) == 0x00000000 && W(BLOCK, 3) == 0x00000000
    ensures W(BLOCK, 4) == 0x00000000 && W(BLOCK, 5) == 0x00000000
    ensures W(BLOCK, 6) == 0x00000000 && W(BLOCK, 7) == 0x00000000
    ensures W(BLOCK, 8) == 0x00000000 && W(BLOCK, 9) == 0x00000000
    ensures W(BLOCK, 10) == 0x00000000 && W(BLOCK, 11) == 0x00000000
    ensures W(BLOCK, 12) == 0x00000000 && W(BLOCK, 13) == 0x00000000
    ensures W(BLOCK, 14) == 0x00000000 && W(BLOCK, 15) == 0x00000018
  {
    hide W;
    WordFirst(0, 0x61, 0x62, 0x63, 0x80);
    WordFirst(15, 0, 0, 0, 0x18);
    hide Padding;
    forall t | 1 <= t < 15
      ensures W(BLOCK, t) == 0
    {
      NoWord(t);
    }
  }

  lemma Words16()
    ensures W(BLOCK, 16) == 0xc2c4c700 && W(BLOCK, 17) == 0x00000000
    ensures W(BLOCK, 18) == 0x00000030 && W(BLOCK, 19) == 0x85898e01
    ensures W(BLOCK, 20) == 0x00000000 && W(BLOCK, 21) == 0x00000060
    ensures W(BLOCK, 22) == 0x0b131c03 && W(BLOCK, 23) == 0x00000030
    ensures W(BLOCK, 24) == 0x85898ec1 && W(BLOCK, 25) == 0x16263806
    ensures W(BLOCK, 26) == 0x00000000 && W(BLOCK, 27) == 0x00000180
    ensures W(BLOCK, 28) == 0x2c4c700c && W(BLOCK, 29) == 0x000000f0
    ensures W(BLOCK, 30) == 0x93afb507 && W(BLOCK, 31) == 0x5898e048
  {
    hide W;
    Words0();
    WordIs(16, 0x00000000, 0x00000000, 0x00000000, 0x61626380, 0xc2c4c700);
    WordIs(17, 0x00000000, 0x00000000, 0x00000000, 0x00000000, 0x00000000);
    WordIs(18, 0x00000018, 0x00000000, 0x00000000, 0x00000000, 0x00000030);
    WordIs(19, 0xc2c4c700, 0x00000000, 0x00000000, 0x00000000, 0x85898e01);
    WordIs(20, 0x00000000, 0x00000000, 0x00000000, 0x00000000, 0x00000000);
    WordIs(21, 0x00000030, 0x00000000, 0x00000000, 0x00000000, 0x00000060);
    WordIs(22, 0x85898e01, 0x00000000, 0x00000000, 0x00000000, 0x0b131c03);
    WordIs(23, 0x00000000, 0x00000018, 0x00000000, 0x00000000, 0x00000030);
    WordIs(24, 0x00000060, 0xc2c4c700, 0x00000000, 0x00000000, 0x85898ec1);
    WordIs(25, 0x0b131c03, 0x00000000, 0x00000000, 0x00000000, 0x16263806);
    WordIs(26, 0x00000030, 0x00000030, 0x00000000, 0x00000000, 0x00000000);
    WordIs(27, 0x85898ec1, 0x85898e01, 0x00000000, 0x00000000, 0x00000180);
    WordIs(28, 0x16263806, 0x00000000, 0x00000000, 0x00000000, 0x2c4c700c);
    WordIs(29, 0x00000000, 0x00000060, 0x00000018, 0x00000000, 0x000000f0);
    WordIs(30, 0x00000180, 0x0b131c03, 0xc2c4c700, 0x00000000, 0x93afb507);
    WordIs(31, 0x2c4c700c, 0x00000030, 0x00000000, 0x00000018, 0x5898e048);
  }

  lemma Words32()
    ensures W(BLOCK, 32) == 0x8e9a9202 && W(BLOCK, 33) == 0x00000600
    ensures W(BLOCK, 34) == 0xb131c0f0 && W(BLOCK, 35) == 0x16263bc6
    ensures W(BLOCK, 36) == 0x4ebed41e && W(BLOCK, 37) == 0x626380a1
    ensures W(BLOCK, 38) == 0x16263806 && W(BLOCK, 39) == 0x000018c0
    ensures W(BLOCK, 40) == 0xd2e138c4 && W(BLOCK, 41) == 0x00000f00
    ensures W(BLOCK, 42) == 0x3afb5079 && W(BLOCK, 43) == 0x898e04e5
    ensures W(BLOCK, 44) == 0xe2ba3c2b && W(BLOCK, 45) == 0x000060c0
    ensures W(BLOCK, 46) == 0x053a37cd && W(BLOCK, 47) == 0x74458547
  {
    hide W;
    Words16();
    WordIs(32, 0x000000f0, 0x85898ec1, 0x00000030, 0xc2c4c700, 0x8e9a9202);
    WordIs(33, 0x93afb507, 0x16263806, 0x85898e01, 0x00000000, 0x00000600);
    WordIs(34, 0x5898e048, 0x00000000, 0x00000000, 0x00000030, 0xb131c0f0);
    WordIs(35, 0x8e9a9202, 0x00000180, 0x00000060, 0x85898e01, 0x16263bc6);
    WordIs(36, 0x00000600, 0x2c4c700c, 0x0b131c03, 0x00000000, 0x4ebed41e);
    WordIs(37, 0xb131c0f0, 0x000000f0, 0x00000030, 0x00000060, 0x626380a1);
    WordIs(38, 0x16263bc6, 0x93afb507, 0x85898ec1, 0x0b131c03, 0x16263806);
    WordIs(39, 0x4ebed41e, 0x5898e048, 0x16263806, 0x00000030, 0x000018c0);
    WordIs(40, 0x626380a1, 0x8e9a9202, 0x00000000, 0x85898ec1, 0xd2e138c4);
    WordIs(41, 0x16263806, 0x00000600, 0x00000180, 0x16263806, 0x00000f00);
    WordIs(42, 0x000018c0, 0xb131c0f0, 0x2c4c700c, 0x00000000, 0x3afb5079);
    WordIs(43, 0xd2e138c4, 0x16263bc6, 0x000000f0, 0x00000180, 0x898e04e5);
    WordIs(44, 0x00000f00, 0x4ebed41e, 0x93afb507, 0x2c4c700c, 0xe2ba3c2b);
    WordIs(45, 0x3afb5079, 0x626380a1, 0x5898e048, 0x000000f0, 0x000060c0);
    WordIs(46, 0x898e04e5, 0x16263806, 0x8e9a9202, 0x93afb507, 0x053a37cd);
    WordIs(47, 0xe2ba3c2b, 0x000018c0, 0x00000600, 0x5898e048, 0x74458547);
  }

  lemma Words48()
    ensures W(BLOCK, 48) == 0xda9415ed && W(BLOCK, 49) == 0x26380a16
    ensures W(BLOCK, 50) == 0x626383a1 && W(BLOCK, 51) == 0x4ebf54de
    ensures W(BLOCK, 52) == 0x3835b44b && W(BLOCK, 53) == 0x0000f600
    ensures W(BLOCK, 54) == 0x1e84c7a3 && W(BLOCK, 55) == 0x98e04d98
    ensures W(BLOCK, 56) == 0x651d16a0 && W(BLOCK, 57) == 0x62658ca1
    ensures W(BLOCK, 58) == 0x458544d6 && W(BLOCK, 59) == 0x44584cb7
    ensures W(BLOCK, 60) == 0x7ba06619 && W(BLOCK, 61) == 0x6380aea2
    ensures W(BLOCK, 62) == 0x0ae55269 && W(BLOCK, 63) == 0x627b49a1
  {
    hide W;
    Words32();
    WordIs(48, 0x000060c0, 0xd2e138c4, 0xb131c0f0, 0x8e9a9202, 0xda9415ed);
    WordIs(49, 0x053a37cd, 0x00000f00, 0x16263bc6, 0x00000600, 0x26380a16);
    WordIs(50, 0x74458547, 0x3afb5079, 0x4ebed41e, 0xb131c0f0, 0x626383a1);
    WordIs(51, 0xda9415ed, 0x898e04e5, 0x626380a1, 0x16263bc6, 0x4ebf54de);
    WordIs(52, 0x26380a16, 0xe2ba3c2b, 0x16263806, 0x4ebed41e, 0x3835b44b);
    WordIs(53, 0x626383a1, 0x000060c0, 0x000018c0, 0x626380a1, 0x0000f600);
    WordIs(54, 0x4ebf54de, 0x053a37cd, 0xd2e138c4, 0x16263806, 0x1e84c7a3);
    WordIs(55, 0x3835b44b, 0x74458547, 0x00000f00, 0x000018c0, 0x98e04d98);
    WordIs(56, 0x0000f600, 0xda9415ed, 0x3afb5079, 0xd2e138c4, 0x651d16a0);
    WordIs(57, 0x1e84c7a3, 0x26380a16, 0x898e04e5, 0x00000f00, 0x62658ca1);
    WordIs(58, 0x98e04d98, 0x626383a1, 0xe2ba3c2b, 0x3afb5079, 0x458544d6);
    WordIs(59, 0x651d16a0, 0x4ebf54de, 0x000060c0, 0x898e04e5, 0x44584cb7);
    WordIs(60, 0x62658ca1, 0x3835b44b, 0x053a37cd, 0xe2ba3c2b, 0x7ba06619);
    WordIs(61, 0x458544d6, 0x0000f600, 0x74458547, 0x000060c0, 0x6380aea2);
    WordIs(62, 0x44584cb7, 0x1e84c7a3, 0xda9415ed, 0x053a37cd, 0x0ae55269);
    WordIs(63, 0x7ba06619, 0x98e04d98, 0x26380a16, 0x74458547, 0x627b49a1);
  }

  lemma Words64()
    ensures W(BLOCK, 64) == 0x7cd45c9d && W(BLOCK, 65) == 0x000f0000
    ensures W(BLOCK, 66) == 0xfb50753a && W(BLOCK, 67) == 0xec6765e8
    ensures W(BLOCK, 68) == 0xba3c2be2 && W(BLOCK, 69) == 0x0060c000
    ensures W(BLOCK, 70) == 0x3a37cd05 && W(BLOCK, 71) == 0x458546f4
    ensures W(BLOCK, 72) == 0xb8599dd6 && W(BLOCK, 73) == 0x380a1a26
    ensures W(BLOCK, 74) == 0x01e02203 && W(BLOCK, 75) == 0xe7cc3456
    ensures W(BLOCK, 76) == 0xe6e60b69 && W(BLOCK, 77) == 0x00f60a00
    ensures W(BLOCK, 78) == 0x5795ef4f && W(BLOCK, 79) == 0x822e0879
  {
    hide W;
    Words48();
    WordIs(64, 0x6380aea2, 0x651d16a0, 0x626383a1, 0xda9415ed, 0x7cd45c9d);
    WordIs(65, 0x0ae55269, 0x62658ca1, 0x4ebf54de, 0x26380a16, 0x000f0000);
    WordIs(66, 0x627b49a1, 0x458544d6, 0x3835b44b, 0x626383a1, 0xfb50753a);
    WordIs(67, 0x7cd45c9d, 0x44584cb7, 0x0000f600, 0x4ebf54de, 0xec6765e8);
    WordIs(68, 0x000f0000, 0x7ba06619, 0x1e84c7a3, 0x3835b44b, 0xba3c2be2);
    WordIs(69, 0xfb50753a, 0x6380aea2, 0x98e04d98, 0x0000f600, 0x0060c000);
    WordIs(70, 0xec6765e8, 0x0ae55269, 0x651d16a0, 0x1e84c7a3, 0x3a37cd05);
    WordIs(71, 0xba3c2be2, 0x627b49a1, 0x62658ca1, 0x98e04d98, 0x458546f4);
    WordIs(72, 0x0060c000, 0x7cd45c9d, 0x458544d6, 0x651d16a0, 0xb8599dd6);
    WordIs(73, 0x3a37cd05, 0x000f0000, 0x44584cb7, 0x62658ca1, 0x380a1a26);
    WordIs(74, 0x458546f4, 0xfb50753a, 0x7ba06619, 0x458544d6, 0x01e02203);
    WordIs(75, 0xb8599dd6, 0xec6765e8, 0x6380aea2, 0x44584cb7, 0xe7cc3456);
    WordIs(76, 0x380a1a26, 0xba3c2be2, 0x0ae55269, 0x7ba06619, 0xe6e60b69);
    WordIs(77, 0x01e02203, 0x0060c000, 0x627b49a1, 0x6380aea2, 0x00f60a00);
    WordIs(78, 0xe7cc3456, 0x3a37cd05, 0x7cd45c9d, 0x0ae55269, 0x5795ef4f);
    WordIs(79, 0xe6e60b69, 0x458546f4, 0x000f0000, 0x627b49a1, 0x822e0879);
  }

  // ----- The rounds -----

  lemma RoundIs(t: nat, a: bv32, b: bv32, c: bv32, d: bv32, e: bv32, w: bv32, a': bv32)
    requires Rounds(BLOCK, IV, t) == Chain(a, b, c, d, e) && W(BLOCK, t) == w
    requires Sum(Rotl5(a), F(t, b, c, d), e, K(t), w) == a'
    ensures Rounds(BLOCK, IV, t + 1) == Chain(a', a, Rotl30(b), c, d)
  {
    hide W, F, K, Rotl5, Rotl30, Sum;
  }

  lemma Rounds0()
    ensures Rounds(BLOCK, IV, 10) == Chain(0x8351f929, 0x4b6ae328, 0x27a301f5, 0x664f8c30, 0x0ff1f290)
  {
    NoRounds();
    Words0();
    hide W, Rounds;
    RoundIs(0, 0x67452301, 0xefcdab89, 0x98badcfe, 0x10325476, 0xc3d2e1f0, 0x61626380, 0x0116fc33);
    RoundIs(1, 0x0116fc33, 0x67452301, 0x7bf36ae2, 0x98badcfe, 0x10325476, 0x00000000, 0x8990536d);
    RoundIs(2, 0x8990536d, 0x0116fc33, 0x59d148c0, 0x7bf36ae2, 0x98badcfe, 0x00000000, 0xa1390f08);
    RoundIs(3, 0xa1390f08, 0x8990536d, 0xc045bf0c, 0x59d148c0, 0x7bf36ae2, 0x00000000, 0xcdd8e11b);
    RoundIs(4, 0xcdd8e11b, 0xa1390f08, 0x626414db, 0xc045bf0c, 0x59d148c0, 0x00000000, 0xcfd499de);
    RoundIs(5, 0xcfd499de, 0xcdd8e11b, 0x284e43c2, 0x626414db, 0xc045bf0c, 0x00000000, 0x3fc7ca40);
    RoundIs(6, 0x3fc7ca40, 0xcfd499de, 0xf3763846, 0x284e43c2, 0x626414db, 0x00000000, 0x993e30c1);
    RoundIs(7, 0x993e30c1, 0x3fc7ca40, 0xb3f52677, 0xf3763846, 0x284e43c2, 0x00000000, 0x9e8c07d4);
    RoundIs(8, 0x9e8c07d4, 0x993e30c1, 0x0ff1f290, 0xb3f52677, 0xf3763846, 0x00000000, 0x4b6ae328);
    RoundIs(9, 0x4b6ae328, 0x9e8c07d4, 0x664f8c30, 0x0ff1f290, 0xb3f52677, 0x00000000, 0x8351f929);
  }

  lemma Rounds10()
    ensures Rounds(BLOCK, IV, 20) == Chain(0xfd9e1d7d, 0xdc64901d, 0x20aa99ca, 0xd3a49608, 0xc82f758b)
  {
    Rounds0();
    Words0();
    Words16();
    hide W, Rounds;
    RoundIs(10, 0x8351f929, 0x4b6ae328, 0x27a301f5, 0x664f8c30, 0x0ff1f290, 0x00000000, 0xfbda9e89);
    RoundIs(11, 0xfbda9e89, 0x8351f929, 0x12dab8ca, 0x27a301f5, 0x664f8c30, 0x00000000, 0x63188fe4);
    RoundIs(12, 0x63188fe4, 0xfbda9e89, 0x60d47e4a, 0x12dab8ca, 0x27a301f5, 0x00000000, 0x4607b664);
    RoundIs(13, 0x4607b664, 0x63188fe4, 0x7ef6a7a2, 0x60d47e4a, 0x12dab8ca, 0x00000000, 0x9128f695);
    RoundIs(14, 0x9128f695, 0x4607b664, 0x18c623f9, 0x7ef6a7a2, 0x60d47e4a, 0x00000000, 0x196bee77);
    RoundIs(15, 0x196bee77, 0x9128f695, 0x1181ed99, 0x18c623f9, 0x7ef6a7a2, 0x00000018, 0x20bdd62f);
    RoundIs(16, 0x20bdd62f, 0x196bee77, 0x644a3da5, 0x1181ed99, 0x18c623f9, 0xc2c4c700, 0x4e925823);
    RoundIs(17, 0x4e925823, 0x20bdd62f, 0xc65afb9d, 0x644a3da5, 0x1181ed99, 0x00000000, 0x82aa6728);
    RoundIs(18, 0x82aa6728, 0x4e925823, 0xc82f758b, 0xc65afb9d, 0x644a3da5, 0x00000030, 0xdc64901d);
    RoundIs(19, 0xdc64901d, 0x82aa6728, 0xd3a49608, 0xc82f758b, 0xc65afb9d, 0x85898e01, 0xfd9e1d7d);
  }

  lemma Rounds20()
    ensures Rounds(BLOCK, IV, 30) == Chain(0xc5fbaf5d, 0x8370b52e, 0xd2aa1365, 0x6f8d7ef5, 0x12104ee9)
  {
    Rounds10();
    Words16();
    hide W, Rounds;
    RoundIs(20, 0xfd9e1d7d, 0xdc64901d, 0x20aa99ca, 0xd3a49608, 0xc82f758b, 0x00000000, 0x1a37b0ca);
    RoundIs(21, 0x1a37b0ca, 0xfd9e1d7d, 0x77192407, 0x20aa99ca, 0xd3a49608, 0x00000060, 0x33a23bfc);
    RoundIs(22, 0x33a23bfc, 0x1a37b0ca, 0x7f67875f, 0x77192407, 0x20aa99ca, 0x0b131c03, 0x21283486);
    RoundIs(23, 0x21283486, 0x33a23bfc, 0x868dec32, 0x7f67875f, 0x77192407, 0x00000030, 0xd541f12d);
    RoundIs(24, 0xd541f12d, 0x21283486, 0x0ce88eff, 0x868dec32, 0x7f67875f, 0x85898ec1, 0xc7567dc6);
    RoundIs(25, 0xc7567dc6, 0xd541f12d, 0x884a0d21, 0x0ce88eff, 0x868dec32, 0x16263806, 0x48413ba4);
    RoundIs(26, 0x48413ba4, 0xc7567dc6, 0x75507c4b, 0x884a0d21, 0x0ce88eff, 0x00000000, 0xbe35fbd5);
    RoundIs(27, 0xbe35fbd5, 0x48413ba4, 0xb1d59f71, 0x75507c4b, 0x884a0d21, 0x00000180, 0x4aa84d97);
    RoundIs(28, 0x4aa84d97, 0xbe35fbd5, 0x12104ee9, 0xb1d59f71, 0x75507c4b, 0x2c4c700c, 0x8370b52e);
    RoundIs(29, 0x8370b52e, 0x4aa84d97, 0x6f8d7ef5, 0x12104ee9, 0xb1d59f71, 0x000000f0, 0xc5fbaf5d);
  }

  lemma Rounds30()
    ensures Rounds(BLOCK, IV, 40) == Chain(0x32de1cba, 0x4c986405, 0xf718e5cf, 0x03d447f6, 0xf72eec32)
  {
    Rounds20();
    Words16();
    Words32();
    hide W, Rounds;
    RoundIs(30, 0xc5fbaf5d, 0x8370b52e, 0xd2aa1365, 0x6f8d7ef5, 0x12104ee9, 0x93afb507, 0x1267b407);
    RoundIs(31, 0x1267b407, 0xc5fbaf5d, 0xa0dc2d4b, 0xd2aa1365, 0x6f8d7ef5, 0x5898e048, 0x3b845d33);
    RoundIs(32, 0x3b845d33, 0x1267b407, 0x717eebd7, 0xa0dc2d4b, 0xd2aa1365, 0x8e9a9202, 0x046faa0a);
    RoundIs(33, 0x046faa0a, 0x3b845d33, 0xc499ed01, 0x717eebd7, 0xa0dc2d4b, 0x00000600, 0x2c0ebc11);
    RoundIs(34, 0x2c0ebc11, 0x046faa0a, 0xcee1174c, 0xc499ed01, 0x717eebd7, 0xb131c0f0, 0x21796ad4);
    RoundIs(35, 0x21796ad4, 0x2c0ebc11, 0x811bea82, 0xcee1174c, 0xc499ed01, 0x16263bc6, 0xdcbbb0cb);
    RoundIs(36, 0xdcbbb0cb, 0x21796ad4, 0x4b03af04, 0x811bea82, 0xcee1174c, 0x4ebed41e, 0x0f511fd8);
    RoundIs(37, 0x0f511fd8, 0xdcbbb0cb, 0x085e5ab5, 0x4b03af04, 0x811bea82, 0x626380a1, 0xdc63973f);
    RoundIs(38, 0xdc63973f, 0x0f511fd8, 0xf72eec32, 0x085e5ab5, 0x4b03af04, 0x16263806, 0x4c986405);
    RoundIs(39, 0x4c986405, 0xdc63973f, 0x03d447f6, 0xf72eec32, 0x085e5ab5, 0x000018c0, 0x32de1cba);
  }

  lemma Rounds40()
    ensures Rounds(BLOCK, IV, 50) == Chain(0x120731c5, 0xbaf39337, 0xafab40b2, 0x2806e11b, 0x8714787c)
  {
    Rounds30();
    Words32();
    Words48();
    hide W, Rounds;
    RoundIs(40, 0x32de1cba, 0x4c986405, 0xf718e5cf, 0x03d447f6, 0xf72eec32, 0xd2e138c4, 0xfc87dedf);
    RoundIs(41, 0xfc87dedf, 0x32de1cba, 0x53261901, 0xf718e5cf, 0x03d447f6, 0x00000f00, 0x970a0d5c);
    RoundIs(42, 0x970a0d5c, 0xfc87dedf, 0x8cb7872e, 0x53261901, 0xf718e5cf, 0x3afb5079, 0x7f193dc5);
    RoundIs(43, 0x7f193dc5, 0x970a0d5c, 0xff21f7b7, 0x8cb7872e, 0x53261901, 0x898e04e5, 0xee1b1aaf);
    RoundIs(44, 0xee1b1aaf, 0x7f193dc5, 0x25c28357, 0xff21f7b7, 0x8cb7872e, 0xe2ba3c2b, 0x40f28e09);
    RoundIs(45, 0x40f28e09, 0xee1b1aaf, 0x5fc64f71, 0x25c28357, 0xff21f7b7, 0x000060c0, 0x1c51e1f2);
    RoundIs(46, 0x1c51e1f2, 0x40f28e09, 0xfb86c6ab, 0x5fc64f71, 0x25c28357, 0x053a37cd, 0xa01b846c);
    RoundIs(47, 0xa01b846c, 0x1c51e1f2, 0x503ca382, 0xfb86c6ab, 0x5fc64f71, 0x74458547, 0xbead02ca);
    RoundIs(48, 0xbead02ca, 0xa01b846c, 0x8714787c, 0x503ca382, 0xfb86c6ab, 0xda9415ed, 0xbaf39337);
    RoundIs(49, 0xbaf39337, 0xbead02ca, 0x2806e11b, 0x8714787c, 0x503ca382, 0x26380a16, 0x120731c5);
  }

  lemma Rounds50()
    ensures Rounds(BLOCK, IV, 60) == Chain(0x3f52de5a, 0x09d785fd, 0x3498bfd4, 0xf211824f, 0xd79915ab)
  {
    Rounds40();
    Words48();
    hide W, Rounds;
    RoundIs(50, 0x120731c5, 0xbaf39337, 0xafab40b2, 0x2806e11b, 0x8714787c, 0x626383a1, 0x641db2ce);
    RoundIs(51, 0x641db2ce, 0x120731c5, 0xeebce4cd, 0xafab40b2, 0x2806e11b, 0x4ebf54de, 0x3847ad66);
    RoundIs(52, 0x3847ad66, 0x641db2ce, 0x4481cc71, 0xeebce4cd, 0xafab40b2, 0x3835b44b, 0xe490436d);
    RoundIs(53, 0xe490436d, 0x3847ad66, 0x99076cb3, 0x4481cc71, 0xeebce4cd, 0x0000f600, 0x27e9f1d8);
    RoundIs(54, 0x27e9f1d8, 0xe490436d, 0x8e11eb59, 0x99076cb3, 0x4481cc71, 0x1e84c7a3, 0x7b71f76d);
    RoundIs(55, 0x7b71f76d, 0x27e9f1d8, 0x792410db, 0x8e11eb59, 0x99076cb3, 0x98e04d98, 0x5e6456af);
    RoundIs(56, 0x5e6456af, 0x7b71f76d, 0x09fa7c76, 0x792410db, 0x8e11eb59, 0x651d16a0, 0xc846093f);
    RoundIs(57, 0xc846093f, 0x5e6456af, 0x5edc7ddb, 0x09fa7c76, 0x792410db, 0x62658ca1, 0xd262ff50);
    RoundIs(58, 0xd262ff50, 0xc846093f, 0xd79915ab, 0x5edc7ddb, 0x09fa7c76, 0x458544d6, 0x09d785fd);
    RoundIs(59, 0x09d785fd, 0xd262ff50, 0xf211824f, 0xd79915ab, 0x5edc7ddb, 0x44584cb7, 0x3f52de5a);
  }

  lemma Rounds60()
    ensures Rounds(BLOCK, IV, 70) == Chain(0x3f2588c2, 0x497093c0, 0xde37534a, 0x030f7cad, 0x4405957e)
  {
    Rounds50();
    Words48();
    Words64();
    hide W, Rounds;
    RoundIs(60, 0x3f52de5a, 0x09d785fd, 0x3498bfd4, 0xf211824f, 0xd79915ab, 0x7ba06619, 0xd756c147);
    RoundIs(61, 0xd756c147, 0x3f52de5a, 0x4275e17f, 0x3498bfd4, 0xf211824f, 0x6380aea2, 0x548c9cb2);
    RoundIs(62, 0x548c9cb2, 0xd756c147, 0x8fd4b796, 0x4275e17f, 0x3498bfd4, 0x0ae55269, 0xb66c020b);
    RoundIs(63, 0xb66c020b, 0x548c9cb2, 0xf5d5b051, 0x8fd4b796, 0x4275e17f, 0x627b49a1, 0x6b61c9e1);
    RoundIs(64, 0x6b61c9e1, 0xb66c020b, 0x9523272c, 0xf5d5b051, 0x8fd4b796, 0x7cd45c9d, 0x19dfa7ac);
    RoundIs(65, 0x19dfa7ac, 0x6b61c9e1, 0xed9b0082, 0x9523272c, 0xf5d5b051, 0x000f0000, 0x101655f9);
    RoundIs(66, 0x101655f9, 0x19dfa7ac, 0x5ad87278, 0xed9b0082, 0x9523272c, 0xfb50753a, 0x0c3df2b4);
    RoundIs(67, 0x0c3df2b4, 0x101655f9, 0x0677e9eb, 0x5ad87278, 0xed9b0082, 0xec6765e8, 0x78dd4d2b);
    RoundIs(68, 0x78dd4d2b, 0x0c3df2b4, 0x4405957e, 0x0677e9eb, 0x5ad87278, 0xba3c2be2, 0x497093c0);
    RoundIs(69, 0x497093c0, 0x78dd4d2b, 0x030f7cad, 0x4405957e, 0x0677e9eb, 0x0060c000, 0x3f2588c2);
  }

  lemma Rounds70()
    ensures Rounds(BLOCK, IV, 80) == Chain(0x42541b35, 0x5738d5e1, 0x21834873, 0x681e6df6, 0xd8fdf6ad)
  {
    Rounds60();
    Words64();
    hide W, Rounds;
    RoundIs(70, 0x3f2588c2, 0x497093c0, 0xde37534a, 0x030f7cad, 0x4405957e, 0x3a37cd05, 0xc199f8c7);
    RoundIs(71, 0xc199f8c7, 0x3f2588c2, 0x125c24f0, 0xde37534a, 0x030f7cad, 0x458546f4, 0x39859de7);
    RoundIs(72, 0x39859de7, 0xc199f8c7, 0x8fc96230, 0x125c24f0, 0xde37534a, 0xb8599dd6, 0xedb42de4);
    RoundIs(73, 0xedb42de4, 0x39859de7, 0xf0667e31, 0x8fc96230, 0x125c24f0, 0x380a1a26, 0x11793f6f);
    RoundIs(74, 0x11793f6f, 0xedb42de4, 0xce616779, 0xf0667e31, 0x8fc96230, 0x01e02203, 0x5ee76897);
    RoundIs(75, 0x5ee76897, 0x11793f6f, 0x3b6d0b79, 0xce616779, 0xf0667e31, 0xe7cc3456, 0x63f7dab7);
    RoundIs(76, 0x63f7dab7, 0x5ee76897, 0xc45e4fdb, 0x3b6d0b79, 0xce616779, 0xe6e60b69, 0xa079b7d9);
    RoundIs(77, 0xa079b7d9, 0x63f7dab7, 0xd7b9da25, 0xc45e4fdb, 0x3b6d0b79, 0x00f60a00, 0x860d21cc);
    RoundIs(78, 0x860d21cc, 0xa079b7d9, 0xd8fdf6ad, 0xd7b9da25, 0xc45e4fdb, 0x5795ef4f, 0x5738d5e1);
    RoundIs(79, 0x5738d5e1, 0x860d21cc, 0x681e6df6, 0xd8fdf6ad, 0xd7b9da25, 0x822e0879, 0x42541b35);
  }

  lemma NoRounds()
    ensures Rounds(BLOCK, IV, 0) == Chain(0x67452301, 0xefcdab89, 0x98badcfe, 0x10325476, 0xc3d2e1f0)
  {}

  // ----- The digest -----

  lemma BlockIs()
    ensures |BLOCK| == 64 && Padded(ABC, BigBytes(BitCount(3), 8)) == BLOCK
  {
    assert PadZeros(3) == 52 && BitCount(3) == 24;
    FewBytes();
    hide BigBytes, BitCount, PadZeros;
    ZerosBlock();
  }

  lemma FewBytes()
    ensures BigBytes(24, 8) == [0, 0, 0, 0, 0, 0, 0, 0x18]
  {
    NoBytes(7);
    BigBytesUnfold(24, 8);
  }

  lemma {:induction false} NoBytes(k: nat)
    ensures BigBytes(0, k) == Zeros(k) && |Zeros(k)| == k && forall i :: 0 <= i < k ==> Zeros(k)[i] == 0
  {
    if k > 0 {
      NoBytes(k - 1);
    }
  }

  lemma ZerosBlock()
    ensures ABC + [0x80] + Zeros(52) + [0, 0, 0, 0, 0, 0, 0, 0x18] == BLOCK
  {
    NoBytes(52);
    hide Zeros;
    var s := ABC + [0x80] + Zeros(52) + [0, 0, 0, 0, 0, 0, 0, 0x18];
    forall i | 0 <= i < 64
      ensures s[i] == BLOCK[i]
    {
      assert 4 <= i < 56 ==> s[i] == Zeros(52)[i - 4];
    }
  }

  lemma ChainIs()
    ensures Compress(IV, BLOCK) == Chain(0xa9993e36, 0x4706816a, 0xba3e2571, 0x7850c26c, 0x9cd0d89d)
  {
    Rounds70();
    BlockIs();
    hide Rounds;
  }

  /** The digest of "abc" is the one the standard gives. */
  lemma DigestExample()
    ensures Digest(ABC) == [0xA9, 0x99, 0x3E, 0x36, 0x47, 0x06, 0x81, 0x6A, 0xBA, 0x3E,
                            0x25, 0x71, 0x78, 0x50, 0xC2, 0x6C, 0x9C, 0xD0, 0xD8, 0x9D]
  {
    BlockIs();
    ChainIs();
    AbsorbShort(Compress, IV, BLOCK);
    hide Compress, Absorb, Padded, BigBytes;
    assert Digest(ABC) == ChainBytes(Compress(IV, BLOCK));
  }

  // ----- The constants -----

  /** The largest number whose square is not larger than 2^60 times `n`: 2^30 times the root of `n`. */
  predicate IsRoot(k: nat, n: nat) {
    k * k <= n * 0x1000_0000_0000_0000 < (k + 1) * (k + 1)
  }

  /** The four constants are the whole parts of 2^30 times the square roots of 2, 3, 5 and 10. */
  lemma ConstantsAreRoots()
    ensures K(0) as nat == 0x5A827999 && IsRoot(0x5A827999, 2) && K(20) as nat == 0x6ED9EBA1 && IsRoot(0x6ED9EBA1, 3)
    ensures K(40) as nat == 0x8F1BBCDC && IsRoot(0x8F1BBCDC, 5) && K(60) as nat == 0xCA62C1D6 && IsRoot(0xCA62C1D6, 10)
    ensures forall t: nat :: K(t) == K(if t < 20 then 0 else if t < 40 then 20 else if t < 60 then 40 else 60)
  {}

  /** A word, low byte first. */
  function LowFirst(x: bv32): Bytes {
    [WordByte(x, 3), WordByte(x, 2), WordByte(x, 1), WordByte(x, 0)]
  }

  /** The chaining value starts, low byte first, with the digits counted up, counted down, and interleaved. */
  lemma StartPattern()
    ensures LowFirst(IV.a) == [0x01, 0x23, 0x45, 0x67] && LowFirst(IV.b) == [0x89, 0xAB, 0xCD, 0xEF]
    ensures LowFirst(IV.c) == [0xFE, 0xDC, 0xBA, 0x98] && LowFirst(IV.d) == [0x76, 0x54, 0x32, 0x10]
    ensures LowFirst(IV.e) == [0xF0, 0xE1, 0xD2, 0xC3]
  {}
}
