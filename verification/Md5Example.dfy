/** An example of section A.5 of RFC 1321: the MD5 digest of the three bytes "abc", worked out step by step. */
module Md5Example {
  import opened HashStream
  import opened Md5
  import opened Md5Stream

  const ABC: Bytes := [0x61, 0x62, 0x63]

  /** The message padded to a block, and its words. */
  const BLOCK: Bytes := seq(64, i => Padding(i))

  function Padding(i: int): bv8 {
    if i == 0 then 0x61 else if i == 1 then 0x62 else if i == 2 then 0x63 else if i == 3 then 0x80
    else if i == 56 then 0x18 else 0
  }

  const WORDS: seq<bv32> := seq(16, k => Word(k))

  function Word(k: int): bv32 {
    if k == 0 then 0x80636261 else if k == 14 then 0x18 else 0
  }

  // ----- The steps -----

  lemma StepIs(t: nat, a: bv32, b: bv32, c: bv32, d: bv32, x: bv32, a': bv32)
    requires Steps(WORDS, IV, t) == State(a, b, c, d) && Word(Table(t).k) == x
    requires Stepped(a, b, Mix(t, b, c, d), x, Table(t).ac, Table(t).s) == a'
    ensures Steps(WORDS, IV, t + 1) == State(d, a', b, c)
  {
    hide Word, Mix, Table, Stepped;
  }

  lemma Steps0()
    ensures Steps(WORDS, IV, 8) == State(0xc73741ef, 0x928d99f6, 0x207dc67b, 0x8bac3051)
  {
    NoSteps();
    hide Steps;
    StepIs(0, 0x67452301, 0xefcdab89, 0x98badcfe, 0x10325476, 0x80636261, 0xd6d117b4);
    StepIs(1, 0x10325476, 0xd6d117b4, 0xefcdab89, 0x98badcfe, 0x00000000, 0x344a8432);
    StepIs(2, 0x98badcfe, 0x344a8432, 0xd6d117b4, 0xefcdab89, 0x00000000, 0x2f6fbd72);
    StepIs(3, 0xefcdab89, 0x2f6fbd72, 0x344a8432, 0xd6d117b4, 0x00000000, 0x7ad956f2);
    StepIs(4, 0xd6d117b4, 0x7ad956f2, 0x2f6fbd72, 0x344a8432, 0x00000000, 0xc73741ef);
    StepIs(5, 0x344a8432, 0xc73741ef, 0x7ad956f2, 0x2f6fbd72, 0x00000000, 0x8bac3051);
    StepIs(6, 0x2f6fbd72, 0x8bac3051, 0xc73741ef, 0x7ad956f2, 0x00000000, 0x207dc67b);
    StepIs(7, 0x7ad956f2, 0x207dc67b, 0x8bac3051, 0xc73741ef, 0x00000000, 0x928d99f6);
  }

  lemma Steps8()
    ensures Steps(WORDS, IV, 16) == State(0xdda9b9a6, 0x72aff2e0, 0xe396856b, 0xa1051895)
  {
    Steps0();
    hide Steps;
    StepIs(8, 0xc73741ef, 0x928d99f6, 0x207dc67b, 0x8bac3051, 0x00000000, 0x854b3712);
    StepIs(9, 0x8bac3051, 0x854b3712, 0x928d99f6, 0x207dc67b, 0x00000000, 0x74e2f284);
    StepIs(10, 0x207dc67b, 0x74e2f284, 0x854b3712, 0x928d99f6, 0x00000000, 0x3020401c);
    StepIs(11, 0x928d99f6, 0x3020401c, 0x74e2f284, 0x854b3712, 0x00000000, 0x5ed49596);
    StepIs(12, 0x854b3712, 0x5ed49596, 0x3020401c, 0x74e2f284, 0x00000000, 0xdda9b9a6);
    StepIs(13, 0x74e2f284, 0xdda9b9a6, 0x5ed49596, 0x3020401c, 0x00000000, 0xa1051895);
    StepIs(14, 0x3020401c, 0xa1051895, 0xdda9b9a6, 0x5ed49596, 0x00000018, 0xe396856b);
    StepIs(15, 0x5ed49596, 0xe396856b, 0xa1051895, 0xdda9b9a6, 0x00000000, 0x72aff2e0);
  }

  lemma Steps16()
    ensures Steps(WORDS, IV, 24) == State(0x59a8ffda, 0x47092c07, 0xabfc7920, 0x6d002f1e)
  {
    Steps8();
    hide Steps;
    StepIs(16, 0xdda9b9a6, 0x72aff2e0, 0xe396856b, 0xa1051895, 0x00000000, 0x3e9e9126);
    StepIs(17, 0xa1051895, 0x3e9e9126, 0x72aff2e0, 0xe396856b, 0x00000000, 0x4a1d804e);
    StepIs(18, 0xe396856b, 0x4a1d804e, 0x3e9e9126, 0x72aff2e0, 0x00000000, 0xe25e1652);
    StepIs(19, 0x72aff2e0, 0xe25e1652, 0x4a1d804e, 0x3e9e9126, 0x80636261, 0xb5b204e4);
    StepIs(20, 0x3e9e9126, 0xb5b204e4, 0xe25e1652, 0x4a1d804e, 0x00000000, 0x59a8ffda);
    StepIs(21, 0x4a1d804e, 0x59a8ffda, 0xb5b204e4, 0xe25e1652, 0x00000000, 0x6d002f1e);
    StepIs(22, 0xe25e1652, 0x6d002f1e, 0x59a8ffda, 0xb5b204e4, 0x00000000, 0xabfc7920);
    StepIs(23, 0xb5b204e4, 0xabfc7920, 0x6d002f1e, 0x59a8ffda, 0x00000000, 0x47092c07);
  }

  lemma Steps24()
    ensures Steps(WORDS, IV, 32) == State(0x790a77fb, 0x726342d3, 0xa62884aa, 0x9f47e4f8)
  {
    Steps16();
    hide Steps;
    StepIs(24, 0x59a8ffda, 0x47092c07, 0xabfc7920, 0x6d002f1e, 0x00000000, 0xb7f268cf);
    StepIs(25, 0x6d002f1e, 0xb7f268cf, 0x47092c07, 0xabfc7920, 0x00000018, 0x09388eff);
    StepIs(26, 0xabfc7920, 0x09388eff, 0xb7f268cf, 0x47092c07, 0x00000000, 0xfe1623b1);
    StepIs(27, 0x47092c07, 0xfe1623b1, 0x09388eff, 0xb7f268cf, 0x00000000, 0x786acb8f);
    StepIs(28, 0xb7f268cf, 0x786acb8f, 0xfe1623b1, 0x09388eff, 0x00000000, 0x790a77fb);
    StepIs(29, 0x09388eff, 0x790a77fb, 0x786acb8f, 0xfe1623b1, 0x00000000, 0x9f47e4f8);
    StepIs(30, 0xfe1623b1, 0x9f47e4f8, 0x790a77fb, 0x786acb8f, 0x00000000, 0xa62884aa);
    StepIs(31, 0x786acb8f, 0xa62884aa, 0x9f47e4f8, 0x790a77fb, 0x00000000, 0x726342d3);
  }

  lemma Steps32()
    ensures Steps(WORDS, IV, 40) == State(0x21b117b9, 0x5a2f5ea5, 0x3575227e, 0x6e7429d5)
  {
    Steps24();
    hide Steps;
    StepIs(32, 0x790a77fb, 0x726342d3, 0xa62884aa, 0x9f47e4f8, 0x00000000, 0xb3707ebf);
    StepIs(33, 0x9f47e4f8, 0xb3707ebf, 0x726342d3, 0xa62884aa, 0x00000000, 0x60127b2e);
    StepIs(34, 0xa62884aa, 0x60127b2e, 0xb3707ebf, 0x726342d3, 0x00000000, 0x8d212ff5);
    StepIs(35, 0x726342d3, 0x8d212ff5, 0x60127b2e, 0xb3707ebf, 0x00000018, 0x3b0875c7);
    StepIs(36, 0xb3707ebf, 0x3b0875c7, 0x8d212ff5, 0x60127b2e, 0x00000000, 0x21b117b9);
    StepIs(37, 0x60127b2e, 0x21b117b9, 0x3b0875c7, 0x8d212ff5, 0x00000000, 0x6e7429d5);
    StepIs(38, 0x8d212ff5, 0x6e7429d5, 0x21b117b9, 0x3b0875c7, 0x00000000, 0x3575227e);
    StepIs(39, 0x3b0875c7, 0x3575227e, 0x6e7429d5, 0x21b117b9, 0x00000000, 0x5a2f5ea5);
  }

  lemma Steps40()
    ensures Steps(WORDS, IV, 48) == State(0x7f2e507b, 0x7beb9700, 0x8fae6399, 0x99d9679d)
  {
    Steps32();
    hide Steps;
    StepIs(40, 0x21b117b9, 0x5a2f5ea5, 0x3575227e, 0x6e7429d5, 0x00000000, 0x11de1779);
    StepIs(41, 0x6e7429d5, 0x11de1779, 0x5a2f5ea5, 0x3575227e, 0x80636261, 0xfadcaa38);
    StepIs(42, 0x3575227e, 0xfadcaa38, 0x11de1779, 0x5a2f5ea5, 0x00000000, 0x31c465ca);
    StepIs(43, 0x5a2f5ea5, 0x31c465ca, 0xfadcaa38, 0x11de1779, 0x00000000, 0x4c6124f4);
    StepIs(44, 0x11de1779, 0x4c6124f4, 0x31c465ca, 0xfadcaa38, 0x00000000, 0x7f2e507b);
    StepIs(45, 0xfadcaa38, 0x7f2e507b, 0x4c6124f4, 0x31c465ca, 0x00000000, 0x99d9679d);
    StepIs(46, 0x31c465ca, 0x99d9679d, 0x7f2e507b, 0x4c6124f4, 0x00000000, 0x8fae6399);
    StepIs(47, 0x4c6124f4, 0x8fae6399, 0x99d9679d, 0x7f2e507b, 0x00000000, 0x7beb9700);
  }

  lemma Steps48()
    ensures Steps(WORDS, IV, 56) == State(0x06cc5e8a, 0x3bfa2c27, 0x7d632dd0, 0x5b0d97aa)
  {
    Steps40();
    hide Steps;
    StepIs(48, 0x7f2e507b, 0x7beb9700, 0x8fae6399, 0x99d9679d, 0x80636261, 0x7b201df8);
    StepIs(49, 0x99d9679d, 0x7b201df8, 0x7beb9700, 0x8fae6399, 0x00000000, 0xf4e8e96e);
    StepIs(50, 0x8fae6399, 0xf4e8e96e, 0x7b201df8, 0x7beb9700, 0x00000018, 0xb298cefd);
    StepIs(51, 0x7beb9700, 0xb298cefd, 0xf4e8e96e, 0x7b201df8, 0x00000000, 0x8bf025c4);
    StepIs(52, 0x7b201df8, 0x8bf025c4, 0xb298cefd, 0xf4e8e96e, 0x00000000, 0x06cc5e8a);
    StepIs(53, 0xf4e8e96e, 0x06cc5e8a, 0x8bf025c4, 0xb298cefd, 0x00000000, 0x5b0d97aa);
    StepIs(54, 0xb298cefd, 0x5b0d97aa, 0x06cc5e8a, 0x8bf025c4, 0x00000000, 0x7d632dd0);
    StepIs(55, 0x8bf025c4, 0x7d632dd0, 0x5b0d97aa, 0x06cc5e8a, 0x00000000, 0x3bfa2c27);
  }

  lemma Steps56()
    ensures Steps(WORDS, IV, 64) == State(0x310ade8f, 0xc08226b3, 0xe484b9d8, 0x624d8cb2)
  {
    Steps48();
    hide Steps;
    StepIs(56, 0x06cc5e8a, 0x3bfa2c27, 0x7d632dd0, 0x5b0d97aa, 0x00000000, 0x7f81cc35);
    StepIs(57, 0x5b0d97aa, 0x7f81cc35, 0x3bfa2c27, 0x7d632dd0, 0x00000000, 0x094454ab);
    StepIs(58, 0x7d632dd0, 0x094454ab, 0x7f81cc35, 0x3bfa2c27, 0x00000000, 0x4f9dbe3f);
    StepIs(59, 0x3bfa2c27, 0x4f9dbe3f, 0x094454ab, 0x7f81cc35, 0x00000000, 0x7327d604);
    StepIs(60, 0x7f81cc35, 0x7327d604, 0x4f9dbe3f, 0x094454ab, 0x00000000, 0x310ade8f);
    StepIs(61, 0x094454ab, 0x310ade8f, 0x7327d604, 0x4f9dbe3f, 0x00000000, 0x624d8cb2);
    StepIs(62, 0x4f9dbe3f, 0x624d8cb2, 0x310ade8f, 0x7327d604, 0x00000000, 0xe484b9d8);
    StepIs(63, 0x7327d604, 0xe484b9d8, 0x624d8cb2, 0x310ade8f, 0x00000000, 0xc08226b3);
  }

  lemma NoSteps()
    ensures Steps(WORDS, IV, 0) == State(0x67452301, 0xefcdab89, 0x98badcfe, 0x10325476)
  {}

  // ----- The digest -----

  lemma {:induction false} DecodedAt(s: Bytes, n: nat, i: nat)
    requires |s| == 4 * n && i < n
    ensures Decoded(s, n)[i] == Gathered(s[4 * i], s[4 * i + 1], s[4 * i + 2], s[4 * i + 3])
  {
    hide Gathered;
    if i < n - 1 {
      DecodedAt(s[..|s| - 4], n - 1, i);
    }
  }

  lemma WordsAre()
    ensures Decoded(BLOCK, 16) == WORDS
  {
    forall i | 0 <= i < 16
      ensures Decoded(BLOCK, 16)[i] == Word(i)
    {
      DecodedAt(BLOCK, 16, i);
      hide Decoded;
      GatheredWords();
    }
  }

  lemma GatheredWords()
    ensures Gathered(0x61, 0x62, 0x63, 0x80) == 0x80636261 && Gathered(0x18, 0, 0, 0) == 0x18
    ensures Gathered(0, 0, 0, 0) == 0
  {}

  lemma BlockIs()
    ensures |BLOCK| == 64 && Padded(ABC, LengthBytes(3)) == BLOCK
  {
    assert PadZeros(3) == 52 && BitCount(3) == 24;
    LengthIs();
    hide LengthBytes, BitCount, PadZeros;
    ZerosBlock();
  }

  lemma LengthIs()
    ensures LengthBytes(3) == [0x18, 0, 0, 0, 0, 0, 0, 0]
  {
    assert BitCount(3) == 24;
    EncodedSnoc([], 0x18);
    EncodedSnoc([0x18], 0);
    hide BitCount;
    assert Words(24, 0) == [0x18] + [0] && [] + [0x18] == [0x18];
  }

  lemma {:induction false} ZerosAre(k: nat)
    ensures |Zeros(k)| == k && forall i :: 0 <= i < k ==> Zeros(k)[i] == 0
  {
    if k > 0 {
      ZerosAre(k - 1);
    }
  }

  lemma ZerosBlock()
    ensures ABC + [0x80] + Zeros(52) + [0x18, 0, 0, 0, 0, 0, 0, 0] == BLOCK
  {
    ZerosAre(52);
    hide Zeros;
    var s := ABC + [0x80] + Zeros(52) + [0x18, 0, 0, 0, 0, 0, 0, 0];
    forall i | 0 <= i < 64
      ensures s[i] == BLOCK[i]
    {
      assert 4 <= i < 56 ==> s[i] == Zeros(52)[i - 4];
    }
  }

  lemma StateIs()
    ensures Compress(IV, BLOCK) == State(0x98500190, 0xb04fd23c, 0x7d3f96d6, 0x727fe128)
  {
    Steps56();
    BlockIs();
    WordsAre();
    hide Steps, Decoded;
  }

  lemma StateBytesAre()
    ensures StateBytes(State(0x98500190, 0xb04fd23c, 0x7d3f96d6, 0x727fe128)) == [
      0x90, 0x01, 0x50, 0x98, 0x3c, 0xd2, 0x4f, 0xb0,
      0xd6, 0x96, 0x3f, 0x7d, 0x28, 0xe1, 0x7f, 0x72]
  {
    var a, b, c, d := 0x98500190, 0xb04fd23c, 0x7d3f96d6, 0x727fe128;
    EncodedSnoc([], a);
    EncodedSnoc([a], b);
    EncodedSnoc([a, b], c);
    EncodedSnoc([a, b, c], d);
    assert [a, b, c, d] == [a, b, c] + [d] && [a, b, c] == [a, b] + [c] && [a, b] == [a] + [b] && [a] == [] + [a];
  }

  /** The digest of "abc" is the one the RFC gives. */
  lemma DigestExample()
    ensures Digest(ABC) == [
      0x90, 0x01, 0x50, 0x98, 0x3c, 0xd2, 0x4f, 0xb0,
      0xd6, 0x96, 0x3f, 0x7d, 0x28, 0xe1, 0x7f, 0x72]
  {
    BlockIs();
    StateIs();
    StateBytesAre();
    AbsorbShort(Compress, IV, BLOCK);
    hide Compress, Absorb, Padded, LengthBytes, StateBytes;
    assert Digest(ABC) == StateBytes(Compress(IV, BLOCK));
  }
}
