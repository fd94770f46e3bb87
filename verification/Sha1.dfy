/** SHA-1: the computation of FIPS 180-4, section 6.1.2, and the program's, which keeps 16 words of the
    message schedule in place, renames the working variables instead of moving them, and rewrites two
    of the logical functions. */
module Sha1 {
  import opened HashStream

  datatype Chain = Chain(a: bv32, b: bv32, c: bv32, d: bv32, e: bv32)

  // ----- The standard -----

  function Rotl1(x: bv32): bv32 { (x << 1) | (x >> 31) }

  function Rotl5(x: bv32): bv32 { (x << 5) | (x >> 27) }

  function Rotl30(x: bv32): bv32 { (x << 30) | (x >> 2) }

  function Ch(x: bv32, y: bv32, z: bv32): bv32 { (x & y) ^ (!x & z) }

  function Parity(x: bv32, y: bv32, z: bv32): bv32 { x ^ y ^ z }

  function Maj(x: bv32, y: bv32, z: bv32): bv32 { (x & y) ^ (x & z) ^ (y & z) }

  function F(t: nat, x: bv32, y: bv32, z: bv32): bv32 {
    if t < 20 then Ch(x, y, z) else if t < 40 then Parity(x, y, z) else if t < 60 then Maj(x, y, z) else Parity(x, y, z)
  }

  function K(t: nat): bv32 {
    if t < 20 then 0x5A827999 else if t < 40 then 0x6ED9EBA1 else if t < 60 then 0x8F1BBCDC else 0xCA62C1D6
  }

  /** The `t`-th word of a block, most significant byte first. */
  function BigEndian(block: Bytes, t: nat): bv32
    requires |block| == 64 && t < 16
  {
    ((block[4 * t] as bv32) << 24) | ((block[4 * t + 1] as bv32) << 16)
    | ((block[4 * t + 2] as bv32) << 8) | (block[4 * t + 3] as bv32)
  }

  /** The message schedule. */
  function W(block: Bytes, t: nat): bv32
    requires |block| == 64
  {
    if t < 16 then BigEndian(block, t)
    else Rotl1(W(block, t - 3) ^ W(block, t - 8) ^ W(block, t - 14) ^ W(block, t - 16))
  }

  /** The sum of a round, in the order of the standard. */
  function Sum(r: bv32, f: bv32, e: bv32, k: bv32, w: bv32): bv32 { r + f + e + k + w }

  function Round(t: nat, w: bv32, s: Chain): Chain {
    Chain(Sum(Rotl5(s.a), F(t, s.b, s.c, s.d), s.e, K(t), w), s.a, Rotl30(s.b), s.c, s.d)
  }

  /** The working variables after `t` rounds. */
  function Rounds(block: Bytes, h: Chain, t: nat): Chain
    requires |block| == 64
  {
    if t == 0 then h else Round(t - 1, W(block, t - 1), Rounds(block, h, t - 1))
  }

  function Add(h: Chain, s: Chain): Chain {
    Chain(h.a + s.a, h.b + s.b, h.c + s.c, h.d + s.d, h.e + s.e)
  }

  function Compress(h: Chain, block: Bytes): Chain {
    if |block| == 64 then Add(h, Rounds(block, h, 80)) else h
  }

  const IV := Chain(0x67452301, 0xEFCDAB89, 0x98BADCFE, 0x10325476, 0xC3D2E1F0)

  // ----- The program's rounds -----

  function F0(x: bv32, y: bv32, z: bv32): bv32 { (x & (y ^ z)) ^ z }

  function F1(x: bv32, y: bv32, z: bv32): bv32 { x ^ y ^ z }

  function F2(x: bv32, y: bv32, z: bv32): bv32 { ((x | y) & z) | (x & y) }

  lemma Choice(x: bv32, y: bv32, z: bv32)
    ensures (x & (y ^ z)) ^ z == (x & y) ^ (!x & z)
  {}

  lemma Majority(x: bv32, y: bv32, z: bv32)
    ensures ((x | y) & z) | (x & y) == (x & y) ^ (x & z) ^ (y & z)
  {}

  lemma F0IsCh(x: bv32, y: bv32, z: bv32)
    ensures F0(x, y, z) == Ch(x, y, z)
  {
    Choice(x, y, z);
  }

  lemma F1IsParity(x: bv32, y: bv32, z: bv32)
    ensures F1(x, y, z) == Parity(x, y, z)
  {}

  lemma F2IsMaj(x: bv32, y: bv32, z: bv32)
    ensures F2(x, y, z) == Maj(x, y, z)
  {
    Majority(x, y, z);
  }

  /** A word as it lies in memory, least significant byte first, and with its bytes swapped. */
  function LittleEndian(block: Bytes, t: nat): bv32
    requires |block| == 64 && t < 16
  {
    (block[4 * t] as bv32) | ((block[4 * t + 1] as bv32) << 8)
    | ((block[4 * t + 2] as bv32) << 16) | ((block[4 * t + 3] as bv32) << 24)
  }

  function Swap(x: bv32): bv32 {
    ((x & 0xff000000) >> 24) | ((x & 0x00ff0000) >> 8) | ((x & 0x0000ff00) << 8) | ((x & 0x000000ff) << 24)
  }

  lemma SwapBytes(p: bv32, q: bv32, r: bv32, s: bv32)
    requires p < 0x100 && q < 0x100 && r < 0x100 && s < 0x100
    ensures Swap(p | (q << 8) | (r << 16) | (s << 24)) == (p << 24) | (q << 16) | (r << 8) | s
  {}

  lemma SwapIsBigEndian(block: Bytes, t: nat)
    requires |block| == 64 && t < 16
    ensures Swap(LittleEndian(block, t)) == BigEndian(block, t)
  {
    SwapBytes(block[4 * t] as bv32, block[4 * t + 1] as bv32, block[4 * t + 2] as bv32, block[4 * t + 3] as bv32);
  }

  // ----- The schedule in place -----

  /** Before round `t` the 16 words in the buffer: at first, words of the block, swapped up to `t`; then
      the last 16 words of the schedule, each in the place its index has modulo 16. */
  predicate Window(buf: seq<bv32>, block: Bytes, t: nat)
    requires |block| == 64
  {
    && |buf| == 16
    && (t < 16 ==> (forall k :: 0 <= k < t ==> buf[k] == W(block, k))
                   && forall k :: t <= k < 16 ==> buf[k] == LittleEndian(block, k))
    && (t >= 16 ==> forall k :: t - 16 <= k < t ==> buf[k % 16] == W(block, k))
  }

  method B0(i: nat, buf: array<bv32>, ghost block: Bytes) returns (w: bv32)
    requires |block| == 64 && i < 16 && Window(buf[..], block, i)
    modifies buf
    ensures Window(buf[..], block, i + 1) && w == W(block, i)
  {
    SwapIsBigEndian(block, i);
    hide Swap, LittleEndian, BigEndian;
    buf[i] := Swap(buf[i]);
    w := buf[i];
  }

  /** From four words of the window, the next word of the schedule. */
  lemma NextWord(words: seq<bv32>, block: Bytes, t: nat)
    requires |block| == 64 && 16 <= t && Window(words, block, t)
    ensures Rotl1(words[t % 16] ^ words[(t - 14) % 16] ^ words[(t - 8) % 16] ^ words[(t - 3) % 16]) == W(block, t)
  {
    assert t % 16 == (t - 16) % 16;
    assert words[(t - 16) % 16] == W(block, t - 16);
    assert words[(t - 14) % 16] == W(block, t - 14);
    assert words[(t - 8) % 16] == W(block, t - 8);
    assert words[(t - 3) % 16] == W(block, t - 3);
    hide Rotl1, BigEndian, Window;
    Reorder(W(block, t - 16), W(block, t - 14), W(block, t - 8), W(block, t - 3));
  }

  /** It replaces the oldest. */
  lemma WindowSlides(words: seq<bv32>, block: Bytes, t: nat)
    requires |block| == 64 && 16 <= t && Window(words, block, t)
    ensures Window(words[t % 16 := W(block, t)], block, t + 1)
  {
    hide W, LittleEndian;
    var words' := words[t % 16 := W(block, t)];
    forall k | t + 1 - 16 <= k < t + 1
      ensures words'[k % 16] == W(block, k)
    {
      if k < t {
        assert k % 16 != t % 16;
      }
    }
  }

  method B1(i: nat, buf: array<bv32>, ghost block: Bytes) returns (w: bv32)
    requires |block| == 64 && 16 <= i && Window(buf[..], block, i)
    modifies buf
    ensures Window(buf[..], block, i + 1) && w == W(block, i)
  {
    NextWord(buf[..], block, i);
    WindowSlides(buf[..], block, i);
    hide Rotl1, W, LittleEndian;
    assert |buf[..]| == 16;
    hide Window;
    buf[i % 16] := Rotl1(buf[i % 16] ^ buf[(i - 14) % 16] ^ buf[(i - 8) % 16] ^ buf[(i - 3) % 16]);
    w := buf[i % 16];
    assert buf[..] == old(buf[..])[i % 16 := W(block, i)];
  }

  lemma Reorder(p: bv32, q: bv32, r: bv32, s: bv32)
    ensures p ^ q ^ r ^ s == s ^ r ^ q ^ p
  {}

  // ----- The rounds with renamed variables -----

  /** The sum of a round in the program's order. */
  function Total(e: bv32, f: bv32, w: bv32, k: bv32, r: bv32): bv32 { e + f + w + k + r }

  lemma Commute(e: bv32, f: bv32, w: bv32, k: bv32, r: bv32)
    ensures e + f + w + k + r == r + f + e + k + w
  {}

  lemma SumOrder(e: bv32, f: bv32, w: bv32, k: bv32, r: bv32)
    ensures Total(e, f, w, k, r) == Sum(r, f, e, k, w)
  {
    Commute(e, f, w, k, r);
  }

  /** One round on variables in the roles a, b, c, d, e: the new e is the next round's a. */
  lemma RoundRenamed(t: nat, block: Bytes, h: Chain, a: bv32, b: bv32, c: bv32, d: bv32, e: bv32, f: bv32, k: bv32)
    requires |block| == 64 && Rounds(block, h, t) == Chain(a, b, c, d, e)
    requires f == F(t, b, c, d) && k == K(t)
    ensures Rounds(block, h, t + 1) == Chain(Total(e, f, W(block, t), k, Rotl5(a)), a, Rotl30(b), c, d)
  {
    SumOrder(e, f, W(block, t), k, Rotl5(a));
    hide Sum, Total, F, K, Rotl5, Rotl30, W;
  }

  method R0(a: bv32, b: bv32, c: bv32, d: bv32, e: bv32, i: nat, buf: array<bv32>, ghost block: Bytes, ghost h: Chain)
    returns (e': bv32, b': bv32)
    requires |block| == 64 && i < 16 && Window(buf[..], block, i) && Rounds(block, h, i) == Chain(a, b, c, d, e)
    modifies buf
    ensures Window(buf[..], block, i + 1) && Rounds(block, h, i + 1) == Chain(e', a, b', c, d)
  {
    F0IsCh(b, c, d);
    hide Window, Rounds, F0, Ch, Rotl5, Rotl30, W, Total;
    var w := B0(i, buf, block);
    e' := Total(e, F0(b, c, d), w, 0x5A827999, Rotl5(a));
    b' := Rotl30(b);
    RoundRenamed(i, block, h, a, b, c, d, e, F0(b, c, d), 0x5A827999);
  }

  method R1(a: bv32, b: bv32, c: bv32, d: bv32, e: bv32, i: nat, buf: array<bv32>, ghost block: Bytes, ghost h: Chain)
    returns (e': bv32, b': bv32)
    requires |block| == 64 && 16 <= i < 20 && Window(buf[..], block, i) && Rounds(block, h, i) == Chain(a, b, c, d, e)
    modifies buf
    ensures Window(buf[..], block, i + 1) && Rounds(block, h, i + 1) == Chain(e', a, b', c, d)
  {
    F0IsCh(b, c, d);
    hide Window, Rounds, F0, Ch, Rotl5, Rotl30, W, Total;
    var w := B1(i, buf, block);
    e' := Total(e, F0(b, c, d), w, 0x5A827999, Rotl5(a));
    b' := Rotl30(b);
    RoundRenamed(i, block, h, a, b, c, d, e, F0(b, c, d), 0x5A827999);
  }

  method R2(a: bv32, b: bv32, c: bv32, d: bv32, e: bv32, i: nat, buf: array<bv32>, ghost block: Bytes, ghost h: Chain)
    returns (e': bv32, b': bv32)
    requires |block| == 64 && 20 <= i < 40 && Window(buf[..], block, i) && Rounds(block, h, i) == Chain(a, b, c, d, e)
    modifies buf
    ensures Window(buf[..], block, i + 1) && Rounds(block, h, i + 1) == Chain(e', a, b', c, d)
  {
    F1IsParity(b, c, d);
    hide Window, Rounds, F1, Parity, Rotl5, Rotl30, W, Total;
    var w := B1(i, buf, block);
    e' := Total(e, F1(b, c, d), w, 0x6ED9EBA1, Rotl5(a));
    b' := Rotl30(b);
    RoundRenamed(i, block, h, a, b, c, d, e, F1(b, c, d), 0x6ED9EBA1);
  }

  method R3(a: bv32, b: bv32, c: bv32, d: bv32, e: bv32, i: nat, buf: array<bv32>, ghost block: Bytes, ghost h: Chain)
    returns (e': bv32, b': bv32)
    requires |block| == 64 && 40 <= i < 60 && Window(buf[..], block, i) && Rounds(block, h, i) == Chain(a, b, c, d, e)
    modifies buf
    ensures Window(buf[..], block, i + 1) && Rounds(block, h, i + 1) == Chain(e', a, b', c, d)
  {
    F2IsMaj(b, c, d);
    hide Window, Rounds, F2, Maj, Rotl5, Rotl30, W, Total;
    var w := B1(i, buf, block);
    e' := Total(e, F2(b, c, d), w, 0x8F1BBCDC, Rotl5(a));
    b' := Rotl30(b);
    RoundRenamed(i, block, h, a, b, c, d, e, F2(b, c, d), 0x8F1BBCDC);
  }

  method R4(a: bv32, b: bv32, c: bv32, d: bv32, e: bv32, i: nat, buf: array<bv32>, ghost block: Bytes, ghost h: Chain)
    returns (e': bv32, b': bv32)
    requires |block| == 64 && 60 <= i < 80 && Window(buf[..], block, i) && Rounds(block, h, i) == Chain(a, b, c, d, e)
    modifies buf
    ensures Window(buf[..], block, i + 1) && Rounds(block, h, i + 1) == Chain(e', a, b', c, d)
  {
    F1IsParity(b, c, d);
    hide Window, Rounds, F1, Parity, Rotl5, Rotl30, W, Total;
    var w := B1(i, buf, block);
    e' := Total(e, F1(b, c, d), w, 0xCA62C1D6, Rotl5(a));
    b' := Rotl30(b);
    RoundRenamed(i, block, h, a, b, c, d, e, F1(b, c, d), 0xCA62C1D6);
  }

  /** Rounds 0 to 19. */
  method Rounds0(a0: bv32, b0: bv32, c0: bv32, d0: bv32, e0: bv32, buf: array<bv32>,
      ghost block: Bytes, ghost h: Chain)
    returns (a: bv32, b: bv32, c: bv32, d: bv32, e: bv32)
    requires |block| == 64 && Window(buf[..], block, 0) && Rounds(block, h, 0) == Chain(a0, b0, c0, d0, e0)
    modifies buf
    ensures Window(buf[..], block, 20) && Rounds(block, h, 20) == Chain(a, b, c, d, e)
  {
    hide Window, Rounds;
    a, b, c, d, e := a0, b0, c0, d0, e0;
    e, b := R0(a, b, c, d, e, 0, buf, block, h);
    d, a := R0(e, a, b, c, d, 1, buf, block, h);
    c, e := R0(d, e, a, b, c, 2, buf, block, h);
    b, d := R0(c, d, e, a, b, 3, buf, block, h);
    a, c := R0(b, c, d, e, a, 4, buf, block, h);
    e, b := R0(a, b, c, d, e, 5, buf, block, h);
    d, a := R0(e, a, b, c, d, 6, buf, block, h);
    c, e := R0(d, e, a, b, c, 7, buf, block, h);
    b, d := R0(c, d, e, a, b, 8, buf, block, h);
    a, c := R0(b, c, d, e, a, 9, buf, block, h);
    e, b := R0(a, b, c, d, e, 10, buf, block, h);
    d, a := R0(e, a, b, c, d, 11, buf, block, h);
    c, e := R0(d, e, a, b, c, 12, buf, block, h);
    b, d := R0(c, d, e, a, b, 13, buf, block, h);
    a, c := R0(b, c, d, e, a, 14, buf, block, h);
    e, b := R0(a, b, c, d, e, 15, buf, block, h);
    d, a := R1(e, a, b, c, d, 16, buf, block, h);
    c, e := R1(d, e, a, b, c, 17, buf, block, h);
    b, d := R1(c, d, e, a, b, 18, buf, block, h);
    a, c := R1(b, c, d, e, a, 19, buf, block, h);
  }

  /** Rounds 20 to 39. */
  method Rounds20(a0: bv32, b0: bv32, c0: bv32, d0: bv32, e0: bv32, buf: array<bv32>,
      ghost block: Bytes, ghost h: Chain)
    returns (a: bv32, b: bv32, c: bv32, d: bv32, e: bv32)
    requires |block| == 64 && Window(buf[..], block, 20) && Rounds(block, h, 20) == Chain(a0, b0, c0, d0, e0)
    modifies buf
    ensures Window(buf[..], block, 40) && Rounds(block, h, 40) == Chain(a, b, c, d, e)
  {
    hide Window, Rounds;
    a, b, c, d, e := a0, b0, c0, d0, e0;
    e, b := R2(a, b, c, d, e, 20, buf, block, h);
    d, a := R2(e, a, b, c, d, 21, buf, block, h);
    c, e := R2(d, e, a, b, c, 22, buf, block, h);
    b, d := R2(c, d, e, a, b, 23, buf, block, h);
    a, c := R2(b, c, d, e, a, 24, buf, block, h);
    e, b := R2(a, b, c, d, e, 25, buf, block, h);
    d, a := R2(e, a, b, c, d, 26, buf, block, h);
    c, e := R2(d, e, a, b, c, 27, buf, block, h);
    b, d := R2(c, d, e, a, b, 28, buf, block, h);
    a, c := R2(b, c, d, e, a, 29, buf, block, h);
    e, b := R2(a, b, c, d, e, 30, buf, block, h);
    d, a := R2(e, a, b, c, d, 31, buf, block, h);
    c, e := R2(d, e, a, b, c, 32, buf, block, h);
    b, d := R2(c, d, e, a, b, 33, buf, block, h);
    a, c := R2(b, c, d, e, a, 34, buf, block, h);
    e, b := R2(a, b, c, d, e, 35, buf, block, h);
    d, a := R2(e, a, b, c, d, 36, buf, block, h);
    c, e := R2(d, e, a, b, c, 37, buf, block, h);
    b, d := R2(c, d, e, a, b, 38, buf, block, h);
    a, c := R2(b, c, d, e, a, 39, buf, block, h);
  }

  /** Rounds 40 to 59. */
  method Rounds40(a0: bv32, b0: bv32, c0: bv32, d0: bv32, e0: bv32, buf: array<bv32>,
      ghost block: Bytes, ghost h: Chain)
    returns (a: bv32, b: bv32, c: bv32, d: bv32, e: bv32)
    requires |block| == 64 && Window(buf[..], block, 40) && Rounds(block, h, 40) == Chain(a0, b0, c0, d0, e0)
    modifies buf
    ensures Window(buf[..], block, 60) && Rounds(block, h, 60) == Chain(a, b, c, d, e)
  {
    hide Window, Rounds;
    a, b, c, d, e := a0, b0, c0, d0, e0;
    e, b := R3(a, b, c, d, e, 40, buf, block, h);
    d, a := R3(e, a, b, c, d, 41, buf, block, h);
    c, e := R3(d, e, a, b, c, 42, buf, block, h);
    b, d := R3(c, d, e, a, b, 43, buf, block, h);
    a, c := R3(b, c, d, e, a, 44, buf, block, h);
    e, b := R3(a, b, c, d, e, 45, buf, block, h);
    d, a := R3(e, a, b, c, d, 46, buf, block, h);
    c, e := R3(d, e, a, b, c, 47, buf, block, h);
    b, d := R3(c, d, e, a, b, 48, buf, block, h);
    a, c := R3(b, c, d, e, a, 49, buf, block, h);
    e, b := R3(a, b, c, d, e, 50, buf, block, h);
    d, a := R3(e, a, b, c, d, 51, buf, block, h);
    c, e := R3(d, e, a, b, c, 52, buf, block, h);
    b, d := R3(c, d, e, a, b, 53, buf, block, h);
    a, c := R3(b, c, d, e, a, 54, buf, block, h);
    e, b := R3(a, b, c, d, e, 55, buf, block, h);
    d, a := R3(e, a, b, c, d, 56, buf, block, h);
    c, e := R3(d, e, a, b, c, 57, buf, block, h);
    b, d := R3(c, d, e, a, b, 58, buf, block, h);
    a, c := R3(b, c, d, e, a, 59, buf, block, h);
  }

  /** Rounds 60 to 79. */
  method Rounds60(a0: bv32, b0: bv32, c0: bv32, d0: bv32, e0: bv32, buf: array<bv32>,
      ghost block: Bytes, ghost h: Chain)
    returns (a: bv32, b: bv32, c: bv32, d: bv32, e: bv32)
    requires |block| == 64 && Window(buf[..], block, 60) && Rounds(block, h, 60) == Chain(a0, b0, c0, d0, e0)
    modifies buf
    ensures Window(buf[..], block, 80) && Rounds(block, h, 80) == Chain(a, b, c, d, e)
  {
    hide Window, Rounds;
    a, b, c, d, e := a0, b0, c0, d0, e0;
    e, b := R4(a, b, c, d, e, 60, buf, block, h);
    d, a := R4(e, a, b, c, d, 61, buf, block, h);
    c, e := R4(d, e, a, b, c, 62, buf, block, h);
    b, d := R4(c, d, e, a, b, 63, buf, block, h);
    a, c := R4(b, c, d, e, a, 64, buf, block, h);
    e, b := R4(a, b, c, d, e, 65, buf, block, h);
    d, a := R4(e, a, b, c, d, 66, buf, block, h);
    c, e := R4(d, e, a, b, c, 67, buf, block, h);
    b, d := R4(c, d, e, a, b, 68, buf, block, h);
    a, c := R4(b, c, d, e, a, 69, buf, block, h);
    e, b := R4(a, b, c, d, e, 70, buf, block, h);
    d, a := R4(e, a, b, c, d, 71, buf, block, h);
    c, e := R4(d, e, a, b, c, 72, buf, block, h);
    b, d := R4(c, d, e, a, b, 73, buf, block, h);
    a, c := R4(b, c, d, e, a, 74, buf, block, h);
    e, b := R4(a, b, c, d, e, 75, buf, block, h);
    d, a := R4(e, a, b, c, d, 76, buf, block, h);
    c, e := R4(d, e, a, b, c, 77, buf, block, h);
    b, d := R4(c, d, e, a, b, 78, buf, block, h);
    a, c := R4(b, c, d, e, a, 79, buf, block, h);
  }

  /** The compression of one block. */
  method Transform(h: Chain, data: Bytes) returns (r: Chain)
    requires |data| == 64
    ensures r == Compress(h, data)
  {
    var buf := new bv32[16](i requires 0 <= i < 16 => LittleEndian(data, i));
    var a, b, c, d, e := h.a, h.b, h.c, h.d, h.e;
    assert Window(buf[..], data, 0) by {
      hide LittleEndian, W;
    }
    assert Rounds(data, h, 0) == h;
    hide *;
    a, b, c, d, e := Rounds0(a, b, c, d, e, buf, data, h);
    a, b, c, d, e := Rounds20(a, b, c, d, e, buf, data, h);
    a, b, c, d, e := Rounds40(a, b, c, d, e, buf, data, h);
    a, b, c, d, e := Rounds60(a, b, c, d, e, buf, data, h);
    r := Add(h, Chain(a, b, c, d, e));
    assert r == Compress(h, data) by {
      Compressed(h, data);
    }
  }

  lemma Compressed(h: Chain, data: Bytes)
    requires |data| == 64
    ensures Compress(h, data) == Add(h, Rounds(data, h, 80))
  {
    hide Rounds, Add;
  }
}
