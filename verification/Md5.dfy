/** MD5: the computation of RFC 1321, section 3.4, and the program's, which renames the working variables
    instead of moving them and spells out the index, the shift and the constant of every step. */
module Md5 {
  import opened HashStream

  datatype State = State(a: bv32, b: bv32, c: bv32, d: bv32)

  // ----- The words of a block -----

  function LittleBytes(x: bv32): (r: Bytes)
    ensures |r| == 4
  {
    [WordByte(x, 3), WordByte(x, 2), WordByte(x, 1), WordByte(x, 0)]
  }

  function LittleWord(s: Bytes): bv32
    requires |s| == 4
  {
    Gathered(s[0], s[1], s[2], s[3])
  }

  function Gathered(p: bv8, q: bv8, r: bv8, s: bv8): bv32 {
    (p as bv32) | ((q as bv32) << 8) | ((r as bv32) << 16) | ((s as bv32) << 24)
  }

  function Encoded(words: seq<bv32>): (r: Bytes)
    ensures |r| == 4 * |words|
  {
    if words == [] then [] else Encoded(words[..|words| - 1]) + LittleBytes(words[|words| - 1])
  }

  /** The `n` words in four times as many bytes. */
  function Decoded(s: Bytes, n: nat): (r: seq<bv32>)
    requires |s| == 4 * n
    ensures |r| == n
  {
    if n == 0 then [] else Decoded(s[..|s| - 4], n - 1) + [LittleWord(s[|s| - 4..])]
  }

  lemma WordOfBytes(x: bv32)
    ensures LittleWord(LittleBytes(x)) == x
  {}

  lemma BytesOfWord(p: bv8, q: bv8, r: bv8, s: bv8)
    ensures LittleBytes(Gathered(p, q, r, s)) == [p, q, r, s]
  {}

  lemma BytesBack(t: Bytes)
    requires |t| == 4
    ensures LittleBytes(LittleWord(t)) == t
  {
    hide LittleBytes, Gathered;
    BytesOfWord(t[0], t[1], t[2], t[3]);
    assert t == [t[0], t[1], t[2], t[3]];
  }

  lemma EncodedSnoc(words: seq<bv32>, x: bv32)
    ensures Encoded(words + [x]) == Encoded(words) + LittleBytes(x)
  {
    hide LittleBytes;
    assert (words + [x])[..|words|] == words;
  }

  lemma DecodedSnoc(s: Bytes, n: nat, t: Bytes)
    requires |s| == 4 * n && |t| == 4
    ensures Decoded(s + t, n + 1) == Decoded(s, n) + [LittleWord(t)]
  {
    hide LittleWord;
    assert (s + t)[..|s + t| - 4] == s && (s + t)[|s + t| - 4..] == t;
  }

  lemma {:induction false} DecodeEncode(words: seq<bv32>)
    ensures Decoded(Encoded(words), |words|) == words
  {
    hide LittleBytes, LittleWord, Encoded, Decoded;
    if words == [] {
      NothingCoded(words);
    } else {
      var ws, last := words[..|words| - 1], words[|words| - 1];
      DecodeEncode(ws);
      DecodeEncodeSnoc(ws, last);
      assert words == ws + [last];
    }
  }

  lemma NothingCoded(words: seq<bv32>)
    requires words == []
    ensures Decoded(Encoded(words), 0) == words
  {}

  lemma DecodeEncodeSnoc(ws: seq<bv32>, last: bv32)
    requires Decoded(Encoded(ws), |ws|) == ws
    ensures Decoded(Encoded(ws + [last]), |ws| + 1) == ws + [last]
  {
    hide LittleBytes, LittleWord, Encoded, Decoded;
    EncodedSnoc(ws, last);
    DecodedSnoc(Encoded(ws), |ws|, LittleBytes(last));
    WordOfBytes(last);
  }

  lemma {:induction false} EncodeDecode(s: Bytes, n: nat)
    requires |s| == 4 * n
    ensures Encoded(Decoded(s, n)) == s
    decreases n
  {
    if n > 0 {
      var u, t := s[..|s| - 4], s[|s| - 4..];
      hide LittleBytes, LittleWord, Encoded, Decoded;
      assert s == u + t;
      DecodedSnoc(u, n - 1, t);
      EncodedSnoc(Decoded(u, n - 1), LittleWord(t));
      BytesBack(t);
      EncodeDecode(u, n - 1);
    } else {
      assert s == [];
    }
  }

  lemma EncodedNext(words: seq<bv32>, i: nat)
    requires i < |words|
    ensures Encoded(words[..i + 1]) == Encoded(words[..i])
      + [WordByte(words[i], 3), WordByte(words[i], 2), WordByte(words[i], 1), WordByte(words[i], 0)]
  {
    hide WordByte, Encoded;
    EncodedSnoc(words[..i], words[i]);
    assert words[..i + 1] == words[..i] + [words[i]];
  }

  method Encode(output: array<bv8>, input: seq<bv32>)
    requires output.Length == 4 * |input|
    modifies output
    ensures output[..] == Encoded(input)
  {
    var i, j := 0, 0;
    assert Encoded(input[..0]) == [];
    hide Encoded, WordByte;
    while j < 4 * |input|
      invariant i <= |input| && j == 4 * i
      invariant output[..j] == Encoded(input[..i])
    {
      EncodedNext(input, i);
      output[j] := WordByte(input[i], 3);
      output[j + 1] := WordByte(input[i], 2);
      output[j + 2] := WordByte(input[i], 1);
      output[j + 3] := WordByte(input[i], 0);
      i := i + 1;
      j := j + 4;
    }
    assert input[..|input|] == input;
  }

  /** The first `i` words. */
  function FirstWords(s: Bytes, i: nat): seq<bv32>
    requires 4 * i <= |s|
  {
    Decoded(s[..4 * i], i)
  }

  lemma FirstWordsNext(s: Bytes, i: nat)
    requires 4 * i + 4 <= |s|
    ensures FirstWords(s, i + 1)
         == FirstWords(s, i) + [Gathered(s[4 * i], s[4 * i + 1], s[4 * i + 2], s[4 * i + 3])]
  {
    hide Gathered, Decoded;
    var u, t := s[..4 * i], s[4 * i..4 * i + 4];
    DecodedSnoc(u, i, t);
    assert s[..4 * i + 4] == u + t;
  }

  lemma FirstWordsEnds(s: Bytes, n: nat)
    requires |s| == 4 * n
    ensures FirstWords(s, 0) == [] && FirstWords(s, n) == Decoded(s, n)
  {
    assert s[..4 * n] == s;
  }

  method Decode(output: array<bv32>, input: Bytes)
    requires |input| % 4 == 0 && output.Length >= |input| / 4
    modifies output
    ensures output[..|input| / 4] == Decoded(input, |input| / 4)
  {
    var i, j := 0, 0;
    ghost var count := |input| / 4;
    assert |input| == 4 * count;
    FirstWordsEnds(input, count);
    hide FirstWords, Decoded, Gathered;
    while j < |input|
      invariant i <= count && j == 4 * i
      invariant output[..i] == FirstWords(input, i)
    {
      FirstWordsNext(input, i);
      output[i] := Gathered(input[j], input[j + 1], input[j + 2], input[j + 3]);
      assert output[..i + 1] == output[..i] + [output[i]];
      i := i + 1;
      j := j + 4;
    }
  }

  // ----- The standard -----

  function F(x: bv32, y: bv32, z: bv32): bv32 { (x & y) | (!x & z) }

  function G(x: bv32, y: bv32, z: bv32): bv32 { (x & z) | (y & !z) }

  function H(x: bv32, y: bv32, z: bv32): bv32 { x ^ y ^ z }

  function I(x: bv32, y: bv32, z: bv32): bv32 { y ^ (x | !z) }

  function RotateLeft(x: bv32, n: nat): bv32
    requires n <= 32
  {
    (x << n) | (x >> (32 - n))
  }

  /** Which word a step takes, by how much it rotates, and its constant. */
  datatype Row = Row(k: nat, s: nat, ac: bv32)

  /** The steps as RFC 1321 lists them. */
  function Table(t: nat): (r: Row)
    ensures r.k < 16 && r.s <= 32
  {
    if t < 16 then Table1(t) else if t < 32 then Table2(t) else if t < 48 then Table3(t) else Table4(t)
  }

  function Table1(t: nat): (r: Row)
    ensures r.k < 16 && r.s <= 32
  {
    if t < 4 then
      match t
      case 0 => Row(0, 7, 0xd76aa478)
      case 1 => Row(1, 12, 0xe8c7b756)
      case 2 => Row(2, 17, 0x242070db)
      case _ => Row(3, 22, 0xc1bdceee)
    else if t < 8 then
      match t
      case 4 => Row(4, 7, 0xf57c0faf)
      case 5 => Row(5, 12, 0x4787c62a)
      case 6 => Row(6, 17, 0xa8304613)
      case _ => Row(7, 22, 0xfd469501)
    else if t < 12 then
      match t
      case 8 => Row(8, 7, 0x698098d8)
      case 9 => Row(9, 12, 0x8b44f7af)
      case 10 => Row(10, 17, 0xffff5bb1)
      case _ => Row(11, 22, 0x895cd7be)
    else
      match t
      case 12 => Row(12, 7, 0x6b901122)
      case 13 => Row(13, 12, 0xfd987193)
      case 14 => Row(14, 17, 0xa679438e)
      case _ => Row(15, 22, 0x49b40821)
  }

  function Table2(t: nat): (r: Row)
    ensures r.k < 16 && r.s <= 32
  {
    if t < 20 then
      match t
      case 16 => Row(1, 5, 0xf61e2562)
      case 17 => Row(6, 9, 0xc040b340)
      case 18 => Row(11, 14, 0x265e5a51)
      case _ => Row(0, 20, 0xe9b6c7aa)
    else if t < 24 then
      match t
      case 20 => Row(5, 5, 0xd62f105d)
      case 21 => Row(10, 9, 0x02441453)
      case 22 => Row(15, 14, 0xd8a1e681)
      case _ => Row(4, 20, 0xe7d3fbc8)
    else if t < 28 then
      match t
      case 24 => Row(9, 5, 0x21e1cde6)
      case 25 => Row(14, 9, 0xc33707d6)
      case 26 => Row(3, 14, 0xf4d50d87)
      case _ => Row(8, 20, 0x455a14ed)
    else
      match t
      case 28 => Row(13, 5, 0xa9e3e905)
      case 29 => Row(2, 9, 0xfcefa3f8)
      case 30 => Row(7, 14, 0x676f02d9)
      case _ => Row(12, 20, 0x8d2a4c8a)
  }

  function Table3(t: nat): (r: Row)
    ensures r.k < 16 && r.s <= 32
  {
    if t < 36 then
      match t
      case 32 => Row(5, 4, 0xfffa3942)
      case 33 => Row(8, 11, 0x8771f681)
      case 34 => Row(11, 16, 0x6d9d6122)
      case _ => Row(14, 23, 0xfde5380c)
    else if t < 40 then
      match t
      case 36 => Row(1, 4, 0xa4beea44)
      case 37 => Row(4, 11, 0x4bdecfa9)
      case 38 => Row(7, 16, 0xf6bb4b60)
      case _ => Row(10, 23, 0xbebfbc70)
    else if t < 44 then
      match t
      case 40 => Row(13, 4, 0x289b7ec6)
      case 41 => Row(0, 11, 0xeaa127fa)
      case 42 => Row(3, 16, 0xd4ef3085)
      case _ => Row(6, 23, 0x04881d05)
    else
      match t
      case 44 => Row(9, 4, 0xd9d4d039)
      case 45 => Row(12, 11, 0xe6db99e5)
      case 46 => Row(15, 16, 0x1fa27cf8)
      case _ => Row(2, 23, 0xc4ac5665)
  }

  function Table4(t: nat): (r: Row)
    ensures r.k < 16 && r.s <= 32
  {
    if t < 52 then
      match t
      case 48 => Row(0, 6, 0xf4292244)
      case 49 => Row(7, 10, 0x432aff97)
      case 50 => Row(14, 15, 0xab9423a7)
      case _ => Row(5, 21, 0xfc93a039)
    else if t < 56 then
      match t
      case 52 => Row(12, 6, 0x655b59c3)
      case 53 => Row(3, 10, 0x8f0ccc92)
      case 54 => Row(10, 15, 0xffeff47d)
      case _ => Row(1, 21, 0x85845dd1)
    else if t < 60 then
      match t
      case 56 => Row(8, 6, 0x6fa87e4f)
      case 57 => Row(15, 10, 0xfe2ce6e0)
      case 58 => Row(6, 15, 0xa3014314)
      case _ => Row(13, 21, 0x4e0811a1)
    else
      match t
      case 60 => Row(4, 6, 0xf7537e82)
      case 61 => Row(11, 10, 0xbd3af235)
      case 62 => Row(2, 15, 0x2ad7d2bb)
      case _ => Row(9, 21, 0xeb86d391)
  }

  function Mix(t: nat, x: bv32, y: bv32, z: bv32): bv32 {
    if t < 16 then F(x, y, z) else if t < 32 then G(x, y, z) else if t < 48 then H(x, y, z) else I(x, y, z)
  }

  function Plus(a: bv32, b: bv32): bv32 { a + b }

  function Sum(a: bv32, f: bv32, x: bv32, k: bv32): bv32 { a + f + x + k }

  /** The new value of a in a step. */
  function Stepped(a: bv32, b: bv32, f: bv32, x: bv32, k: bv32, n: nat): bv32
    requires n <= 32
  {
    Plus(b, RotateLeft(Sum(a, f, x, k), n))
  }

  function Step(t: nat, words: seq<bv32>, s: State): State
    requires |words| == 16
  {
    State(s.d, Stepped(s.a, s.b, Mix(t, s.b, s.c, s.d), words[Table(t).k], Table(t).ac, Table(t).s), s.b, s.c)
  }

  function Steps(words: seq<bv32>, s: State, t: nat): State
    requires |words| == 16
  {
    if t == 0 then s else Step(t - 1, words, Steps(words, s, t - 1))
  }

  function Add(s: State, r: State): State {
    State(s.a + r.a, s.b + r.b, s.c + r.c, s.d + r.d)
  }

  function Compress(s: State, block: Bytes): State {
    if |block| == 64 then Add(s, Steps(Decoded(block, 16), s, 64)) else s
  }

  const IV := State(0x67452301, 0xEFCDAB89, 0x98BADCFE, 0x10325476)

  // ----- The program's steps -----

  lemma SumOrder(a: bv32, f: bv32, x: bv32, k: bv32)
    ensures a + (f + x + k) == a + f + x + k
  {}

  lemma Commute(a: bv32, b: bv32)
    ensures Plus(a, b) == Plus(b, a)
  {}

  /** What the macros add to `a`, their sum first. */
  function Total(a: bv32, f: bv32, x: bv32, k: bv32): bv32 { a + (f + x + k) }

  lemma TotalIsSum(a: bv32, f: bv32, x: bv32, k: bv32)
    ensures Total(a, f, x, k) == Sum(a, f, x, k)
  {
    SumOrder(a, f, x, k);
  }

  /** A step of the program, whichever function gave `f`. */
  method Turn(a: bv32, b: bv32, f: bv32, x: bv32, s: nat, ac: bv32) returns (a': bv32)
    requires s <= 32
    ensures a' == Stepped(a, b, f, x, ac, s)
  {
    hide Total, Sum, Plus, RotateLeft;
    TotalIsSum(a, f, x, ac);
    Commute(RotateLeft(Sum(a, f, x, ac), s), b);
    a' := Total(a, f, x, ac);
    a' := RotateLeft(a', s);
    a' := Plus(a', b);
  }

  method FF(a: bv32, b: bv32, c: bv32, d: bv32, x: bv32, s: nat, ac: bv32, ghost k: nat, ghost t: nat,
      ghost words: seq<bv32>, ghost h: State)
    returns (a': bv32)
    requires |words| == 16 && 0 <= t < 16 && Steps(words, h, t) == State(a, b, c, d)
    requires Table(t) == Row(k, s, ac) && x == words[k]
    ensures Steps(words, h, t + 1) == State(d, a', b, c)
  {
    hide Stepped, F, Table;
    a' := Turn(a, b, F(b, c, d), x, s, ac);
  }

  method GG(a: bv32, b: bv32, c: bv32, d: bv32, x: bv32, s: nat, ac: bv32, ghost k: nat, ghost t: nat,
      ghost words: seq<bv32>, ghost h: State)
    returns (a': bv32)
    requires |words| == 16 && 16 <= t < 32 && Steps(words, h, t) == State(a, b, c, d)
    requires Table(t) == Row(k, s, ac) && x == words[k]
    ensures Steps(words, h, t + 1) == State(d, a', b, c)
  {
    hide Stepped, G, Table;
    a' := Turn(a, b, G(b, c, d), x, s, ac);
  }

  method HH(a: bv32, b: bv32, c: bv32, d: bv32, x: bv32, s: nat, ac: bv32, ghost k: nat, ghost t: nat,
      ghost words: seq<bv32>, ghost h: State)
    returns (a': bv32)
    requires |words| == 16 && 32 <= t < 48 && Steps(words, h, t) == State(a, b, c, d)
    requires Table(t) == Row(k, s, ac) && x == words[k]
    ensures Steps(words, h, t + 1) == State(d, a', b, c)
  {
    hide Stepped, H, Table;
    a' := Turn(a, b, H(b, c, d), x, s, ac);
  }

  method II(a: bv32, b: bv32, c: bv32, d: bv32, x: bv32, s: nat, ac: bv32, ghost k: nat, ghost t: nat,
      ghost words: seq<bv32>, ghost h: State)
    returns (a': bv32)
    requires |words| == 16 && 48 <= t < 64 && Steps(words, h, t) == State(a, b, c, d)
    requires Table(t) == Row(k, s, ac) && x == words[k]
    ensures Steps(words, h, t + 1) == State(d, a', b, c)
  {
    hide Stepped, I, Table;
    a' := Turn(a, b, I(b, c, d), x, s, ac);
  }

  /** Steps 0 to 7. */
  method Steps0(s: State, x: seq<bv32>, ghost h: State) returns (r: State)
    requires |x| == 16 && Steps(x, h, 0) == s
    ensures Steps(x, h, 8) == r
  {
    hide Steps;
    assert Table(0) == Row(0, 7, 0xd76aa478);
    assert Table(1) == Row(1, 12, 0xe8c7b756);
    assert Table(2) == Row(2, 17, 0x242070db);
    assert Table(3) == Row(3, 22, 0xc1bdceee);
    assert Table(4) == Row(4, 7, 0xf57c0faf);
    assert Table(5) == Row(5, 12, 0x4787c62a);
    assert Table(6) == Row(6, 17, 0xa8304613);
    assert Table(7) == Row(7, 22, 0xfd469501);
    hide Table;
    var a, b, c, d := s.a, s.b, s.c, s.d;
    a := FF(a, b, c, d, x[0], 7, 0xd76aa478, 0, 0, x, h);
    d := FF(d, a, b, c, x[1], 12, 0xe8c7b756, 1, 1, x, h);
    c := FF(c, d, a, b, x[2], 17, 0x242070db, 2, 2, x, h);
    b := FF(b, c, d, a, x[3], 22, 0xc1bdceee, 3, 3, x, h);
    a := FF(a, b, c, d, x[4], 7, 0xf57c0faf, 4, 4, x, h);
    d := FF(d, a, b, c, x[5], 12, 0x4787c62a, 5, 5, x, h);
    c := FF(c, d, a, b, x[6], 17, 0xa8304613, 6, 6, x, h);
    b := FF(b, c, d, a, x[7], 22, 0xfd469501, 7, 7, x, h);
    r := State(a, b, c, d);
  }

  /** Steps 8 to 15. */
  method Steps8(s: State, x: seq<bv32>, ghost h: State) returns (r: State)
    requires |x| == 16 && Steps(x, h, 8) == s
    ensures Steps(x, h, 16) == r
  {
    hide Steps;
    assert Table(8) == Row(8, 7, 0x698098d8);
    assert Table(9) == Row(9, 12, 0x8b44f7af);
    assert Table(10) == Row(10, 17, 0xffff5bb1);
    assert Table(11) == Row(11, 22, 0x895cd7be);
    assert Table(12) == Row(12, 7, 0x6b901122);
    assert Table(13) == Row(13, 12, 0xfd987193);
    assert Table(14) == Row(14, 17, 0xa679438e);
    assert Table(15) == Row(15, 22, 0x49b40821);
    hide Table;
    var a, b, c, d := s.a, s.b, s.c, s.d;
    a := FF(a, b, c, d, x[8], 7, 0x698098d8, 8, 8, x, h);
    d := FF(d, a, b, c, x[9], 12, 0x8b44f7af, 9, 9, x, h);
    c := FF(c, d, a, b, x[10], 17, 0xffff5bb1, 10, 10, x, h);
    b := FF(b, c, d, a, x[11], 22, 0x895cd7be, 11, 11, x, h);
    a := FF(a, b, c, d, x[12], 7, 0x6b901122, 12, 12, x, h);
    d := FF(d, a, b, c, x[13], 12, 0xfd987193, 13, 13, x, h);
    c := FF(c, d, a, b, x[14], 17, 0xa679438e, 14, 14, x, h);
    b := FF(b, c, d, a, x[15], 22, 0x49b40821, 15, 15, x, h);
    r := State(a, b, c, d);
  }

  /** Steps 16 to 23. */
  method Steps16(s: State, x: seq<bv32>, ghost h: State) returns (r: State)
    requires |x| == 16 && Steps(x, h, 16) == s
    ensures Steps(x, h, 24) == r
  {
    hide Steps;
    assert Table(16) == Row(1, 5, 0xf61e2562);
    assert Table(17) == Row(6, 9, 0xc040b340);
    assert Table(18) == Row(11, 14, 0x265e5a51);
    assert Table(19) == Row(0, 20, 0xe9b6c7aa);
    assert Table(20) == Row(5, 5, 0xd62f105d);
    assert Table(21) == Row(10, 9, 0x2441453);
    assert Table(22) == Row(15, 14, 0xd8a1e681);
    assert Table(23) == Row(4, 20, 0xe7d3fbc8);
    hide Table;
    var a, b, c, d := s.a, s.b, s.c, s.d;
    a := GG(a, b, c, d, x[1], 5, 0xf61e2562, 1, 16, x, h);
    d := GG(d, a, b, c, x[6], 9, 0xc040b340, 6, 17, x, h);
    c := GG(c, d, a, b, x[11], 14, 0x265e5a51, 11, 18, x, h);
    b := GG(b, c, d, a, x[0], 20, 0xe9b6c7aa, 0, 19, x, h);
    a := GG(a, b, c, d, x[5], 5, 0xd62f105d, 5, 20, x, h);
    d := GG(d, a, b, c, x[10], 9, 0x2441453, 10, 21, x, h);
    c := GG(c, d, a, b, x[15], 14, 0xd8a1e681, 15, 22, x, h);
    b := GG(b, c, d, a, x[4], 20, 0xe7d3fbc8, 4, 23, x, h);
    r := State(a, b, c, d);
  }

  /** Steps 24 to 31. */
  method Steps24(s: State, x: seq<bv32>, ghost h: State) returns (r: State)
    requires |x| == 16 && Steps(x, h, 24) == s
    ensures Steps(x, h, 32) == r
  {
    hide Steps;
    assert Table(24) == Row(9, 5, 0x21e1cde6);
    assert Table(25) == Row(14, 9, 0xc33707d6);
    assert Table(26) == Row(3, 14, 0xf4d50d87);
    assert Table(27) == Row(8, 20, 0x455a14ed);
    assert Table(28) == Row(13, 5, 0xa9e3e905);
    assert Table(29) == Row(2, 9, 0xfcefa3f8);
    assert Table(30) == Row(7, 14, 0x676f02d9);
    assert Table(31) == Row(12, 20, 0x8d2a4c8a);
    hide Table;
    var a, b, c, d := s.a, s.b, s.c, s.d;
    a := GG(a, b, c, d, x[9], 5, 0x21e1cde6, 9, 24, x, h);
    d := GG(d, a, b, c, x[14], 9, 0xc33707d6, 14, 25, x, h);
    c := GG(c, d, a, b, x[3], 14, 0xf4d50d87, 3, 26, x, h);
    b := GG(b, c, d, a, x[8], 20, 0x455a14ed, 8, 27, x, h);
    a := GG(a, b, c, d, x[13], 5, 0xa9e3e905, 13, 28, x, h);
    d := GG(d, a, b, c, x[2], 9, 0xfcefa3f8, 2, 29, x, h);
    c := GG(c, d, a, b, x[7], 14, 0x676f02d9, 7, 30, x, h);
    b := GG(b, c, d, a, x[12], 20, 0x8d2a4c8a, 12, 31, x, h);
    r := State(a, b, c, d);
  }

  /** Steps 32 to 39. */
  method Steps32(s: State, x: seq<bv32>, ghost h: State) returns (r: State)
    requires |x| == 16 && Steps(x, h, 32) == s
    ensures Steps(x, h, 40) == r
  {
    hide Steps;
    assert Table(32) == Row(5, 4, 0xfffa3942);
    assert Table(33) == Row(8, 11, 0x8771f681);
    assert Table(34) == Row(11, 16, 0x6d9d6122);
    assert Table(35) == Row(14, 23, 0xfde5380c);
    assert Table(36) == Row(1, 4, 0xa4beea44);
    assert Table(37) == Row(4, 11, 0x4bdecfa9);
    assert Table(38) == Row(7, 16, 0xf6bb4b60);
    assert Table(39) == Row(10, 23, 0xbebfbc70);
    hide Table;
    var a, b, c, d := s.a, s.b, s.c, s.d;
    a := HH(a, b, c, d, x[5], 4, 0xfffa3942, 5, 32, x, h);
    d := HH(d, a, b, c, x[8], 11, 0x8771f681, 8, 33, x, h);
    c := HH(c, d, a, b, x[11], 16, 0x6d9d6122, 11, 34, x, h);
    b := HH(b, c, d, a, x[14], 23, 0xfde5380c, 14, 35, x, h);
    a := HH(a, b, c, d, x[1], 4, 0xa4beea44, 1, 36, x, h);
    d := HH(d, a, b, c, x[4], 11, 0x4bdecfa9, 4, 37, x, h);
    c := HH(c, d, a, b, x[7], 16, 0xf6bb4b60, 7, 38, x, h);
    b := HH(b, c, d, a, x[10], 23, 0xbebfbc70, 10, 39, x, h);
    r := State(a, b, c, d);
  }

  /** Steps 40 to 47. */
  method Steps40(s: State, x: seq<bv32>, ghost h: State) returns (r: State)
    requires |x| == 16 && Steps(x, h, 40) == s
    ensures Steps(x, h, 48) == r
  {
    hide Steps;
    assert Table(40) == Row(13, 4, 0x289b7ec6);
    assert Table(41) == Row(0, 11, 0xeaa127fa);
    assert Table(42) == Row(3, 16, 0xd4ef3085);
    assert Table(43) == Row(6, 23, 0x4881d05);
    assert Table(44) == Row(9, 4, 0xd9d4d039);
    assert Table(45) == Row(12, 11, 0xe6db99e5);
    assert Table(46) == Row(15, 16, 0x1fa27cf8);
    assert Table(47) == Row(2, 23, 0xc4ac5665);
    hide Table;
    var a, b, c, d := s.a, s.b, s.c, s.d;
    a := HH(a, b, c, d, x[13], 4, 0x289b7ec6, 13, 40, x, h);
    d := HH(d, a, b, c, x[0], 11, 0xeaa127fa, 0, 41, x, h);
    c := HH(c, d, a, b, x[3], 16, 0xd4ef3085, 3, 42, x, h);
    b := HH(b, c, d, a, x[6], 23, 0x4881d05, 6, 43, x, h);
    a := HH(a, b, c, d, x[9], 4, 0xd9d4d039, 9, 44, x, h);
    d := HH(d, a, b, c, x[12], 11, 0xe6db99e5, 12, 45, x, h);
    c := HH(c, d, a, b, x[15], 16, 0x1fa27cf8, 15, 46, x, h);
    b := HH(b, c, d, a, x[2], 23, 0xc4ac5665, 2, 47, x, h);
    r := State(a, b, c, d);
  }

  /** Steps 48 to 55. */
  method Steps48(s: State, x: seq<bv32>, ghost h: State) returns (r: State)
    requires |x| == 16 && Steps(x, h, 48) == s
    ensures Steps(x, h, 56) == r
  {
    hide Steps;
    assert Table(48) == Row(0, 6, 0xf4292244);
    assert Table(49) == Row(7, 10, 0x432aff97);
    assert Table(50) == Row(14, 15, 0xab9423a7);
    assert Table(51) == Row(5, 21, 0xfc93a039);
    assert Table(52) == Row(12, 6, 0x655b59c3);
    assert Table(53) == Row(3, 10, 0x8f0ccc92);
    assert Table(54) == Row(10, 15, 0xffeff47d);
    assert Table(55) == Row(1, 21, 0x85845dd1);
    hide Table;
    var a, b, c, d := s.a, s.b, s.c, s.d;
    a := II(a, b, c, d, x[0], 6, 0xf4292244, 0, 48, x, h);
    d := II(d, a, b, c, x[7], 10, 0x432aff97, 7, 49, x, h);
    c := II(c, d, a, b, x[14], 15, 0xab9423a7, 14, 50, x, h);
    b := II(b, c, d, a, x[5], 21, 0xfc93a039, 5, 51, x, h);
    a := II(a, b, c, d, x[12], 6, 0x655b59c3, 12, 52, x, h);
    d := II(d, a, b, c, x[3], 10, 0x8f0ccc92, 3, 53, x, h);
    c := II(c, d, a, b, x[10], 15, 0xffeff47d, 10, 54, x, h);
    b := II(b, c, d, a, x[1], 21, 0x85845dd1, 1, 55, x, h);
    r := State(a, b, c, d);
  }

  /** Steps 56 to 63. */
  method Steps56(s: State, x: seq<bv32>, ghost h: State) returns (r: State)
    requires |x| == 16 && Steps(x, h, 56) == s
    ensures Steps(x, h, 64) == r
  {
    hide Steps;
    assert Table(56) == Row(8, 6, 0x6fa87e4f);
    assert Table(57) == Row(15, 10, 0xfe2ce6e0);
    assert Table(58) == Row(6, 15, 0xa3014314);
    assert Table(59) == Row(13, 21, 0x4e0811a1);
    assert Table(60) == Row(4, 6, 0xf7537e82);
    assert Table(61) == Row(11, 10, 0xbd3af235);
    assert Table(62) == Row(2, 15, 0x2ad7d2bb);
    assert Table(63) == Row(9, 21, 0xeb86d391);
    hide Table;
    var a, b, c, d := s.a, s.b, s.c, s.d;
    a := II(a, b, c, d, x[8], 6, 0x6fa87e4f, 8, 56, x, h);
    d := II(d, a, b, c, x[15], 10, 0xfe2ce6e0, 15, 57, x, h);
    c := II(c, d, a, b, x[6], 15, 0xa3014314, 6, 58, x, h);
    b := II(b, c, d, a, x[13], 21, 0x4e0811a1, 13, 59, x, h);
    a := II(a, b, c, d, x[4], 6, 0xf7537e82, 4, 60, x, h);
    d := II(d, a, b, c, x[11], 10, 0xbd3af235, 11, 61, x, h);
    c := II(c, d, a, b, x[2], 15, 0x2ad7d2bb, 2, 62, x, h);
    b := II(b, c, d, a, x[9], 21, 0xeb86d391, 9, 63, x, h);
    r := State(a, b, c, d);
  }

  /** The compression of one block. */
  method Transform(state: State, block: Bytes) returns (r: State)
    requires |block| == 64
    ensures r == Compress(state, block)
  {
    var buf := new bv32[64];
    Decode(buf, block);
    var x := buf[..16];
    assert x == Decoded(block, 16) && Steps(x, state, 0) == state;
    Compressed(state, block);
    hide *;
    r := state;
    r := Steps0(r, x, state);
    r := Steps8(r, x, state);
    r := Steps16(r, x, state);
    r := Steps24(r, x, state);
    r := Steps32(r, x, state);
    r := Steps40(r, x, state);
    r := Steps48(r, x, state);
    r := Steps56(r, x, state);
    r := Add(state, r);
  }

  lemma Compressed(s: State, block: Bytes)
    requires |block| == 64
    ensures Compress(s, block) == Add(s, Steps(Decoded(block, 16), s, 64))
  {
    hide Steps, Add;
  }
}
