/** What SHA-1 and MD5 have in common: the fold of a compression function over the blocks of a padded
    message, and a bit counter kept in two 32-bit words. */
module HashStream {

  import opened Wrap

  type Bytes = seq<bv8>

  const WORD := 0x1_0000_0000

  /** The chaining value after the whole blocks of `s`. */
  function Absorb<H>(compress: (H, Bytes) -> H, h: H, s: Bytes): H
    decreases |s|
  {
    if |s| < 64 then h else Absorb(compress, compress(h, s[..64]), s[64..])
  }

  /** How many of `n` bytes do not fill a block. */
  function Left(n: nat): (r: nat)
    ensures r < 64 && r <= n
  {
    n % 64
  }

  lemma LeftSmall(n: nat)
    requires n < 64
    ensures Left(n) == n
  {}

  lemma LeftFull(n: nat)
    ensures Left(n + 64) == Left(n)
  {
    ModAddMultiple(n, 64, 1);
  }

  lemma LeftAdd(n: nat, k: nat)
    ensures Left(Left(n) + k) == Left(n + k)
  {
    ModAddMultiple(n % 64 + k, 64, n / 64);
  }

  /** The bytes of `s` behind its whole blocks. */
  function Rest(s: Bytes): (r: Bytes)
    ensures |r| == Left(|s|)
  {
    s[|s| - Left(|s|)..]
  }

  lemma {:induction false} AbsorbAppend<H>(compress: (H, Bytes) -> H, h: H, s: Bytes, t: Bytes)
    requires Left(|s|) == 0
    ensures Absorb(compress, h, s + t) == Absorb(compress, Absorb(compress, h, s), t)
    decreases |s|
  {
    if |s| < 64 {
      LeftSmall(|s|);
      assert s + t == t;
    } else {
      assert (s + t)[..64] == s[..64] && (s + t)[64..] == s[64..] + t;
      LeftFull(|s| - 64);
      hide Left;
      AbsorbAppend(compress, compress(h, s[..64]), s[64..], t);
    }
  }

  lemma RestAppend(b: Bytes, t: Bytes)
    requires Left(|b|) == 0
    ensures Rest(b + t) == Rest(t)
  {
    LeftAdd(|b|, |t|);
    hide Left;
    var n := Left(|t|);
    assert Left(|b + t|) == n;
    assert Rest(b + t) == (b + t)[|b| + |t| - n..];
  }

  /** Only the bytes behind the whole blocks of `s` matter for what is absorbed next. */
  lemma AbsorbRest<H>(compress: (H, Bytes) -> H, h: H, s: Bytes, t: Bytes)
    ensures Absorb(compress, h, s + t) == Absorb(compress, Absorb(compress, h, s), Rest(s) + t)
    ensures Rest(s + t) == Rest(Rest(s) + t)
  {
    var b := s[..|s| - Left(|s|)];
    assert Left(|b|) == 0;
    hide Left;
    assert s == b + Rest(s);
    assert s + t == b + (Rest(s) + t);
    AbsorbAppend(compress, h, b, Rest(s) + t);
    AbsorbAppend(compress, h, b, Rest(s));
    RestAppend(b, Rest(s) + t);
  }

  lemma AbsorbNothing<H>(compress: (H, Bytes) -> H, h: H)
    ensures Absorb(compress, h, []) == h && Left(0) == 0 && Rest([]) == [] && Counts(0, 0, 0)
  {
    LeftSmall(0);
    CountsNothing(0);
    hide Left, Counts;
  }

  lemma CountsNothing(n: nat)
    requires n == 0
    ensures Counts(n, n, n)
  {
    ModUnique(8 * n, WORD * WORD, 0, 0);
  }

  lemma AbsorbShort<H>(compress: (H, Bytes) -> H, h: H, s: Bytes)
    ensures |s| < 64 ==> Absorb(compress, h, s) == h && Rest(s) == s
    ensures |s| == 64 ==> Absorb(compress, h, s) == compress(h, s) && Rest(s) == []
  {
    if |s| < 64 {
      LeftSmall(|s|);
    } else if |s| == 64 {
      assert s[..64] == s && s[64..] == [];
      LeftFull(0);
    }
  }

  /** The bytes held back and the first of the new ones make a block. */
  lemma AbsorbFill<H>(compress: (H, Bytes) -> H, h: H, m: Bytes, d: Bytes)
    requires Left(|m|) + |d| == 64
    ensures Absorb(compress, h, m + d) == compress(Absorb(compress, h, m), Rest(m) + d)
    ensures Left(|m + d|) == 0
  {
    AbsorbRest(compress, h, m, d);
    AbsorbShort(compress, Absorb(compress, h, m), Rest(m) + d);
    LeftAdd(|m|, |d|);
    LeftFull(0);
  }

  /** Too few bytes for a block are held back. */
  lemma AbsorbFew<H>(compress: (H, Bytes) -> H, h: H, m: Bytes, d: Bytes)
    requires Left(|m|) + |d| < 64
    ensures Absorb(compress, h, m + d) == Absorb(compress, h, m) && Rest(m + d) == Rest(m) + d
  {
    AbsorbRest(compress, h, m, d);
    AbsorbShort(compress, Absorb(compress, h, m), Rest(m) + d);
  }

  /** A memcpy into the buffer. */
  method CopyTo(buf: array<bv8>, at: nat, data: Bytes)
    requires at + |data| <= buf.Length
    modifies buf
    ensures buf[..at + |data|] == old(buf[..at]) + data
  {
    forall k | 0 <= k < |data| {
      buf[at + k] := data[k];
    }
  }

  // ----- The bit counter -----

  /** The bits of `n` bytes, as 64 bits can count them. */
  function BitCount(n: nat): nat { 8 * n % (WORD * WORD) }

  /** The number two words make. */
  function Joined(lo: nat, hi: nat): nat { hi * WORD + lo }

  predicate Counts(lo: nat, hi: nat, n: nat) {
    lo < WORD && hi < WORD && Joined(lo, hi) == BitCount(n)
  }

  /** The low word tells how many bytes lie behind the whole blocks. */
  lemma CountOffset(lo: nat, hi: nat, n: nat)
    requires Counts(lo, hi, n)
    ensures lo == 8 * n % WORD && lo / 8 % 64 == Left(n)
  {
    var q := 8 * n / (WORD * WORD);
    assert 8 * n == WORD * WORD * q + (hi * WORD + lo);
    ModUnique(8 * n, WORD, WORD * q + hi, lo);
    Eighth(n, lo, WORD * q + hi);
  }

  lemma Eighth(n: nat, lo: nat, p: nat)
    requires 8 * n == WORD * p + lo
    ensures lo / 8 % 64 == Left(n)
  {
    var r := n - 0x2000_0000 * p;
    assert lo == 8 * r;
    assert lo / 8 == r;
    assert n == 64 * (0x80_0000 * p) + r;
    ModAddMultiple(r, 64, 0x80_0000 * p);
  }

  /** A wrapped sum is smaller than one operand exactly if it is smaller than the other. */
  lemma Carry(lo: nat, low: nat)
    requires lo < WORD && low < WORD
    ensures (lo + low) % WORD < lo <==> lo + low >= WORD
    ensures (lo + low) % WORD < low <==> lo + low >= WORD
  {}

  /** Adding a length in bits word by word, where a sum smaller than an operand has carried. */
  lemma CountAdds(lo: nat, hi: nat, n: nat, k: nat)
    requires Counts(lo, hi, n) && k < WORD
    ensures var lo' := (lo + 8 * k % WORD) % WORD;
      var hi' := if lo' < lo then (hi + 1) % WORD else hi;
      Counts(lo', (hi' + k / 0x2000_0000) % WORD, n + k)
  {
    assert 8 * k == k / 0x2000_0000 * WORD + 8 * k % WORD;
    AddWords(lo, hi, n, k, 8 * k % WORD, k / 0x2000_0000);
  }

  lemma AddWords(lo: nat, hi: nat, n: nat, k: nat, low: nat, high: nat)
    requires Counts(lo, hi, n) && 8 * k == high * WORD + low && low < WORD
    ensures var lo' := (lo + low) % WORD;
      var hi' := if lo' < lo then (hi + 1) % WORD else hi;
      Counts(lo', (hi' + high) % WORD, n + k)
  {
    Carry(lo, low);
    var lo' := (lo + low) % WORD;
    assert lo < WORD;
    hide Counts;
    if lo' < lo {
      assert lo + low == WORD + lo';
      ModAddMod(hi + 1, high, WORD);
      WordsAdd(lo, hi, n, k, low, high, 1, lo');
    } else {
      assert lo + low == lo';
      WordsAdd(lo, hi, n, k, low, high, 0, lo');
    }
  }

  lemma WordsAdd(lo: nat, hi: nat, n: nat, k: nat, low: nat, high: nat, carry: nat, lo': nat)
    requires Counts(lo, hi, n) && 8 * k == high * WORD + low && lo + low == carry * WORD + lo' && lo' < WORD
    ensures Counts(lo', (hi + carry + high) % WORD, n + k)
  {
    var sum, q := hi + carry + high, 8 * n / (WORD * WORD);
    assert sum == sum / WORD * WORD + sum % WORD;
    assert 8 * n == WORD * WORD * q + hi * WORD + lo;
    ModUnique(8 * (n + k), WORD * WORD, q + sum / WORD, sum % WORD * WORD + lo');
  }

  // ----- Bytes of words -----

  /** Byte `j` of a word, counted from the most significant. */
  function WordByte(x: bv32, j: nat): bv8
    requires j < 4
  {
    var shifted := if j == 0 then x >> 24 else if j == 1 then x >> 16 else if j == 2 then x >> 8 else x;
    (shifted & 0xff) as bv8
  }

  // ----- Padding -----

  function Zeros(k: nat): Bytes {
    if k == 0 then [] else Zeros(k - 1) + [0]
  }

  /** After `n` bytes, the 0x80 and `k` zeros there is room for just the length in the last block. */
  predicate LeavesEight(n: nat, k: nat) {
    Left(n + 1 + k) == 56
  }

  /** How many zero bytes go between the 0x80 and the length. */
  function PadZeros(n: nat): (k: nat)
    ensures k < 64
  {
    if Left(n) < 56 then 55 - Left(n) else 119 - Left(n)
  }

  /** The only number below 64 that fits. */
  lemma PadZerosFit(n: nat, k: nat)
    requires k < 64
    ensures LeavesEight(n, k) <==> k == PadZeros(n)
  {
    var p := PadZeros(n);
    LeftAdd(n, 1 + p);
    LeftFull(56);
    assert LeavesEight(n, p);
    if k <= p {
      SlotsDiffer(n + 1, k, p, 64);
    } else {
      SlotsDiffer(n + 1, p, k, 64);
    }
  }

  /** The padded message: `m`, a one bit, zeros up to 8 bytes before a block boundary, the length. */
  function Padded(m: Bytes, length: Bytes): Bytes {
    m + [0x80] + Zeros(PadZeros(|m|)) + length
  }

  lemma {:induction false} ZerosLength(k: nat)
    ensures |Zeros(k)| == k
  {
    if k > 0 {
      ZerosLength(k - 1);
    }
  }

  lemma PaddedWhole(m: Bytes, length: Bytes)
    requires |length| == 8
    ensures Left(|Padded(m, length)|) == 0 && Rest(Padded(m, length)) == []
  {
    var k := PadZeros(|m|);
    ZerosLength(k);
    var n := |m| + 1 + k;
    PadZerosFit(|m|, k);
    LeftAdd(n, 8);
    LeftFull(0);
    assert |m + [0x80] + Zeros(k) + length| == n + 8;
  }
}
