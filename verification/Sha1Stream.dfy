/** SHA-1 of a message that arrives in pieces. */
module Sha1Stream {
  import opened Chunks
  import opened HashStream
  import opened Sha1

  function LowByte(v: nat): bv8 { (v % 0x100) as bv8 }

  /** The low `k` bytes of `v`, most significant first. */
  function BigBytes(v: nat, k: nat): (r: Bytes)
    ensures |r| == k
  {
    if k == 0 then [] else BigBytes(v / 0x100, k - 1) + [LowByte(v)]
  }

  function WordBytes(x: bv32): (r: Bytes)
    ensures |r| == 4
  {
    [WordByte(x, 0), WordByte(x, 1), WordByte(x, 2), WordByte(x, 3)]
  }

  function ChainBytes(h: Chain): (r: Bytes)
    ensures |r| == 20
  {
    WordBytes(h.a) + WordBytes(h.b) + WordBytes(h.c) + WordBytes(h.d) + WordBytes(h.e)
  }

  /** The digest of section 6.1 of FIPS 180-4: pad, compress block by block, write the words out. */
  function Digest(m: Bytes): Bytes {
    ChainBytes(Absorb(Compress, IV, Padded(m, BigBytes(BitCount(|m|), 8))))
  }

  lemma DigestIs(m: Bytes, counter: Bytes)
    requires counter == BigBytes(BitCount(|m|), 8)
    ensures Digest(m) == ChainBytes(Absorb(Compress, IV, m + [0x80] + Zeros(PadZeros(|m|)) + counter))
  {
    hide Compress, Absorb, ChainBytes, BigBytes, BitCount;
  }

  class Context {
    var h: Chain
    var countLo: nat
    var countHi: nat
    const buf: array<bv8>
    ghost var message: Bytes

    ghost predicate Valid()
      reads this`h, this`countLo, this`countHi, this`message, buf
    {
      && buf.Length == 64
      && h == Absorb(Compress, IV, message)
      && buf[..Left(|message|)] == Rest(message)
      && Counts(countLo, countHi, |message|)
    }

    constructor ()
      ensures Valid() && message == [] && fresh(buf)
    {
      hide Compress, Absorb, Rest, Left, Counts;
      buf := new bv8[64];
      h := IV;
      countLo, countHi := 0, 0;
      message := [];
      AbsorbNothing(Compress, IV);
      new;
      assert buf[..0] == [];
    }

    /** Compresses the whole blocks of `data` from `from` on, where a block ends. */
    method Blocks(data: Bytes, from: nat) returns (dataOff: nat)
      requires from <= |data| < 0x7FFF_FFC0
      requires Left(|message + data[..from]|) == 0 && h == Absorb(Compress, IV, message + data[..from])
      modifies this`h
      ensures from <= dataOff <= |data| < dataOff + 64
      ensures Left(|message + data[..dataOff]|) == 0 && h == Absorb(Compress, IV, message + data[..dataOff])
    {
      hide Compress, Absorb, Rest, Left, BitCount, Joined;
      dataOff := from;
      ghost var done := message + data[..dataOff];
      while dataOff + 64 <= |data|
        invariant from <= dataOff <= |data|
        invariant done == message + data[..dataOff] && Left(|done|) == 0
        invariant h == Absorb(Compress, IV, done)
      {
        var block := data[dataOff..dataOff + 64];
        AbsorbFill(Compress, IV, done, block);
        assert Rest(done) + block == block;
        assert done + block == message + data[..dataOff + 64];
        h := Transform(h, block);
        dataOff := dataOff + 64;
        done := done + block;
      }
    }

    /** Compresses the whole blocks of the message and `data`, and keeps the rest in the buffer. */
    method Absorbed(data: Bytes)
      requires Valid() && |data| < 0x7FFF_FFC0
      modifies this`h, buf
      ensures h == Absorb(Compress, IV, message + data)
      ensures buf[..Left(|message + data|)] == Rest(message + data)
    {
      CountOffset(countLo, countHi, |message|);
      hide Compress, Absorb, Rest, Counts, Left;
      var bufOff := countLo / 8 % 64;
      var dataOff := 0;
      assert message + data[..0] == message;
      if |data| + bufOff >= 64 {
        dataOff := 64 - bufOff;
        CopyTo(buf, bufOff, data[..dataOff]);
        assert buf[..] == buf[..64];
        AbsorbFill(Compress, IV, message, data[..dataOff]);
        h := Transform(h, buf[..]);
        dataOff := Blocks(data, dataOff);
        bufOff := 0;
      }
      ghost var done := message + data[..dataOff];
      assert done + data[dataOff..] == message + data;
      AbsorbFew(Compress, IV, done, data[dataOff..]);
      assert buf[..bufOff] == Rest(done);
      CopyTo(buf, bufOff, data[dataOff..]);
    }

    /** Adds the bits of `length` bytes to the counter. */
    method Count(length: nat)
      requires Counts(countLo, countHi, |message|) && length < WORD
      modifies this`countLo, this`countHi
      ensures Counts(countLo, countHi, |message| + length)
    {
      CountAdds(countLo, countHi, |message|, length);
      hide Counts;
      var before := countLo;
      countLo := (countLo + 8 * length % WORD) % WORD;
      if countLo < before {
        countHi := (countHi + 1) % WORD;
      }
      countHi := (countHi + length / 0x2000_0000) % WORD;
    }

    method Update(data: Bytes)
      requires Valid() && |data| < 0x7FFF_FFC0
      modifies this, buf
      ensures Valid() && message == old(message) + data
    {
      hide Compress, Absorb, Rest, Counts, Left;
      Absorbed(data);
      Count(|data|);
      message := message + data;
    }

    /** Ends the message and writes the chaining value out. */
    method Final(digest: array<bv8>)
      requires Valid() && digest.Length == 20 && digest != buf
      modifies this, buf, digest
      ensures digest[..] == Digest(old(message))
      ensures h == Chain(0, 0, 0, 0, 0) && countLo == 0 && countHi == 0
      ensures forall k :: 0 <= k < buf.Length ==> buf[k] == 0
    {
      hide Digest, ChainBytes;
      Complete();
      WriteWords(h, digest);
      Clear();
    }

    /** Appends the 0x80, the zeros and the length from before. */
    method Complete()
      requires Valid()
      modifies this, buf
      ensures ChainBytes(h) == Digest(old(message))
    {
      ghost var m := message;
      ValidFacts();
      hide *;
      var counter := CounterBytes(countHi, countLo);
      Pad();
      Update(counter);
      ValidFacts();
      DigestIs(m, counter);
    }

    lemma ValidFacts()
      requires Valid()
      ensures countHi < WORD && countLo < WORD && Joined(countLo, countHi) == BitCount(|message|)
      ensures h == Absorb(Compress, IV, message)
    {
      hide Compress, Absorb, Rest, Left, BitCount, Joined;
    }

    method Clear()
      modifies this`h, this`countLo, this`countHi, buf
      ensures h == Chain(0, 0, 0, 0, 0) && countLo == 0 && countHi == 0
      ensures forall k :: 0 <= k < buf.Length ==> buf[k] == 0
    {
      h, countLo, countHi := Chain(0, 0, 0, 0, 0), 0, 0;
      forall k | 0 <= k < buf.Length {
        buf[k] := 0;
      }
    }

    /** The 0x80, then zeros while the counter does not say 56 bytes behind a block boundary. */
    method Pad()
      requires Valid()
      modifies this, buf
      ensures Valid() && message == old(message) + [0x80] + Zeros(PadZeros(|old(message)|))
    {
      hide Compress, Absorb, Rest, Counts, Left, PadZeros, BitCount;
      ghost var n, k: nat := |message|, 0;
      Update([0x80]);
      CountOffset(countLo, countHi, |message|);
      PadZerosFit(n, 0);
      while countLo / 8 % 64 != 56
        invariant Valid() && k <= PadZeros(n)
        invariant message == old(message) + [0x80] + Zeros(k) && |message| == n + 1 + k
        invariant countLo / 8 % 64 == Left(n + 1 + k)
        invariant LeavesEight(n, k) <==> k == PadZeros(n)
        decreases PadZeros(n) - k
      {
        Update([0]);
        k := k + 1;
        CountOffset(countLo, countHi, |message|);
        PadZerosFit(n, k);
      }
    }
  }

  function Power256(k: nat): (r: nat)
    ensures r > 0
  {
    if k == 0 then 1 else 0x100 * Power256(k - 1)
  }

  /** A shift to the right by `j` bytes. */
  function Shift(v: nat, j: nat): nat {
    if j == 0 then v else Shift(v / 0x100, j - 1)
  }

  lemma {:induction false} BigByteAt(v: nat, k: nat, d: nat)
    requires d < k
    ensures BigBytes(v, k)[d] == LowByte(Shift(v, k - 1 - d))
  {
    hide LowByte;
    if d < k - 1 {
      BigByteAt(v / 0x100, k - 1, d);
    }
  }

  /** A shift to the left by `j` bytes. */
  function ShiftUp(v: nat, j: nat): nat {
    if j == 0 then v else 0x100 * ShiftUp(v, j - 1)
  }

  /** Two numbers behind each other. */
  lemma {:induction false} BigBytesJoin(hi: nat, lo: nat, j: nat, k: nat)
    requires lo < Power256(k)
    ensures BigBytes(ShiftUp(hi, k) + lo, j + k) == BigBytes(hi, j) + BigBytes(lo, k)
  {
    if k > 0 {
      var m := ShiftUp(hi, k - 1);
      assert ShiftUp(hi, k) == 0x100 * m && Power256(k) == 0x100 * Power256(k - 1);
      hide LowByte, Power256, BigBytes, ShiftUp;
      assert lo / 0x100 < Power256(k - 1);
      BigBytesJoin(hi, lo / 0x100, j, k - 1);
      LowBytes(m, lo);
      BigBytesUnfold(0x100 * m + lo, j + k);
      BigBytesUnfold(lo, k);
      assert BigBytes(hi, j) + (BigBytes(lo / 0x100, k - 1) + [LowByte(lo)])
          == BigBytes(hi, j) + BigBytes(lo / 0x100, k - 1) + [LowByte(lo)];
    }
  }

  lemma BigBytesUnfold(v: nat, k: nat)
    requires k > 0
    ensures BigBytes(v, k) == BigBytes(v / 0x100, k - 1) + [LowByte(v)]
  {
    hide LowByte;
  }

  lemma LowBytes(m: nat, lo: nat)
    ensures (0x100 * m + lo) / 0x100 == m + lo / 0x100 && LowByte(0x100 * m + lo) == LowByte(lo)
  {
    LowDigits(m, lo);
    SameLow(0x100 * m + lo, lo);
    hide LowByte;
  }

  lemma LowDigits(m: nat, lo: nat)
    ensures (0x100 * m + lo) / 0x100 == m + lo / 0x100 && (0x100 * m + lo) % 0x100 == lo % 0x100
  {}

  lemma SameLow(v: nat, w: nat)
    requires v % 0x100 == w % 0x100
    ensures LowByte(v) == LowByte(w)
  {}

  /** The number bytes stand for, most significant first. */
  function BigValue(s: Bytes): nat {
    if s == [] then 0 else 0x100 * BigValue(s[..|s| - 1]) + s[|s| - 1] as nat
  }

  /** Every number below 0x100 is a byte's. */
  lemma {:induction false} HasByte(n: nat) returns (y: bv8)
    requires n < 0x100
    ensures y as nat == n
  {
    y := 0;
    if n > 0 {
      y := HasByte(n - 1);
      NextByte(y);
      y := y + 1;
    }
  }

  lemma NextByte(y: bv8)
    ensures y as nat < 0xff ==> (y + 1) as nat == y as nat + 1
  {}

  lemma ByteBack(y: bv8)
    ensures (y as nat) as bv8 == y
  {}

  lemma LowByteIs(v: nat)
    ensures LowByte(v) as nat == v % 0x100
  {
    var y := HasByte(v % 0x100);
    ByteBack(y);
  }

  /** Read back, the bytes of a number are the number. */
  lemma {:induction false} BigBytesBack(v: nat, k: nat)
    requires v < Power256(k)
    ensures BigValue(BigBytes(v, k)) == v
  {
    if k > 0 {
      LowByteIs(v);
      hide LowByte;
      assert v / 0x100 < Power256(k - 1);
      BigBytesBack(v / 0x100, k - 1);
    }
  }

  lemma ShiftUpWord(hi: nat)
    ensures ShiftUp(hi, 4) == hi * WORD
  {
    assert ShiftUp(hi, 1) == 0x100 * hi;
    assert ShiftUp(hi, 2) == 0x100 * ShiftUp(hi, 1);
    assert ShiftUp(hi, 3) == 0x100 * ShiftUp(hi, 2);
  }

  lemma CounterJoin(hi: nat, lo: nat, counter: Bytes)
    requires lo < WORD && |counter| == 8
    requires forall j :: 0 <= j < 4 ==> counter[j] == BigBytes(hi, 4)[j] && counter[4 + j] == BigBytes(lo, 4)[j]
    ensures counter == BigBytes(Joined(lo, hi), 8)
  {
    assert Power256(4) == WORD;
    ShiftUpWord(hi);
    BigBytesJoin(hi, lo, 4, 4);
    hide BigBytes, Power256, ShiftUp;
    assert counter[..4] == BigBytes(hi, 4);
    forall j | 0 <= j < 4
      ensures counter[4..][j] == BigBytes(lo, 4)[j]
    {
      assert counter[4..][j] == counter[4 + j];
    }
    assert counter[4..] == BigBytes(lo, 4);
    assert counter == counter[..4] + counter[4..];
  }

  /** The eight bytes of the counter, the high word first. */
  method CounterBytes(hi: nat, lo: nat) returns (counter: Bytes)
    requires hi < WORD && lo < WORD
    ensures counter == BigBytes(Joined(lo, hi), 8)
  {
    hide BigBytes, LowByte, Shift, Joined;
    var bytes := new bv8[8];
    for d := 0 to 4
      invariant forall j :: 0 <= j < d ==> bytes[j] == BigBytes(hi, 4)[j] && bytes[4 + j] == BigBytes(lo, 4)[j]
    {
      BigByteAt(hi, 4, d);
      BigByteAt(lo, 4, d);
      bytes[d] := LowByte(Shift(hi, 3 - d));
      bytes[d + 4] := LowByte(Shift(lo, 3 - d));
    }
    counter := bytes[..];
    CounterJoin(hi, lo, counter);
  }

  lemma WordBytesAt(x: bv32, j: nat)
    requires j < 4
    ensures WordBytes(x)[j] == WordByte(x, j)
  {
    hide WordByte;
    if j == 0 {
    } else if j == 1 {
    } else if j == 2 {
    }
  }

  lemma ChainByte(h: Chain, d: nat)
    requires d < 20
    ensures ChainBytes(h)[d] == WordByte([h.a, h.b, h.c, h.d, h.e][d / 4], d % 4)
  {
    hide WordByte, WordBytes;
    if d < 4 {
      WordBytesAt(h.a, d);
    } else if d < 8 {
      WordBytesAt(h.b, d - 4);
    } else if d < 12 {
      WordBytesAt(h.c, d - 8);
    } else if d < 16 {
      WordBytesAt(h.d, d - 12);
    } else {
      WordBytesAt(h.e, d - 16);
    }
  }

  method WriteWords(h: Chain, digest: array<bv8>)
    requires digest.Length == 20
    modifies digest
    ensures digest[..] == ChainBytes(h)
  {
    hide WordByte, ChainBytes;
    var words := [h.a, h.b, h.c, h.d, h.e];
    for d := 0 to 20
      invariant digest[..d] == ChainBytes(h)[..d]
    {
      ChainByte(h, d);
      digest[d] := WordByte(words[d / 4], d % 4);
    }
  }

  method Hash(data: Bytes, digest: array<bv8>)
    requires |data| < 0x7FFF_FFC0 && digest.Length == 20
    modifies digest
    ensures digest[..] == Digest(data)
  {
    hide Digest;
    var context := new Context();
    context.Update(data);
    assert context.message == data;
    context.Final(digest);
  }

  /** However the message is cut into pieces, the digest is that of the whole. */
  method HashParts(parts: seq<Bytes>, digest: array<bv8>)
    requires (forall i :: 0 <= i < |parts| ==> |parts[i]| < 0x7FFF_FFC0) && digest.Length == 20
    modifies digest
    ensures digest[..] == Digest(Flatten(parts))
  {
    hide Digest;
    var context := new Context();
    for i := 0 to |parts|
      invariant context.Valid() && fresh(context) && fresh(context.buf)
      invariant context.message == Flatten(parts[..i])
    {
      assert parts[..i + 1][..i] == parts[..i];
      context.Update(parts[i]);
    }
    assert parts[..|parts|] == parts;
    context.Final(digest);
  }
}
