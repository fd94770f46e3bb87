/** MD5 of a message that arrives in pieces. */
module Md5Stream {
  import opened Chunks
  import opened HashStream
  import opened Md5

  /** The length field of section 3.2 of RFC 1321: the low-order word first. */
  function LengthBytes(n: nat): (r: Bytes)
    ensures |r| == 8
  {
    WordsBytes(BitCount(n) % WORD, BitCount(n) / WORD)
  }

  function WordsBytes(lo: nat, hi: nat): (r: Bytes)
    requires lo < WORD && hi < WORD
    ensures |r| == 8
  {
    Encoded(Words(lo, hi))
  }

  function Words(lo: nat, hi: nat): (r: seq<bv32>)
    requires lo < WORD && hi < WORD
    ensures |r| == 2
  {
    [lo as bv32, hi as bv32]
  }

  function StateBytes(s: State): (r: Bytes)
    ensures |r| == 16
  {
    Encoded([s.a, s.b, s.c, s.d])
  }

  /** The digest of RFC 1321: pad, compress block by block, write the words out. */
  function Digest(m: Bytes): Bytes {
    StateBytes(Absorb(Compress, IV, Padded(m, LengthBytes(|m|))))
  }

  lemma CounterIs(lo: nat, hi: nat, n: nat)
    requires Counts(lo, hi, n)
    ensures lo < WORD && hi < WORD && WordsBytes(lo, hi) == LengthBytes(n)
  {
    hide Encoded, BitCount, Words;
    assert BitCount(n) == hi * WORD + lo;
    assert BitCount(n) % WORD == lo && BitCount(n) / WORD == hi;
  }

  lemma DigestIs(m: Bytes, padding: Bytes)
    requires padding == [0x80] + Zeros(PadZeros(|m|))
    ensures Digest(m) == StateBytes(Absorb(Compress, IV, m + padding + LengthBytes(|m|)))
  {
    hide Compress, Absorb, StateBytes, LengthBytes;
    assert m + [0x80] + Zeros(PadZeros(|m|)) == m + padding;
  }

  /** The first bytes of the padding array. */
  lemma {:induction false} ZerosPrefix(k: nat, n: nat)
    requires k <= n
    ensures |Zeros(n)| == n && Zeros(n)[..k] == Zeros(k)
  {
    if n > 0 {
      if k < n {
        ZerosPrefix(k, n - 1);
        assert Zeros(n)[..k] == Zeros(n - 1)[..k];
      } else {
        ZerosPrefix(n - 1, n - 1);
      }
    }
  }

  const PADDING: Bytes := [0x80] + Zeros(63)

  lemma PaddingIs(n: nat, padlen: nat)
    requires padlen == if Left(n) < 56 then 56 - Left(n) else 120 - Left(n)
    ensures padlen <= |PADDING| == 64 && PADDING[..padlen] == [0x80] + Zeros(PadZeros(n))
  {
    ZerosPrefix(PadZeros(n), 63);
    hide Zeros;
    assert PADDING[..padlen] == [0x80] + Zeros(63)[..PadZeros(n)];
  }

  class Context {
    var state: State
    var countLo: nat
    var countHi: nat
    const buffer: array<bv8>
    ghost var message: Bytes

    ghost predicate Valid()
      reads this`state, this`countLo, this`countHi, this`message, buffer
    {
      && buffer.Length == 64
      && state == Absorb(Compress, IV, message)
      && buffer[..Left(|message|)] == Rest(message)
      && Counts(countLo, countHi, |message|)
    }

    constructor ()
      ensures Valid() && message == [] && fresh(buffer)
    {
      hide Compress, Absorb, Rest, Left, Counts;
      buffer := new bv8[64];
      state := IV;
      countLo, countHi := 0, 0;
      message := [];
      AbsorbNothing(Compress, IV);
      new;
      assert buffer[..0] == [];
    }

    /** Adds the bits of `length` bytes to the counter. */
    method Count(length: nat)
      requires Counts(countLo, countHi, |message|) && length < WORD
      modifies this`countLo, this`countHi
      ensures Counts(countLo, countHi, |message| + length)
    {
      CountAdds(countLo, countHi, |message|, length);
      assert countLo < WORD;
      Carry(countLo, 8 * length % WORD);
      hide Counts;
      countLo := (countLo + 8 * length % WORD) % WORD;
      if countLo < 8 * length % WORD {
        countHi := (countHi + 1) % WORD;
      }
      countHi := (countHi + length / 0x2000_0000) % WORD;
    }

    /** Compresses the whole blocks of `input` from `from` on, where a block ends. */
    method Blocks(input: Bytes, from: nat) returns (i: nat)
      requires from <= |input| < WORD - 64
      requires Left(|message + input[..from]|) == 0 && state == Absorb(Compress, IV, message + input[..from])
      modifies this`state
      ensures from <= i <= |input| < i + 64
      ensures Left(|message + input[..i]|) == 0 && state == Absorb(Compress, IV, message + input[..i])
    {
      hide Compress, Absorb, Rest, Left;
      i := from;
      ghost var done := message + input[..i];
      while i + 64 <= |input|
        invariant from <= i <= |input|
        invariant done == message + input[..i] && Left(|done|) == 0
        invariant state == Absorb(Compress, IV, done)
      {
        var block := input[i..i + 64];
        AbsorbFill(Compress, IV, done, block);
        assert Rest(done) + block == block;
        assert done + block == message + input[..i + 64];
        state := Transform(state, block);
        i := i + 64;
        done := done + block;
      }
    }

    /** Compresses the whole blocks of the message and `input`, and keeps the rest in the buffer. */
    method Absorbed(input: Bytes, at: nat)
      requires at == Left(|message|) && |input| < WORD - 64 && buffer.Length == 64
      requires state == Absorb(Compress, IV, message) && buffer[..at] == Rest(message)
      modifies this`state, buffer
      ensures state == Absorb(Compress, IV, message + input)
      ensures buffer[..Left(|message + input|)] == Rest(message + input)
    {
      hide Compress, Absorb, Rest, Left;
      var index, i := at, 0;
      var partlen := 64 - index;
      assert message + input[..0] == message;
      if |input| >= partlen {
        CopyTo(buffer, index, input[..partlen]);
        assert buffer[..] == buffer[..64];
        AbsorbFill(Compress, IV, message, input[..partlen]);
        state := Transform(state, buffer[..]);
        i := Blocks(input, partlen);
        index := 0;
      }
      ghost var done := message + input[..i];
      assert done + input[i..] == message + input;
      AbsorbFew(Compress, IV, done, input[i..]);
      assert buffer[..index] == Rest(done);
      CopyTo(buffer, index, input[i..]);
    }

    method Update(input: Bytes)
      requires Valid() && |input| < WORD - 64
      modifies this, buffer
      ensures Valid() && message == old(message) + input
    {
      CountOffset(countLo, countHi, |message|);
      var index := countLo / 8 % 64;
      Count(|input|);
      Absorbed(input, index);
      message := message + input;
      hide Compress, Absorb, Rest, Counts, Left;
    }

    /** Appends the 0x80, the zeros and the length, and writes the chaining value out. */
    method Final(digest: array<bv8>)
      requires Valid() && digest.Length == 16 && digest != buffer
      modifies this, buffer, digest
      ensures digest[..] == Digest(old(message))
    {
      hide Digest, Encoded;
      Complete();
      Encode(digest, [state.a, state.b, state.c, state.d]);
    }

    method Complete()
      requires Valid()
      modifies this, buffer
      ensures StateBytes(state) == Digest(old(message))
    {
      ghost var m := message;
      CountOffset(countLo, countHi, |m|);
      assert WORD == 0x1_0000_0000;
      hide *;
      var index := countLo / 8 % 64;
      var padlen := if index < 56 then 56 - index else 120 - index;
      PaddingIs(|m|, padlen);
      DigestIs(m, PADDING[..padlen]);
      var bits := LengthField();
      Update(PADDING[..padlen]);
      Update(bits);
      StateIs();
    }

    /** The two words of the counter as they go behind the padding. */
    method LengthField() returns (bits: Bytes)
      requires Valid()
      ensures bits == LengthBytes(|message|)
    {
      CounterIs(countLo, countHi, |message|);
      hide Encoded, BitCount, Counts, Words;
      var bytes := new bv8[8];
      Encode(bytes, Words(countLo, countHi));
      bits := bytes[..];
    }

    lemma StateIs()
      requires Valid()
      ensures state == Absorb(Compress, IV, message)
    {
      hide Compress, Absorb, Rest, Left, Counts;
    }
  }

  method Hash(data: Bytes, digest: array<bv8>)
    requires |data| < WORD - 64 && digest.Length == 16
    modifies digest
    ensures digest[..] == Digest(data)
  {
    hide Digest;
    var context := new Context();
    context.Update(data);
    assert context.message == data;
    context.Final(digest);
  }

  /** However the message is cut into pieces, the digest is that of the whole. */
  method HashParts(parts: seq<Bytes>, digest: array<bv8>)
    requires (forall i :: 0 <= i < |parts| ==> |parts[i]| < WORD - 64) && digest.Length == 16
    modifies digest
    ensures digest[..] == Digest(Flatten(parts))
  {
    hide Digest;
    var context := new Context();
    for i := 0 to |parts|
      invariant context.Valid() && fresh(context) && fresh(context.buffer)
      invariant context.message == Flatten(parts[..i])
    {
      assert parts[..i + 1][..i] == parts[..i];
      context.Update(parts[i]);
    }
    assert parts[..|parts|] == parts;
    context.Final(digest);
  }
}
