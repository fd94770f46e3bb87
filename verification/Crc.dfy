/** The CRC functions: the table loops against bit-at-a-time division, and which errors cannot go
    unnoticed. */
module Crc {
  import opened CrcTables

  type Bytes = seq<bv8>

  // ----- CRC-32 -----

  function Xor32(x: bv32, y: bv32): bv32 { x ^ y }

  /** `n` steps of the division. */
  function Bits32(v: bv32, n: nat): bv32
    decreases n
  {
    if n == 0 then v else Bits32(Bit32(v), n - 1)
  }

  /** A byte as it enters the division, low bit first. */
  function Enter32(b: bv8): bv32 { b as bv32 }

  function Divide32(v: bv32, s: Bytes): bv32 {
    if s == [] then v else Bits32(Xor32(Divide32(v, s[..|s| - 1]), Enter32(s[|s| - 1])), 8)
  }

  lemma ShiftXor32(x: bv32, y: bv32)
    ensures (x ^ y) >> 1 == (x >> 1) ^ (y >> 1)
    ensures (x ^ y) & 1 == 1 <==> ((x & 1 == 1) != (y & 1 == 1))
  {}

  lemma Regroup32(p: bv32, q: bv32, k: bv32)
    ensures (p ^ k) ^ (q ^ k) == p ^ q
    ensures (p ^ k) ^ q == (p ^ q) ^ k && p ^ (q ^ k) == (p ^ q) ^ k
  {}

  lemma BitXor32(x: bv32, y: bv32)
    ensures Bit32(x ^ y) == Bit32(x) ^ Bit32(y)
  {
    ShiftXor32(x, y);
    Regroup32(x >> 1, y >> 1, 0xedb88320);
    if x & 1 == 1 {
      if y & 1 == 1 {
      } else {
      }
    } else {
      if y & 1 == 1 {
      } else {
      }
    }
  }

  lemma BitLinear32(x: bv32, y: bv32)
    ensures Bit32(Xor32(x, y)) == Xor32(Bit32(x), Bit32(y))
  {
    BitXor32(x, y);
    hide Bit32;
  }

  /** The bit shifted out can be read off the result. */
  lemma BitTells32(x: bv32, y: bv32)
    ensures (x >> 1) ^ 0xedb88320 != y >> 1 && x >> 1 != (y >> 1) ^ 0xedb88320
    ensures (x >> 1) ^ 0xedb88320 == (y >> 1) ^ 0xedb88320 ==> x >> 1 == y >> 1
    ensures x >> 1 == y >> 1 && (x & 1 == 1 <==> y & 1 == 1) ==> x == y
  {}

  lemma BitInjective32(x: bv32, y: bv32)
    ensures Bit32(x) == Bit32(y) ==> x == y
  {
    BitTells32(x, y);
    if x & 1 == 1 {
      if y & 1 == 1 {
      } else {
      }
    } else {
      if y & 1 == 1 {
      } else {
      }
    }
  }

  lemma EightUnrolled32(v: bv32)
    ensures Bits32(v, 8) == Eight32(v)
  {
    hide Bit32;
    var v4 := Bit32(Bit32(Bit32(Bit32(v))));
    assert Bits32(v4, 4) == Bit32(Bit32(Bit32(Bit32(v4)))) by {
      assert Bits32(Bit32(Bit32(v4)), 2) == Bit32(Bit32(Bit32(Bit32(v4))));
    }
    assert Bits32(Bit32(Bit32(v)), 6) == Bits32(v4, 4);
  }

  lemma {:induction false} BitsLinear32(x: bv32, y: bv32, n: nat)
    ensures Bits32(Xor32(x, y), n) == Xor32(Bits32(x, n), Bits32(y, n))
    decreases n
  {
    if n > 0 {
      BitLinear32(x, y);
      hide Bit32, Xor32;
      BitsLinear32(Bit32(x), Bit32(y), n - 1);
    }
  }

  lemma {:induction false} BitsInjective32(x: bv32, y: bv32, n: nat)
    ensures Bits32(x, n) == Bits32(y, n) ==> x == y
    decreases n
  {
    if n > 0 {
      BitInjective32(x, y);
      hide Bit32;
      BitsInjective32(Bit32(x), Bit32(y), n - 1);
    }
  }

  /** Which entry of the table a byte selects. */
  function Index32(v: bv32, b: bv8): bv8 { ((v ^ (b as bv32)) & 0xff) as bv8 }

  function Lift32(i: bv8): bv32 { i as bv32 }

  function Kept32(v: bv32): bv32 { v >> 8 }

  /** The bits the index does not see. */
  function Unseen32(v: bv32): bv32 { (v >> 8) << 8 }

  /** One round of the table loop. */
  function Lookup32(v: bv32, b: bv8): bv32 { Xor32(Table32(Index32(v, b)), Kept32(v)) }

  lemma Split32(v: bv32, b: bv8)
    ensures v ^ (b as bv32) == ((((v ^ (b as bv32)) & 0xff) as bv8) as bv32) ^ ((v >> 8) << 8)
  {}

  /** Eight zero bits leave without a trace. */
  lemma ShiftOut32(w: bv32)
    requires w < 0x100_0000
    ensures Eight32(w << 8) == w
  {}

  lemma Shifted32(v: bv32)
    ensures v >> 8 < 0x100_0000
  {}

  lemma Parts32(v: bv32, b: bv8)
    ensures Xor32(v, Enter32(b)) == Xor32(Lift32(Index32(v, b)), Unseen32(v))
  {
    Split32(v, b);
    assert Enter32(b) == b as bv32;
    assert Index32(v, b) == ((v ^ (b as bv32)) & 0xff) as bv8;
    assert Lift32(Index32(v, b)) == (((v ^ (b as bv32)) & 0xff) as bv8) as bv32;
    assert Unseen32(v) == (v >> 8) << 8;
    hide Enter32, Index32, Lift32, Unseen32;
  }

  lemma Entries32(v: bv32, i: bv8)
    ensures Eight32(Unseen32(v)) == Kept32(v) && Eight32(Lift32(i)) == Table32(i)
  {
    ShiftOut32(v >> 8);
    Shifted32(v);
    Table32Entry(i);
    hide Eight32, Table32;
  }

  /** A look into the table is eight steps of the division. */
  lemma TableStep32(v: bv32, b: bv8)
    ensures Lookup32(v, b) == Bits32(Xor32(v, Enter32(b)), 8)
  {
    var i := Index32(v, b);
    Parts32(v, b);
    Entries32(v, i);
    hide Eight32, Table32, Index32, Lift32, Kept32, Unseen32, Enter32, Bits32, Xor32;
    BitsLinear32(Lift32(i), Unseen32(v), 8);
    EightUnrolled32(Lift32(i));
    EightUnrolled32(Unseen32(v));
  }

  method LocalCrc32(val: bv32, s: Bytes) returns (crc: bv32)
    ensures crc == Divide32(val, s)
  {
    hide Lookup32, Bits32, Xor32, Enter32;
    crc := val;
    for i := 0 to |s|
      invariant crc == Divide32(val, s[..i])
    {
      TableStep32(crc, s[i]);
      assert s[..i + 1][..i] == s[..i];
      crc := Lookup32(crc, s[i]);
    }
    assert s[..|s|] == s;
  }

  lemma {:induction false} DivideAppend32(v: bv32, s: Bytes, t: Bytes)
    ensures Divide32(v, s + t) == Divide32(Divide32(v, s), t)
  {
    hide Bits32, Xor32, Enter32;
    if t == [] {
      assert s + t == s;
    } else {
      var n := |t| - 1;
      DivideAppend32(v, s, t[..n]);
      assert (s + t)[..|s + t| - 1] == s + t[..n];
    }
  }

  /** What follows keeps different remainders different. */
  lemma {:induction false} DivideInjective32(v: bv32, w: bv32, s: Bytes)
    ensures Divide32(v, s) == Divide32(w, s) ==> v == w
  {
    if s != [] {
      var n, b := |s| - 1, Enter32(s[|s| - 1]);
      var x, y := Divide32(v, s[..n]), Divide32(w, s[..n]);
      XorInjective32(x, y, b);
      hide Bits32, Xor32, Enter32;
      BitsInjective32(Xor32(x, b), Xor32(y, b), 8);
      DivideInjective32(v, w, s[..n]);
    }
  }

  lemma XorInjective32(x: bv32, y: bv32, b: bv32)
    ensures Xor32(x, b) == Xor32(y, b) ==> x == y
  {}

  // ----- CRC-16 -----

  function Xor16(x: bv16, y: bv16): bv16 { x ^ y }

  /** `n` steps of the division. */
  function Bits16(v: bv16, n: nat): bv16
    decreases n
  {
    if n == 0 then v else Bits16(Bit16(v), n - 1)
  }

  /** A byte as it enters the division, high bit first. */
  function Enter16(b: bv8): bv16 { (b as bv16) << 8 }

  function Divide16(v: bv16, s: Bytes): bv16 {
    if s == [] then v else Bits16(Xor16(Divide16(v, s[..|s| - 1]), Enter16(s[|s| - 1])), 8)
  }

  lemma ShiftXor16(x: bv16, y: bv16)
    ensures (x ^ y) << 1 == (x << 1) ^ (y << 1)
    ensures (x ^ y) & 0x8000 == 0x8000 <==> ((x & 0x8000 == 0x8000) != (y & 0x8000 == 0x8000))
  {}

  lemma Regroup16(p: bv16, q: bv16, k: bv16)
    ensures (p ^ k) ^ (q ^ k) == p ^ q
    ensures (p ^ k) ^ q == (p ^ q) ^ k && p ^ (q ^ k) == (p ^ q) ^ k
  {}

  lemma BitXor16(x: bv16, y: bv16)
    ensures Bit16(x ^ y) == Bit16(x) ^ Bit16(y)
  {
    ShiftXor16(x, y);
    Regroup16(x << 1, y << 1, 0x1021);
    if x & 0x8000 == 0x8000 {
      if y & 0x8000 == 0x8000 {
      } else {
      }
    } else {
      if y & 0x8000 == 0x8000 {
      } else {
      }
    }
  }

  lemma BitLinear16(x: bv16, y: bv16)
    ensures Bit16(Xor16(x, y)) == Xor16(Bit16(x), Bit16(y))
  {
    BitXor16(x, y);
    hide Bit16;
  }

  /** The bit shifted out can be read off the result. */
  lemma BitTells16(x: bv16, y: bv16)
    ensures (x << 1) ^ 0x1021 != y << 1 && x << 1 != (y << 1) ^ 0x1021
    ensures (x << 1) ^ 0x1021 == (y << 1) ^ 0x1021 ==> x << 1 == y << 1
    ensures x << 1 == y << 1 && (x & 0x8000 == 0x8000 <==> y & 0x8000 == 0x8000) ==> x == y
  {}

  lemma BitInjective16(x: bv16, y: bv16)
    ensures Bit16(x) == Bit16(y) ==> x == y
  {
    BitTells16(x, y);
    if x & 0x8000 == 0x8000 {
      if y & 0x8000 == 0x8000 {
      } else {
      }
    } else {
      if y & 0x8000 == 0x8000 {
      } else {
      }
    }
  }

  lemma EightUnrolled16(v: bv16)
    ensures Bits16(v, 8) == Eight16(v)
  {
    hide Bit16;
    var v4 := Bit16(Bit16(Bit16(Bit16(v))));
    assert Bits16(v4, 4) == Bit16(Bit16(Bit16(Bit16(v4)))) by {
      assert Bits16(Bit16(Bit16(v4)), 2) == Bit16(Bit16(Bit16(Bit16(v4))));
    }
    assert Bits16(Bit16(Bit16(v)), 6) == Bits16(v4, 4);
  }

  lemma {:induction false} BitsLinear16(x: bv16, y: bv16, n: nat)
    ensures Bits16(Xor16(x, y), n) == Xor16(Bits16(x, n), Bits16(y, n))
    decreases n
  {
    if n > 0 {
      BitLinear16(x, y);
      hide Bit16, Xor16;
      BitsLinear16(Bit16(x), Bit16(y), n - 1);
    }
  }

  lemma {:induction false} BitsInjective16(x: bv16, y: bv16, n: nat)
    ensures Bits16(x, n) == Bits16(y, n) ==> x == y
    decreases n
  {
    if n > 0 {
      BitInjective16(x, y);
      hide Bit16;
      BitsInjective16(Bit16(x), Bit16(y), n - 1);
    }
  }

  /** Which entry of the table a byte selects. */
  function Index16(v: bv16, b: bv8): bv8 { (((v >> 8) ^ (b as bv16)) & 0xff) as bv8 }

  function Lift16(i: bv8): bv16 { (i as bv16) << 8 }

  function Kept16(v: bv16): bv16 { v << 8 }

  /** The bits the index does not see. */
  function Unseen16(v: bv16): bv16 { v & 0xff }

  /** One round of the table loop. */
  function Lookup16(v: bv16, b: bv8): bv16 { Xor16(Table16(Index16(v, b)), Kept16(v)) }

  lemma Split16(v: bv16, b: bv8)
    ensures v ^ ((b as bv16) << 8) == (((((v >> 8) ^ (b as bv16)) & 0xff) as bv8) as bv16 << 8) ^ (v & 0xff)
  {}

  /** Eight zero bits leave without a trace. */
  lemma ShiftOut16(w: bv16)
    requires w < 0x100
    ensures Eight16(w) == w << 8
  {}

  lemma Shifted16(v: bv16)
    ensures v & 0xff < 0x100 && (v & 0xff) << 8 == v << 8
  {}

  lemma Parts16(v: bv16, b: bv8)
    ensures Xor16(v, Enter16(b)) == Xor16(Lift16(Index16(v, b)), Unseen16(v))
  {
    Split16(v, b);
    assert Enter16(b) == (b as bv16) << 8;
    assert Index16(v, b) == (((v >> 8) ^ (b as bv16)) & 0xff) as bv8;
    assert Lift16(Index16(v, b)) == ((((v >> 8) ^ (b as bv16)) & 0xff) as bv8) as bv16 << 8;
    assert Unseen16(v) == v & 0xff;
    hide Enter16, Index16, Lift16, Unseen16;
  }

  lemma Entries16(v: bv16, i: bv8)
    ensures Eight16(Unseen16(v)) == Kept16(v) && Eight16(Lift16(i)) == Table16(i)
  {
    ShiftOut16(v & 0xff);
    Shifted16(v);
    Table16Entry(i);
    hide Eight16, Table16;
  }

  /** A look into the table is eight steps of the division. */
  lemma TableStep16(v: bv16, b: bv8)
    ensures Lookup16(v, b) == Bits16(Xor16(v, Enter16(b)), 8)
  {
    var i := Index16(v, b);
    Parts16(v, b);
    Entries16(v, i);
    hide Eight16, Table16, Index16, Lift16, Kept16, Unseen16, Enter16, Bits16, Xor16;
    BitsLinear16(Lift16(i), Unseen16(v), 8);
    EightUnrolled16(Lift16(i));
    EightUnrolled16(Unseen16(v));
  }

  method LocalCrc16(s: Bytes) returns (cksum: bv16)
    ensures cksum == Divide16(0, s)
  {
    hide Lookup16, Bits16, Xor16, Enter16;
    cksum := 0;
    for i := 0 to |s|
      invariant cksum == Divide16(0, s[..i])
    {
      TableStep16(cksum, s[i]);
      assert s[..i + 1][..i] == s[..i];
      cksum := Lookup16(cksum, s[i]);
    }
    assert s[..|s|] == s;
  }

  lemma {:induction false} DivideAppend16(v: bv16, s: Bytes, t: Bytes)
    ensures Divide16(v, s + t) == Divide16(Divide16(v, s), t)
  {
    hide Bits16, Xor16, Enter16;
    if t == [] {
      assert s + t == s;
    } else {
      var n := |t| - 1;
      DivideAppend16(v, s, t[..n]);
      assert (s + t)[..|s + t| - 1] == s + t[..n];
    }
  }

  /** What follows keeps different remainders different. */
  lemma {:induction false} DivideInjective16(v: bv16, w: bv16, s: Bytes)
    ensures Divide16(v, s) == Divide16(w, s) ==> v == w
  {
    if s != [] {
      var n, b := |s| - 1, Enter16(s[|s| - 1]);
      var x, y := Divide16(v, s[..n]), Divide16(w, s[..n]);
      XorInjective16(x, y, b);
      hide Bits16, Xor16, Enter16;
      BitsInjective16(Xor16(x, b), Xor16(y, b), 8);
      DivideInjective16(v, w, s[..n]);
    }
  }

  lemma XorInjective16(x: bv16, y: bv16, b: bv16)
    ensures Xor16(x, b) == Xor16(y, b) ==> x == y
  {}

  // ----- Bursts, CRC-32 -----

  function Up32(w: bv32): bv32 { w << 8 }

  /** Up to 4 bytes as they lie in the register, the first where it enters. */
  function Word32(x: Bytes): bv32 {
    if x == [] then 0 else Xor32(Enter32(x[0]), Up32(Word32(x[1..])))
  }

  predicate Room32(w: bv32) { w < 0x100_0000 }

  lemma {:induction false} WordBound32(x: Bytes)
    ensures |x| <= 1 ==> Word32(x) < 0x100
    ensures |x| <= 2 ==> Word32(x) < 0x1_0000
    ensures |x| <= 3 ==> Word32(x) < 0x100_0000
  {
    if x != [] {
      WordBound32(x[1..]);
      EnterBound32(x[0], Word32(x[1..]));
    }
  }

  lemma EnterBound32(b: bv8, w: bv32)
    ensures w == 0 ==> (b as bv32) ^ (w << 8) < 0x100
    ensures w < 0x100 ==> (b as bv32) ^ (w << 8) < 0x1_0000
    ensures w < 0x1_0000 ==> (b as bv32) ^ (w << 8) < 0x100_0000
  {}

  lemma WordRoom32(x: Bytes)
    requires |x| < 4
    ensures Room32(Word32(x))
  {
    WordBound32(x);
    hide Word32;
  }

  lemma FirstByte32(b: bv8, c: bv8, w: bv32, u: bv32)
    requires Room32(w) && Room32(u)
    ensures Xor32(Enter32(b), Up32(w)) == Xor32(Enter32(c), Up32(u)) ==> b == c && w == u
  {}

  lemma UpBits32(w: bv32)
    requires Room32(w)
    ensures Bits32(Up32(w), 8) == w
  {
    ShiftOut32(w);
    EightUnrolled32(Up32(w));
    hide Bits32, Eight32;
  }

  lemma XorOrder32(x: bv32, y: bv32, z: bv32)
    ensures Xor32(x, Xor32(y, z)) == Xor32(Xor32(x, y), z)
  {}

  lemma {:induction false} BitsAdd32(v: bv32, m: nat, n: nat)
    ensures Bits32(v, m + n) == Bits32(Bits32(v, m), n)
    decreases m
  {
    if m > 0 {
      hide Bit32;
      BitsAdd32(Bit32(v), m - 1, n);
    }
  }

  lemma DivideOne32(v: bv32, b: bv8)
    ensures Divide32(v, [b]) == Bits32(Xor32(v, Enter32(b)), 8)
  {
    hide Bits32, Xor32, Enter32;
    assert [b][..0] == [];
  }

  /** Few bytes might as well enter all at once. */
  lemma {:induction false} DivideWord32(v: bv32, x: Bytes)
    requires |x| <= 4
    ensures Divide32(v, x) == Bits32(Xor32(v, Word32(x)), 8 * |x|)
    decreases |x|
  {
    if x == [] {
      XorZero32(v);
    } else {
      hide Bits32, Xor32, Enter32, Up32, Room32, Divide32;
      var e, rest := Enter32(x[0]), x[1..];
      var w, u := Word32(rest), Bits32(Xor32(v, e), 8);
      WordRoom32(rest);
      UpBits32(w);
      assert Word32(x) == Xor32(e, Up32(w));
      assert x == [x[0]] + rest;
      DivideAppend32(v, [x[0]], rest);
      DivideOne32(v, x[0]);
      DivideWord32(u, rest);
      XorOrder32(v, e, Up32(w));
      BitsLinear32(Xor32(v, e), Up32(w), 8);
      BitsAdd32(Xor32(Xor32(v, e), Up32(w)), 8, 8 * |rest|);
    }
  }

  lemma XorZero32(v: bv32)
    ensures Xor32(v, 0) == v
  {}

  lemma {:induction false} WordInjective32(x: Bytes, y: Bytes)
    requires |x| == |y| <= 4 && Word32(x) == Word32(y)
    ensures x == y
    decreases |x|
  {
    if x != [] {
      WordRoom32(x[1..]);
      WordRoom32(y[1..]);
      FirstByte32(x[0], y[0], Word32(x[1..]), Word32(y[1..]));
      hide Xor32, Enter32, Up32, Room32;
      WordInjective32(x[1..], y[1..]);
      assert x == [x[0]] + x[1..] && y == [y[0]] + y[1..];
    }
  }

  /** Messages that differ within 4 consecutive bytes only never share a CRC. */
  lemma BurstDetected32(v: bv32, p: Bytes, x: Bytes, y: Bytes, s: Bytes)
    requires |x| == |y| <= 4
    ensures Divide32(v, p + x + s) == Divide32(v, p + y + s) <==> x == y
  {
    var u := Divide32(v, p);
    var a, b := Xor32(u, Word32(x)), Xor32(u, Word32(y));
    XorInjective32(Word32(x), Word32(y), u);
    XorCommutes32(Word32(x), u);
    XorCommutes32(Word32(y), u);
    hide Xor32, Bits32, Word32;
    DivideAppend32(v, p + x, s);
    DivideAppend32(v, p, x);
    DivideAppend32(v, p + y, s);
    DivideAppend32(v, p, y);
    DivideWord32(u, x);
    DivideWord32(u, y);
    DivideInjective32(Divide32(u, x), Divide32(u, y), s);
    BitsInjective32(a, b, 8 * |x|);
    if a == b {
      WordInjective32(x, y);
    }
  }

  lemma XorCommutes32(x: bv32, y: bv32)
    ensures Xor32(x, y) == Xor32(y, x)
  {}

  // ----- Bursts, CRC-16 -----

  function Up16(w: bv16): bv16 { w >> 8 }

  /** Up to 2 bytes as they lie in the register, the first where it enters. */
  function Word16(x: Bytes): bv16 {
    if x == [] then 0 else Xor16(Enter16(x[0]), Up16(Word16(x[1..])))
  }

  predicate Room16(w: bv16) { w & 0xff == 0 }

  lemma WordRoom16(x: Bytes)
    requires |x| < 2
    ensures Room16(Word16(x))
  {
    if x != [] {
      assert x[1..] == [];
    }
  }

  lemma FirstByte16(b: bv8, c: bv8, w: bv16, u: bv16)
    requires Room16(w) && Room16(u)
    ensures Xor16(Enter16(b), Up16(w)) == Xor16(Enter16(c), Up16(u)) ==> b == c && w == u
  {}

  lemma UpBits16(w: bv16)
    requires Room16(w)
    ensures Bits16(Up16(w), 8) == w
  {
    ShiftOut16(w >> 8);
    EightUnrolled16(Up16(w));
    hide Bits16, Eight16;
  }

  lemma XorOrder16(x: bv16, y: bv16, z: bv16)
    ensures Xor16(x, Xor16(y, z)) == Xor16(Xor16(x, y), z)
  {}

  lemma {:induction false} BitsAdd16(v: bv16, m: nat, n: nat)
    ensures Bits16(v, m + n) == Bits16(Bits16(v, m), n)
    decreases m
  {
    if m > 0 {
      hide Bit16;
      BitsAdd16(Bit16(v), m - 1, n);
    }
  }

  lemma DivideOne16(v: bv16, b: bv8)
    ensures Divide16(v, [b]) == Bits16(Xor16(v, Enter16(b)), 8)
  {
    hide Bits16, Xor16, Enter16;
    assert [b][..0] == [];
  }

  /** Few bytes might as well enter all at once. */
  lemma {:induction false} DivideWord16(v: bv16, x: Bytes)
    requires |x| <= 2
    ensures Divide16(v, x) == Bits16(Xor16(v, Word16(x)), 8 * |x|)
    decreases |x|
  {
    if x == [] {
      XorZero16(v);
    } else {
      hide Bits16, Xor16, Enter16, Up16, Room16, Divide16;
      var e, rest := Enter16(x[0]), x[1..];
      var w, u := Word16(rest), Bits16(Xor16(v, e), 8);
      WordRoom16(rest);
      UpBits16(w);
      assert Word16(x) == Xor16(e, Up16(w));
      assert x == [x[0]] + rest;
      DivideAppend16(v, [x[0]], rest);
      DivideOne16(v, x[0]);
      DivideWord16(u, rest);
      XorOrder16(v, e, Up16(w));
      BitsLinear16(Xor16(v, e), Up16(w), 8);
      BitsAdd16(Xor16(Xor16(v, e), Up16(w)), 8, 8 * |rest|);
    }
  }

  lemma XorZero16(v: bv16)
    ensures Xor16(v, 0) == v
  {}

  lemma {:induction false} WordInjective16(x: Bytes, y: Bytes)
    requires |x| == |y| <= 2 && Word16(x) == Word16(y)
    ensures x == y
    decreases |x|
  {
    if x != [] {
      WordRoom16(x[1..]);
      WordRoom16(y[1..]);
      FirstByte16(x[0], y[0], Word16(x[1..]), Word16(y[1..]));
      hide Xor16, Enter16, Up16, Room16;
      WordInjective16(x[1..], y[1..]);
      assert x == [x[0]] + x[1..] && y == [y[0]] + y[1..];
    }
  }

  /** Messages that differ within 2 consecutive bytes only never share a CRC. */
  lemma BurstDetected16(v: bv16, p: Bytes, x: Bytes, y: Bytes, s: Bytes)
    requires |x| == |y| <= 2
    ensures Divide16(v, p + x + s) == Divide16(v, p + y + s) <==> x == y
  {
    var u := Divide16(v, p);
    var a, b := Xor16(u, Word16(x)), Xor16(u, Word16(y));
    XorInjective16(Word16(x), Word16(y), u);
    XorCommutes16(Word16(x), u);
    XorCommutes16(Word16(y), u);
    hide Xor16, Bits16, Word16;
    DivideAppend16(v, p + x, s);
    DivideAppend16(v, p, x);
    DivideAppend16(v, p + y, s);
    DivideAppend16(v, p, y);
    DivideWord16(u, x);
    DivideWord16(u, y);
    DivideInjective16(Divide16(u, x), Divide16(u, y), s);
    BitsInjective16(a, b, 8 * |x|);
    if a == b {
      WordInjective16(x, y);
    }
  }

  lemma XorCommutes16(x: bv16, y: bv16)
    ensures Xor16(x, y) == Xor16(y, x)
  {}

  /** One byte more can hide: it changes the register by an entry of the table, and the others take that
      back. */
  lemma LongerMayHide32(v: bv32, x: Bytes)
    requires |x| == 4 && Word32(x) == Table32(1)
    ensures Divide32(v, [1] + x) == Divide32(v, [0] + ZEROS32)
  {
    var e1, e0 := Enter32(1), Enter32(0);
    var u, t := Bits32(v, 8), Table32(1);
    assert e1 == Lift32(1) && e0 == 0;
    XorZero32(v);
    XorZero32(u);
    XorTwice32(u, t);
    ZerosWord32();
    Entries32(v, 1);
    EightUnrolled32(e1);
    BitsLinear32(v, e1, 8);
    hide Bits32, Enter32, Xor32, Word32, Table32, Eight32, Lift32;
    DivideOne32(v, 1);
    DivideOne32(v, 0);
    DivideAppend32(v, [1], x);
    DivideAppend32(v, [0], ZEROS32);
    DivideWord32(Xor32(u, t), x);
    DivideWord32(u, ZEROS32);
  }

  const ZEROS32: Bytes := [0, 0, 0, 0]

  lemma ZerosWord32()
    ensures |ZEROS32| == 4 && Word32(ZEROS32) == 0
  {
    assert Word32([]) == 0;
    assert [0][1..] == [];
    assert Word32([0]) == 0x0;
    assert [0, 0][1..] == [0];
    assert Word32([0, 0]) == 0x0;
    assert [0, 0, 0][1..] == [0, 0];
    assert Word32([0, 0, 0]) == 0x0;
    assert [0, 0, 0, 0][1..] == [0, 0, 0];
    assert Word32([0, 0, 0, 0]) == 0x0;
  }

  lemma XorTwice32(x: bv32, y: bv32)
    ensures Xor32(Xor32(x, y), y) == x
  {}

  lemma HiddenBurst32(v: bv32)
    ensures Divide32(v, [1] + [0x96, 0x30, 0x07, 0x77]) == Divide32(v, [0] + [0, 0, 0, 0])
  {
    assert Word32([]) == 0;
    assert [0x77][1..] == [];
    assert Word32([0x77]) == 0x77;
    assert [0x07, 0x77][1..] == [0x77];
    assert Word32([0x07, 0x77]) == 0x7707;
    assert [0x30, 0x07, 0x77][1..] == [0x07, 0x77];
    assert Word32([0x30, 0x07, 0x77]) == 0x770730;
    assert [0x96, 0x30, 0x07, 0x77][1..] == [0x30, 0x07, 0x77];
    assert Word32([0x96, 0x30, 0x07, 0x77]) == 0x77073096;
    LongerMayHide32(v, [0x96, 0x30, 0x07, 0x77]);
  }

  /** One byte more can hide: it changes the register by an entry of the table, and the others take that
      back. */
  lemma LongerMayHide16(v: bv16, x: Bytes)
    requires |x| == 2 && Word16(x) == Table16(1)
    ensures Divide16(v, [1] + x) == Divide16(v, [0] + ZEROS16)
  {
    var e1, e0 := Enter16(1), Enter16(0);
    var u, t := Bits16(v, 8), Table16(1);
    assert e1 == Lift16(1) && e0 == 0;
    XorZero16(v);
    XorZero16(u);
    XorTwice16(u, t);
    ZerosWord16();
    Entries16(v, 1);
    EightUnrolled16(e1);
    BitsLinear16(v, e1, 8);
    hide Bits16, Enter16, Xor16, Word16, Table16, Eight16, Lift16;
    DivideOne16(v, 1);
    DivideOne16(v, 0);
    DivideAppend16(v, [1], x);
    DivideAppend16(v, [0], ZEROS16);
    DivideWord16(Xor16(u, t), x);
    DivideWord16(u, ZEROS16);
  }

  const ZEROS16: Bytes := [0, 0]

  lemma ZerosWord16()
    ensures |ZEROS16| == 2 && Word16(ZEROS16) == 0
  {
    assert Word16([]) == 0;
    assert [0][1..] == [];
    assert Word16([0]) == 0x0;
    assert [0, 0][1..] == [0];
    assert Word16([0, 0]) == 0x0;
  }

  lemma XorTwice16(x: bv16, y: bv16)
    ensures Xor16(Xor16(x, y), y) == x
  {}

  lemma HiddenBurst16(v: bv16)
    ensures Divide16(v, [1] + [0x10, 0x21]) == Divide16(v, [0] + [0, 0])
  {
    assert Word16([]) == 0;
    assert [0x21][1..] == [];
    assert Word16([0x21]) == 0x2100;
    assert [0x10, 0x21][1..] == [0x21];
    assert Word16([0x10, 0x21]) == 0x1021;
    LongerMayHide16(v, [0x10, 0x21]);
  }
}
