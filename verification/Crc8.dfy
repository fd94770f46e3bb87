/** The 8-bit CRC, computed bit by bit in the top half of a 16-bit register. */
module Crc8 {

  type Bytes = seq<bv8>

  /** One step of the division by x^8 + x^2 + x + 1. */
  function Bit8(v: bv8): bv8 { if v & 0x80 == 0x80 then (v << 1) ^ 0x07 else v << 1 }

  function Bits8(v: bv8, n: nat): bv8 {
    if n == 0 then v else Bit8(Bits8(v, n - 1))
  }

  function Xor8(x: bv8, y: bv8): bv8 { x ^ y }

  function Divide8(v: bv8, s: Bytes): bv8 {
    if s == [] then v else Bits8(Xor8(Divide8(v, s[..|s| - 1]), s[|s| - 1]), 8)
  }

  const POLY: bv16 := 0x1070 << 3

  function Top(v: bv8): bv16 { (v as bv16) << 8 }

  function Shifted(data: bv16): bv16 { (if data & 0x8000 != 0 then data ^ POLY else data) << 1 }

  lemma StepOfTop(v: bv8)
    ensures Shifted(Top(v)) == Top(Bit8(v))
  {}

  lemma TopBack(v: bv8)
    ensures ((Top(v) >> 8) & 0xff) as bv8 == v
  {}

  /** On a byte in the top half, eight steps of the division of that byte. */
  method Step(data: bv16, ghost v: bv8) returns (r: bv8)
    requires data == Top(v)
    ensures r == Bits8(v, 8)
  {
    hide Top, Bit8;
    var d := data;
    for i := 0 to 8
      invariant d == Top(Bits8(v, i))
    {
      StepOfTop(Bits8(v, i));
      hide Shifted;
      d := Shifted(d);
    }
    TopBack(Bits8(v, 8));
    r := ((d >> 8) & 0xff) as bv8;
  }

  function Low(crc: bv32): bv8 { (crc & 0xff) as bv8 }

  function Wide(v: bv8): bv32 { v as bv32 }

  /** The argument of a round, cut to 16 bits. */
  function Register(crc: bv32, b: bv8): bv16 { (((crc ^ (b as bv32)) << 8) & 0xffff) as bv16 }

  lemma LowByte(crc: bv32, b: bv8)
    ensures Register(crc, b) == Top(Xor8(Low(crc), b))
  {}

  lemma Widened(v: bv8)
    ensures Low(Wide(v)) == v
  {}

  /** Only the low byte of the initial value counts, unless there is nothing to add. */
  method LocalCrc8(crc: bv32, s: Bytes) returns (r: bv32)
    ensures r == if s == [] then crc else Wide(Divide8(Low(crc), s))
  {
    hide Low, Wide, Register, Top, Xor8, Bits8;
    r := crc;
    for i := 0 to |s|
      invariant Low(r) == Divide8(Low(crc), s[..i])
      invariant r == if i == 0 then crc else Wide(Divide8(Low(crc), s[..i]))
    {
      assert s[..i + 1][..i] == s[..i];
      LowByte(r, s[i]);
      var next := Step(Register(r, s[i]), Xor8(Low(r), s[i]));
      Widened(next);
      r := Wide(next);
    }
    assert s[..|s|] == s;
  }

  // ----- What it detects -----

  lemma BitInjective8(x: bv8, y: bv8)
    ensures Bit8(x) == Bit8(y) ==> x == y
  {}

  lemma {:induction false} BitsInjective8(x: bv8, y: bv8, n: nat)
    ensures Bits8(x, n) == Bits8(y, n) ==> x == y
  {
    if n > 0 {
      BitInjective8(Bits8(x, n - 1), Bits8(y, n - 1));
      hide Bit8;
      BitsInjective8(x, y, n - 1);
    }
  }

  lemma XorInjective8(x: bv8, y: bv8, b: bv8)
    ensures Xor8(x, b) == Xor8(y, b) ==> x == y
    ensures Xor8(b, x) == Xor8(b, y) ==> x == y
  {}

  /** After the same bytes, different registers stay different. */
  lemma {:induction false} DivideInjective8(v: bv8, w: bv8, s: Bytes)
    ensures Divide8(v, s) == Divide8(w, s) ==> v == w
  {
    if s != [] {
      var n, b := |s| - 1, s[|s| - 1];
      var x, y := Divide8(v, s[..n]), Divide8(w, s[..n]);
      XorInjective8(x, y, b);
      hide Bits8, Xor8;
      BitsInjective8(Xor8(x, b), Xor8(y, b), 8);
      DivideInjective8(v, w, s[..n]);
    }
  }

  lemma {:induction false} DivideAppend8(v: bv8, s: Bytes, t: Bytes)
    ensures Divide8(v, s + t) == Divide8(Divide8(v, s), t)
  {
    hide Bits8, Xor8;
    if t == [] {
      assert s + t == s;
    } else {
      var n := |t| - 1;
      DivideAppend8(v, s, t[..n]);
      assert (s + t)[..|s + t| - 1] == s + t[..n];
    }
  }

  lemma DivideOne8(v: bv8, b: bv8)
    ensures Divide8(v, [b]) == Bits8(Xor8(v, b), 8)
  {
    hide Bits8, Xor8;
    assert [b][..0] == [];
  }

  /** Messages that differ in one byte only never share a CRC. */
  lemma ByteDetected8(v: bv8, p: Bytes, x: bv8, y: bv8, s: Bytes)
    ensures Divide8(v, p + [x] + s) == Divide8(v, p + [y] + s) <==> x == y
  {
    var u := Divide8(v, p);
    XorInjective8(x, y, u);
    DivideOne8(u, x);
    DivideOne8(u, y);
    hide Bits8, Xor8, Divide8;
    DivideAppend8(v, p + [x], s);
    DivideAppend8(v, p + [y], s);
    DivideAppend8(v, p, [x]);
    DivideAppend8(v, p, [y]);
    DivideInjective8(Divide8(u, [x]), Divide8(u, [y]), s);
    BitsInjective8(Xor8(u, x), Xor8(u, y), 8);
  }

  /** Two bytes can hide: the second takes back what the first, 1, does to the register. */
  lemma HiddenBurst8(v: bv8)
    ensures Divide8(v, [1] + [7]) == Divide8(v, [0] + [0])
  {
    var u := Bits8(v, 8);
    hide Divide8, Bits8, Xor8;
    DivideAppend8(v, [1], [7]);
    DivideAppend8(v, [0], [0]);
    DivideOne8(v, 1);
    DivideOne8(v, 0);
    DivideOne8(Divide8(v, [1]), 7);
    DivideOne8(Divide8(v, [0]), 0);
    OneHides(v);
    EightUnrolled8(Xor8(v, 1));
    EightUnrolled8(Xor8(v, 0));
  }

  function Eight8(v: bv8): bv8 { Bit8(Bit8(Bit8(Bit8(Bit8(Bit8(Bit8(Bit8(v)))))))) }

  lemma EightUnrolled8(v: bv8)
    ensures Bits8(v, 8) == Eight8(v)
  {
    hide Bit8;
    assert Bits8(v, 1) == Bit8(v);
    assert Bits8(v, 2) == Bit8(Bits8(v, 1));
    assert Bits8(v, 4) == Bit8(Bit8(Bits8(v, 2)));
    assert Bits8(v, 6) == Bit8(Bit8(Bits8(v, 4)));
  }

  lemma OneHides(v: bv8)
    ensures Xor8(Eight8(Xor8(v, 1)), 7) == Xor8(Eight8(Xor8(v, 0)), 0)
  {}

  /** The CRC of a message, sent behind it, clears the register. */
  lemma OwnCrc8(v: bv8, s: Bytes)
    ensures Divide8(v, s + [Divide8(v, s)]) == 0
  {
    var r := Divide8(v, s);
    assert Xor8(r, r) == 0;
    hide Divide8, Bits8, Xor8;
    DivideAppend8(v, s, [r]);
    DivideOne8(r, r);
    ZeroStays8(8);
  }

  lemma {:induction false} ZeroStays8(n: nat)
    ensures Bits8(0, n) == 0
  {
    if n > 0 {
      ZeroStays8(n - 1);
      assert Bit8(0) == 0;
    }
  }

  const CHECK: Bytes := [0x31, 0x32, 0x33, 0x34, 0x35, 0x36, 0x37, 0x38, 0x39]

  lemma CheckNext8(k: nat, v: bv8, w: bv8)
    requires k < 9 && Divide8(0, CHECK[..k]) == v && Eight8(Xor8(v, CHECK[k])) == w
    ensures Divide8(0, CHECK[..k + 1]) == w
  {
    hide Bits8, Eight8, Xor8;
    assert CHECK[..k + 1][..k] == CHECK[..k] && CHECK[..k + 1][k] == CHECK[k];
    EightUnrolled8(Xor8(v, CHECK[k]));
  }

  /** The CRC of the digits 1 to 9. */
  lemma CheckValue8()
    ensures Divide8(0, CHECK) == 0xf4
  {
    assert CHECK[..0] == [];
    CheckNext8(0, 0x00, 0x97);
    CheckNext8(1, 0x97, 0x72);
    CheckNext8(2, 0x72, 0xc0);
    CheckNext8(3, 0xc0, 0xc2);
    CheckNext8(4, 0xc2, 0xcb);
    CheckNext8(5, 0xcb, 0xfd);
    CheckNext8(6, 0xfd, 0x78);
    CheckNext8(7, 0x78, 0xc7);
    CheckNext8(8, 0xc7, 0xf4);
    assert CHECK[..9] == CHECK;
  }
}
