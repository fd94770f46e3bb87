/** What the two CRCs of a message do behind it, and their values for the digits 1 to 9. */
module CrcChecks {
  import opened CrcTables
  import opened Crc

  /** A register the message leaves, sent behind it, clears the register. */
  lemma OwnCrc32(v: bv32, s: Bytes)
    ensures var r := Divide32(v, s); Divide32(v, s + LowFirst(r)) == 0
  {
    var r := Divide32(v, s);
    LowFirstWord(r);
    XorSame32(r);
    hide Divide32, Bits32, Xor32, Word32, LowFirst;
    DivideAppend32(v, s, LowFirst(r));
    DivideWord32(r, LowFirst(r));
    ZeroStays32(32);
  }

  function LowFirst(r: bv32): (s: Bytes)
    ensures |s| == 4
  {
    [(r & 0xff) as bv8, ((r >> 8) & 0xff) as bv8, ((r >> 16) & 0xff) as bv8, (r >> 24) as bv8]
  }

  lemma LowFirstWord(r: bv32)
    ensures Word32(LowFirst(r)) == r
  {
    var s := LowFirst(r);
    assert Word32(s[1..][1..][1..][1..]) == 0;
    var p, q, t, u := s[0], s[1], s[2], s[3];
    assert Word32(s[1..][1..][1..]) == Xor32(Enter32(u), Up32(0));
    assert Word32(s[1..][1..]) == Xor32(Enter32(t), Up32(Xor32(Enter32(u), Up32(0))));
    assert Word32(s[1..]) == Xor32(Enter32(q), Up32(Xor32(Enter32(t), Up32(Xor32(Enter32(u), Up32(0))))));
    LowFirstJoined(r);
  }

  lemma LowFirstJoined(r: bv32)
    ensures (((r & 0xff) as bv8) as bv32) ^ (((((r >> 8) & 0xff) as bv8) as bv32
      ^ (((((r >> 16) & 0xff) as bv8) as bv32 ^ ((((r >> 24) as bv8) as bv32 ^ (0 << 8)) << 8)) << 8)) << 8) == r
  {}

  lemma XorSame32(r: bv32)
    ensures Xor32(r, r) == 0
  {}

  lemma {:induction false} ZeroStays32(n: nat)
    ensures Bits32(0, n) == 0
  {
    if n > 0 {
      assert Bit32(0) == 0;
      hide Bit32;
      ZeroStays32(n - 1);
    }
  }

  lemma OwnCrc16(v: bv16, s: Bytes)
    ensures var r := Divide16(v, s); Divide16(v, s + HighFirst(r)) == 0
  {
    var r := Divide16(v, s);
    HighFirstWord(r);
    XorSame16(r);
    hide Divide16, Bits16, Xor16, Word16, HighFirst;
    DivideAppend16(v, s, HighFirst(r));
    DivideWord16(r, HighFirst(r));
    ZeroStays16(16);
  }

  function HighFirst(r: bv16): (s: Bytes)
    ensures |s| == 2
  {
    [(r >> 8) as bv8, (r & 0xff) as bv8]
  }

  lemma HighFirstWord(r: bv16)
    ensures Word16(HighFirst(r)) == r
  {
    var s := HighFirst(r);
    assert Word16(s[1..][1..]) == 0;
    assert Word16(s[1..]) == Xor16(Enter16(s[1]), Up16(0));
  }

  lemma XorSame16(r: bv16)
    ensures Xor16(r, r) == 0
  {}

  lemma {:induction false} ZeroStays16(n: nat)
    ensures Bits16(0, n) == 0
  {
    if n > 0 {
      assert Bit16(0) == 0;
      hide Bit16;
      ZeroStays16(n - 1);
    }
  }

  // ----- Values -----

  const CHECK: Bytes := [0x31, 0x32, 0x33, 0x34, 0x35, 0x36, 0x37, 0x38, 0x39]

  lemma CheckNothing32()
    ensures Divide32(0xffffffff, CHECK[..0]) == 0xffffffff
  {
    assert CHECK[..0] == [];
  }

  function Four32(v: bv32): bv32 { Bit32(Bit32(Bit32(Bit32(v)))) }

  /** One more digit, by way of the register after half its bits. */
  lemma CheckNext32(k: nat, v: bv32, b: bv8, half: bv32, w: bv32)
    requires k < 9 && CHECK[k] == b && Divide32(0xffffffff, CHECK[..k]) == v
    requires Four32(Xor32(v, Enter32(b))) == half && Four32(half) == w
    ensures Divide32(0xffffffff, CHECK[..k + 1]) == w
  {
    hide Bits32, Bit32, Xor32, Enter32;
    assert CHECK[..k + 1][..k] == CHECK[..k] && CHECK[..k + 1][k] == CHECK[k];
    EightUnrolled32(Xor32(v, Enter32(CHECK[k])));
  }

  lemma CheckThree()
    ensures Divide32(0xffffffff, CHECK[..3]) == 0x77b79c2d
  {
    hide Divide32;
    CheckNothing32();
    CheckNext32(0, 0xffffffff, 0x31, 0xaff51d84, 0x7c231048);
    CheckNext32(1, 0x7c231048, 0x32, 0xd11492ef, 0xb0acbb32);
    CheckNext32(2, 0xb0acbb32, 0x33, 0x16bddbd4, 0x77b79c2d);
  }

  lemma CheckSix()
    ensures Divide32(0xffffffff, CHECK[..6]) == 0xf68d2c9e
  {
    hide Divide32;
    CheckThree();
    CheckNext32(3, 0x77b79c2d, 0x34, 0xf774ea85, 0x641c1f5c);
    CheckNext32(4, 0x641c1f5c, 0x35, 0xf64e52b2, 0x340ac5e3);
    CheckNext32(5, 0x340ac5e3, 0x36, 0x682bfda9, 0xf68d2c9e);
  }

  lemma CheckNine()
    ensures Divide32(0xffffffff, CHECK[..9]) == 0x340bc6d9
  {
    hide Divide32;
    CheckSix();
    CheckNext32(6, 0xf68d2c9e, 0x37, 0xff67418e, 0xaffc9660);
    CheckNext32(7, 0xaffc9660, 0x38, 0xe7474a45, 0x651f2550);
    CheckNext32(8, 0x651f2550, 0x39, 0xf65e6112, 0x340bc6d9);
  }

  /** With all bits set at first and inverted at last, this is the usual CRC-32. */
  lemma CheckValue32()
    ensures Divide32(0xffffffff, CHECK) ^ 0xffffffff == 0xcbf43926
  {
    hide Divide32;
    CheckNine();
    assert CHECK[..9] == CHECK;
  }

  lemma CheckNothing16()
    ensures Divide16(0, CHECK[..0]) == 0
  {
    assert CHECK[..0] == [];
  }

  function Four16(v: bv16): bv16 { Bit16(Bit16(Bit16(Bit16(v)))) }

  /** One more digit, by way of the register after half its bits. */
  lemma CheckNext16(k: nat, v: bv16, b: bv8, half: bv16, w: bv16)
    requires k < 9 && CHECK[k] == b && Divide16(0, CHECK[..k]) == v
    requires Four16(Xor16(v, Enter16(b))) == half && Four16(half) == w
    ensures Divide16(0, CHECK[..k + 1]) == w
  {
    hide Bits16, Bit16, Xor16, Enter16;
    assert CHECK[..k + 1][..k] == CHECK[..k] && CHECK[..k + 1][k] == CHECK[k];
    EightUnrolled16(Xor16(v, Enter16(CHECK[k])));
  }

  lemma CheckValue16()
    ensures Divide16(0, CHECK) == 0x31c3
  {
    hide Divide16;
    CheckNothing16();
    CheckNext16(0, 0x0000, 0x31, 0x2063, 0x2672);
    CheckNext16(1, 0x2672, 0x32, 0x5701, 0x20b5);
    CheckNext16(2, 0x20b5, 0x33, 0x2b71, 0x9752);
    CheckNext16(3, 0x9752, 0x34, 0x946a, 0xd789);
    CheckNext16(4, 0xd789, 0x35, 0xc95e, 0x546c);
    CheckNext16(5, 0x546c, 0x36, 0x4606, 0x20e4);
    CheckNext16(6, 0x20e4, 0x37, 0x6e61, 0x86d6);
    CheckNext16(7, 0x86d6, 0x38, 0x5c0b, 0x9015);
    CheckNext16(8, 0x9015, 0x39, 0x301a, 0x31c3);
    assert CHECK[..9] == CHECK;
  }
}
