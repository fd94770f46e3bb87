/** What the checksum of a packet is, which damage it cannot miss and which it cannot see, and what the wire
    form of a packet is byte by byte. */
module UartChecksum {
  import opened UartFrame

  // ----- The sum -----

  lemma SumOne(x: byte)
    ensures Sum16([]) == 0 && Sum16([x]) == x
  {
    assert [x][..0] == [];
  }

  lemma SumSnoc(s: seq<byte>, x: byte)
    ensures Sum16(s + [x]) == (Sum16(s) + x) % 0x10000
  {
    assert (s + [x])[..|s|] == s;
  }

  /** The sum of two pieces. */
  lemma {:induction false} SumAppend(s: seq<byte>, t: seq<byte>)
    ensures Sum16(s + t) == (Sum16(s) + Sum16(t)) % 0x10000
  {
    hide Sum16;
    if t == [] {
      SumOne(0);
      assert s + t == s;
    } else {
      var u, x := t[..|t| - 1], t[|t| - 1];
      SumAppend(s, u);
      SumSnoc(s + u, x);
      SumSnoc(u, x);
      assert s + t == (s + u) + [x] && t == u + [x];
      Regrouped(Sum16(s), Sum16(u), x);
    }
  }

  lemma Regrouped(a: u16, b: u16, x: u16)
    ensures ((a + b) % 0x10000 + x) % 0x10000 == (a + (b + x) % 0x10000) % 0x10000
  {}

  lemma Exchanged(a: u16, x: u16, b: u16)
    ensures ((a + x) % 0x10000 + b) % 0x10000 == ((a + b) % 0x10000 + x) % 0x10000
  {}

  /** Taking a byte out of the middle. */
  lemma SumSplit(s: seq<byte>, i: nat)
    requires i < |s|
    ensures Sum16(s) == (Sum16(s[..i] + s[i + 1..]) + s[i]) % 0x10000
  {
    hide Sum16;
    var a, x, b := s[..i], s[i], s[i + 1..];
    assert s == a + [x] + b;
    SumOne(x);
    SumAppend(a + [x], b);
    SumAppend(a, [x]);
    SumAppend(a, b);
    Exchanged(Sum16(a), x, Sum16(b));
  }

  /** Where a byte of `s` stands in a rearrangement of it, and that the others are the same. */
  lemma Elsewhere(s: seq<byte>, t: seq<byte>) returns (i: nat)
    requires s != [] && multiset(s) == multiset(t)
    ensures i < |t| && t[i] == s[0] && multiset(t[..i] + t[i + 1..]) == multiset(s[1..])
  {
    assert s == [s[0]] + s[1..];
    assert s[0] in multiset(t);
    i :| i < |t| && t[i] == s[0];
    assert t == t[..i] + [t[i]] + t[i + 1..];
    assert multiset(t[..i] + t[i + 1..]) == multiset(t) - multiset{t[i]};
    assert multiset(s[1..]) == multiset(s) - multiset{s[0]};
  }

  /** The order of the bytes plays no part. */
  lemma {:induction false} SumPermutes(s: seq<byte>, t: seq<byte>)
    requires multiset(s) == multiset(t)
    ensures Sum16(s) == Sum16(t)
    decreases |s|
  {
    hide Sum16;
    assert |s| == |multiset(s)| == |t|;
    if s != [] {
      var i := Elsewhere(s, t);
      SumPermutes(s[1..], t[..i] + t[i + 1..]);
      SumSplit(s, 0);
      SumSplit(t, i);
      assert s[..0] + s[1..] == s[1..];
    }
  }

  /** Replacing a byte changes the sum by the difference. */
  lemma SumReplaced(s: seq<byte>, i: nat, x: byte)
    requires i < |s|
    ensures Sum16(s[i := x]) == (Sum16(s) + x - s[i]) % 0x10000
  {
    hide Sum16;
    SumSplit(s, i);
    SumSplit(s[i := x], i);
    assert s[i := x][..i] == s[..i] && s[i := x][i + 1..] == s[i + 1..];
  }

  // ----- Packets -----

  /** The bytes of a packet: where each argument is, and what the last two add up to. */
  lemma PacketFields(cmd: byte, sn: byte, payload: seq<byte>)
    requires |payload| + 4 < 0x10000
    ensures var p, n := Packet(cmd, sn, payload), |payload|;
      && |p| == n + 8 && p[0] == p[1] == FE && p[2] as int * 0x100 + p[3] == n + 4
      && p[4] == cmd && p[5] == sn && p[6..n + 6] == payload
      && p[n + 6] as int * 0x100 + p[n + 7] == (0x1FC + p[2] as int + p[3] + cmd + sn + Sum16(payload)) % 0x10000
  {
    var p, n := Packet(cmd, sn, payload), |payload|;
    var header: seq<byte> := [FE, FE, (n + 4) / 0x100, (n + 4) % 0x100, cmd, sn];
    HeaderSix(header);
    SumAppend(header, payload);
    hide Sum16;
    assert p[..n + 6] == header + payload;
    assert p[6..n + 6] == payload;
  }

  lemma HeaderSix(h: seq<byte>)
    requires |h| == 6 && h[0] == h[1] == FE
    ensures Sum16(h) == 0x1FC + h[2] as int + h[3] + h[4] + h[5]
  {
    hide Sum16;
    HeaderSum(h);
    HeaderFour(h);
    SumPrefix(h, 4);
    SumPrefix(h, 5);
    assert h[..6] == h;
  }

  lemma HeaderFour(h: seq<byte>)
    requires |h| == 6 && h[0] == h[1] == FE
    ensures Sum16(h[..4]) == 0x1FC + h[2] as int + h[3]
  {
    hide Sum16;
    HeaderSum(h);
    SumPrefix(h, 2);
    SumPrefix(h, 3);
  }

  lemma SumPrefix(s: seq<byte>, k: nat)
    requires k < |s|
    ensures Sum16(s[..k + 1]) == (Sum16(s[..k]) + s[k]) % 0x10000
  {
    hide Sum16;
    SumSnoc(s[..k], s[k]);
    assert s[..k + 1] == s[..k] + [s[k]];
  }

  /** One damaged byte behind the length leaves the packet a packet, but its checksum is never right. */
  lemma DamageSeen(cmd: byte, sn: byte, payload: seq<byte>, i: nat, x: byte)
    requires |payload| + 4 < 0xFE00 && 4 <= i < |payload| + 8
    ensures var p := Packet(cmd, sn, payload);
      Framed(p[i := x]) && (Calls(p[i := x]) == [] <==> x != p[i])
  {
    PacketComplete(cmd, sn, payload);
    hide Packet, Head;
    OneByteOff(Packet(cmd, sn, payload), i, x);
  }

  /** A right checksum is wrong once a byte is replaced. */
  lemma OneByteOff(p: seq<byte>, i: nat, x: byte)
    requires Framed(p) && Calls(p) != [] && 4 <= i < |p|
    ensures Framed(p[i := x]) && (Calls(p[i := x]) == [] <==> x != p[i])
  {
    hide Sum16;
    CheckedLength(p);
    var n, q := |p| - 2, p[i := x];
    if x == p[i] {
      assert q == p;
    } else if i < n {
      SumReplaced(p[..n], i, x);
      assert q[..n] == p[..n][i := x];
    } else {
      assert q[..n] == p[..n];
    }
  }

  /** The same from the wire: the receiver, in whatever state, hands the damaged packet out and nobody is
      called. */
  lemma DamageRejected(noise: seq<byte>, cmd: byte, sn: byte, payload: seq<byte>, i: nat, x: byte)
    requires |payload| + 4 < 0xFE00 && 4 <= i < |payload| + 8 && x != Packet(cmd, sn, payload)[i]
    ensures var q := Packet(cmd, sn, payload)[i := x];
      Decode(Idle, noise + Wire(q)) == Outcome(Idle, Decode(Idle, noise).packets + [q])
      && StreamCalls(noise + Wire(q)) == StreamCalls(noise)
  {
    DamageSeen(cmd, sn, payload, i, x);
    PacketComplete(cmd, sn, payload);
    var q, before := Packet(cmd, sn, payload)[i := x], Decode(Idle, noise);
    hide Packet, Calls, Decode, Wire;
    assert Complete(q) && q[0] == q[1] == FE && q[2] != FE;
    DecodePacket(before.st, q);
    DecodeAppend(Idle, noise, Wire(q));
    DecodeShape(Idle, noise);
    AllCallsAppend(before.packets, [q]);
    assert AllCalls([q]) == AllCalls([q][..0]) + Calls(q);
  }

  /** Whatever stands between length and checksum in another order is accepted just as well. */
  lemma OrderUnseen(p: seq<byte>, body: seq<byte>)
    requires Framed(p) && |p| >= 6 && multiset(body) == multiset(p[4..|p| - 2])
    ensures var q := p[..4] + body + p[|p| - 2..]; Framed(q) && (ChecksumRight(q) <==> ChecksumRight(p))
  {
    hide Sum16;
    var n, q := |p| - 2, p[..4] + body + p[|p| - 2..];
    assert |body| == |multiset(body)| == n - 4;
    assert p[..n] == p[..4] + p[4..n] && q[..n] == p[..4] + body;
    SumPermutes(body, p[4..n]);
    SumAppend(p[..4], body);
    SumAppend(p[..4], p[4..n]);
  }

  /** A packet on the wire, byte by byte: command 1, serial number 1 and the payload FE. */
  lemma WireExample()
    ensures Wire(Packet(1, 1, [FE])) == [FE, FE, 0, 5, 1, 1, FE, X5A, 3, 1]
    ensures FE == 0xFE && X5A == 0x5A
  {
    ExamplePacket();
    hide Packet;
    var p := Packet(1, 1, [FE]);
    EscapeAppend([0, 5, 1, 1], [FE] + [3, 1]);
    EscapeAppend([FE], [3, 1]);
    EscapeFour();
    EscapeOne(FE);
    hide Escape;
    assert p[2..] == [0, 5, 1, 1] + ([FE] + [3, 1]);
    assert Escape(p[2..]) == [0, 5, 1, 1] + ([FE, X5A] + [3, 1]);
  }

  lemma ExamplePacket()
    ensures Packet(1, 1, [FE]) == [FE, FE, 0, 5, 1, 1, FE, 3, 1]
  {
    PacketFields(1, 1, [FE]);
    SumOne(FE);
    hide Packet, Sum16;
    var p := Packet(1, 1, [FE]);
    assert p[6..7][0] == FE;
    assert p[2] as int * 0x100 + p[3] == 5 && p[7] as int * 0x100 + p[8] == 0x301;
  }

  lemma EscapeFour()
    ensures Escape([0, 5, 1, 1]) == [0, 5, 1, 1] && Escape([3, 1]) == [3, 1]
  {
    EscapeNothing([0, 5, 1, 1]);
    EscapeNothing([3, 1]);
  }

  /** A packet may be too short for what it is taken for: these five bytes are a header announcing one byte, and
      the checksum of its first three. They are called back with a length far beyond them. */
  lemma ShortPacket()
    ensures var p: seq<byte> := [FE, FE, 0, 1, 0xFC]; Framed(p) && Calls(p) == [Call(0xFC, [], 0xFFFD)]
  {
    var p: seq<byte> := [FE, FE, 0, 1, 0xFC];
    HeaderSum(p);
    SumPrefix(p, 2);
    assert ChecksumRight(p);
  }
}
