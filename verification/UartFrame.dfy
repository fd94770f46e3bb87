/** The wire format of the UART protocol: how a packet is built and escaped, and a
    byte-at-a-time reference decoder for it. Nothing here mentions the ring buffer. */
module UartFrame {

  type byte = x: int | 0 <= x < 0x100
  type u16 = x: int | 0 <= x < 0x10000

  const FE: byte := 0xFE
  const X5A: byte := 0x5A

  // ----- Sender -----

  /** The sum of the bytes in a 16-bit accumulator. */
  function Sum16(s: seq<byte>): u16
  {
    if s == [] then 0 else (Sum16(s[..|s| - 1]) + s[|s| - 1]) % 0x10000
  }

  /** Sync, length, command and serial number, then the payload. */
  function Head(cmd: byte, sn: byte, payload: seq<byte>): seq<byte>
    requires |payload| + 4 < 0x10000
  {
    [FE, FE, (|payload| + 4) / 0x100, (|payload| + 4) % 0x100, cmd, sn] + payload
  }

  function Packet(cmd: byte, sn: byte, payload: seq<byte>): (p: seq<byte>)
    requires |payload| + 4 < 0x10000
  {
    var head := Head(cmd, sn, payload);
    head + [Sum16(head) / 0x100, Sum16(head) % 0x100]
  }

  function Escape(s: seq<byte>): seq<byte>
  {
    if s == [] then []
    else if s[0] == FE then [FE, X5A] + Escape(s[1..])
    else [s[0]] + Escape(s[1..])
  }

  /** What goes over the line: the two sync bytes as they are, the rest escaped. */
  function Wire(p: seq<byte>): seq<byte>
    requires |p| >= 2
  {
    p[..2] + Escape(p[2..])
  }

  function CountFE(s: seq<byte>): nat
  {
    if s == [] then 0 else (if s[0] == FE then 1 else 0) + CountFE(s[1..])
  }

  lemma {:induction false} EscapeAppend(s: seq<byte>, t: seq<byte>)
    ensures Escape(s + t) == Escape(s) + Escape(t)
  {
    if s == [] {
      assert s + t == t;
    } else {
      assert (s + t)[1..] == s[1..] + t;
      EscapeAppend(s[1..], t);
    }
  }

  lemma EscapeOne(x: byte)
    ensures Escape([x]) == if x == FE then [FE, X5A] else [x]
  {
    assert [x][1..] == [];
  }

  lemma {:induction false} EscapeNothing(s: seq<byte>)
    requires FE !in s
    ensures Escape(s) == s
  {
    if s != [] {
      EscapeNothing(s[1..]);
    }
  }

  /** Every escaped FE costs one byte, and an escaped string has no two FE in a row
      and does not end in FE. */
  lemma {:induction false} EscapeShape(s: seq<byte>)
    ensures |Escape(s)| == |s| + CountFE(s)
    ensures forall k :: 0 <= k < |Escape(s)| && Escape(s)[k] == FE ==>
      k + 1 < |Escape(s)| && Escape(s)[k + 1] == X5A
    ensures s != [] ==> Escape(s) != [] && Escape(s)[0] == s[0]
  {
    if s != [] {
      EscapeShape(s[1..]);
    }
  }

  /** On the wire FE FE occurs at the very start of a packet and nowhere else. */
  lemma SyncOnlyAtStart(p: seq<byte>, k: nat)
    requires |p| >= 3 && p[0] == p[1] == FE && p[2] != FE
    requires k + 1 < |Wire(p)|
    ensures Wire(p)[k] == Wire(p)[k + 1] == FE <==> k == 0
    ensures |Wire(p)| == |p| + CountFE(p[2..]) <= 2 * |p| - 2
    ensures Wire(p)[|Wire(p)| - 1] != FE
  {
    EscapeShape(p[2..]);
    CountFEBound(p[2..]);
    var w, e := Wire(p), Escape(p[2..]);
    assert forall j :: 2 <= j < |w| ==> w[j] == e[j - 2];
  }

  lemma {:induction false} CountFEBound(s: seq<byte>)
    ensures CountFE(s) <= |s|
  {
    if s != [] { CountFEBound(s[1..]); }
  }

  // ----- Reference decoder -----

  /** Idle: hunting for sync. OneSync: one FE seen. Synced: FE FE seen. Body: a packet is open
      and holds the bytes `b` (escapes removed). Escaping: an FE was seen inside an open packet. */
  datatype Decoder =
    | Idle
    | OneSync
    | Synced
    | Body(b: seq<byte>)
    | Escaping(b: seq<byte>)

  datatype Outcome = Outcome(st: Decoder, packets: seq<seq<byte>>)

  function LengthField(b: seq<byte>): nat
    requires |b| >= 4
  {
    b[2] as int * 0x100 + b[3]
  }

  predicate Complete(b: seq<byte>) {
    |b| >= 5 && |b| == LengthField(b) + 4
  }

  function Accept(b: seq<byte>, x: byte): Outcome {
    if Complete(b + [x]) then Outcome(Idle, [b + [x]]) else Outcome(Body(b + [x]), [])
  }

  function Feed(st: Decoder, x: byte): Outcome {
    match st
    case Idle => Outcome(if x == FE then OneSync else Idle, [])
    case OneSync => Outcome(if x == FE then Synced else Idle, [])
    case Synced => if x == FE then Outcome(Synced, []) else Accept([FE, FE], x)
    case Body(b) => if x == FE then Outcome(Escaping(b), []) else Accept(b, x)
    case Escaping(b) =>
      if x == FE then Outcome(Synced, [])
      else if x == X5A then Accept(b, FE)
      else Outcome(Idle, [])
  }

  function Decode(st: Decoder, s: seq<byte>): Outcome
    decreases |s|
  {
    if s == [] then Outcome(st, [])
    else
      var o := Feed(st, s[0]);
      var rest := Decode(o.st, s[1..]);
      Outcome(rest.st, o.packets + rest.packets)
  }

  lemma DecodeFirst(st: Decoder, s: seq<byte>)
    ensures s == [] ==> Decode(st, s) == Outcome(st, [])
    ensures s != [] ==>
      var o := Feed(st, s[0]);
      Decode(st, s) == Outcome(Decode(o.st, s[1..]).st, o.packets + Decode(o.st, s[1..]).packets)
  {
    hide Feed;
  }

  lemma {:induction false} DecodeAppend(st: Decoder, s: seq<byte>, t: seq<byte>)
    ensures Decode(st, s + t) ==
            Outcome(Decode(Decode(st, s).st, t).st, Decode(st, s).packets + Decode(Decode(st, s).st, t).packets)
    decreases |s|
  {
    hide Feed, Decode;
    DecodeFirst(st, s);
    DecodeFirst(st, s + t);
    if s == [] {
      assert s + t == t;
      assert [] + Decode(st, t).packets == Decode(st, t).packets;
    } else {
      var o := Feed(st, s[0]);
      assert (s + t)[1..] == s[1..] + t;
      DecodeAppend(o.st, s[1..], t);
      var u, v := Decode(o.st, s[1..]), Decode(Decode(st, s).st, t);
      assert o.packets + (u.packets + v.packets) == (o.packets + u.packets) + v.packets;
    }
  }

  lemma DecodeSnoc(st: Decoder, s: seq<byte>, x: byte)
    ensures Decode(st, s + [x]) ==
            Outcome(Feed(Decode(st, s).st, x).st, Decode(st, s).packets + Feed(Decode(st, s).st, x).packets)
  {
    DecodeAppend(st, s, [x]);
    var o := Feed(Decode(st, s).st, x);
    assert [x][1..] == [];
    assert o.packets + [] == o.packets;
  }

  /** A header followed by bytes that do not complete the packet yet. */
  predicate Open(b: seq<byte>) {
    |b| >= 3 && b[0] == b[1] == FE && b[2] != FE &&
    (|b| >= 5 ==> LengthField(b) == 0 || LengthField(b) + 4 > |b|)
  }

  /** Two FE synchronise the decoder from whatever state. */
  lemma Synchronises(st: Decoder)
    ensures Decode(st, [FE, FE]) == Outcome(Synced, [])
  {
    assert [FE, FE] == [FE] + [FE] && [FE] == [] + [FE];
    DecodeSnoc(st, [], FE);
    DecodeSnoc(st, [FE], FE);
  }

  lemma DecodeHeader(st: Decoder, b: seq<byte>)
    requires |b| == 3 && b[0] == b[1] == FE && b[2] != FE
    ensures Decode(st, Wire(b)) == Outcome(Body(b), [])
  {
    EscapeOne(b[2]);
    assert b[2..] == [b[2]];
    assert Wire(b) == b == [FE, FE] + [b[2]];
    Synchronises(st);
    DecodeSnoc(st, [FE, FE], b[2]);
  }

  /** From whatever state, the wire form of an unfinished packet opens exactly that packet. */
  lemma {:induction false} DecodeOpen(st: Decoder, b: seq<byte>)
    requires Open(b)
    ensures Decode(st, Wire(b)) == Outcome(Body(b), [])
    decreases |b|
  {
    if |b| == 3 {
      DecodeHeader(st, b);
    } else {
      var a := b[..|b| - 1];
      DecodeOpen(st, a);
      WireLast(st, b);
      assert a + [b[|b| - 1]] == b;
    }
  }

  /** Adding the last byte of `b`, escaped or not, feeds exactly that byte to the open packet. */
  lemma WireLast(st: Decoder, b: seq<byte>)
    requires |b| > 3
    requires Decode(st, Wire(b[..|b| - 1])) == Outcome(Body(b[..|b| - 1]), [])
    ensures Wire(b) == Wire(b[..|b| - 1]) + Escape([b[|b| - 1]])
    ensures Decode(st, Wire(b)) == Accept(b[..|b| - 1], b[|b| - 1])
  {
    var a, x := b[..|b| - 1], b[|b| - 1];
    WireSnoc(a, x);
    assert a + [x] == b;
    if x == FE {
      assert Escape([x]) == [FE] + [X5A];
      assert Wire(b) == (Wire(a) + [FE]) + [X5A];
      DecodeSnoc(st, Wire(a), FE);
      DecodeSnoc(st, Wire(a) + [FE], X5A);
    } else {
      assert Escape([x]) == [x];
      DecodeSnoc(st, Wire(a), x);
    }
  }

  lemma WireSnoc(a: seq<byte>, x: byte)
    requires |a| >= 2
    ensures Wire(a + [x]) == Wire(a) + Escape([x])
  {
    EscapeAppend(a[2..], [x]);
    assert (a + [x])[2..] == a[2..] + [x];
  }

  /** A complete packet on the wire is decoded, alone and exactly, from whatever state. */
  lemma DecodePacket(st: Decoder, p: seq<byte>)
    requires Complete(p) && p[0] == p[1] == FE && p[2] != FE
    ensures Decode(st, Wire(p)) == Outcome(Idle, [p])
  {
    var a := p[..|p| - 1];
    DecodeOpen(st, a);
    WireLast(st, p);
    assert a + [p[|p| - 1]] == p;
  }

  // ----- What the application sees -----

  /** One callback: the command, the payload and the length argument. */
  datatype Call = Call(cmd: byte, payload: seq<byte>, len: u16)

  /** A packet starts with a header whose length field is right. */
  predicate Framed(p: seq<byte>) {
    |p| >= 4 && p[0] == p[1] == FE && |p| == LengthField(p) + 4
  }

  predicate ChecksumRight(p: seq<byte>)
    requires |p| >= 2
  {
    Sum16(p[..|p| - 2]) == p[|p| - 2] as int * 0x100 + p[|p| - 1]
  }

  /** A header alone never passes for a packet with a checksum. */
  lemma CheckedLength(p: seq<byte>)
    requires Framed(p) && ChecksumRight(p)
    ensures |p| >= 5
  {
    HeaderSum(p);
  }

  lemma HeaderSum(p: seq<byte>)
    requires |p| >= 2 && p[0] == p[1] == FE
    ensures Sum16(p[..2]) == 0x1FC
  {
    assert p[..2][..1] == [FE] && [FE][..0] == [];
    assert Sum16([FE]) == 0xFE;
  }

  /** The callback a packet leads to, if its checksum is right. A packet shorter than 8 bytes makes
      the 16-bit length argument wrap; there is no payload to speak of then. */
  function Calls(p: seq<byte>): seq<Call>
    requires Framed(p)
  {
    if !ChecksumRight(p) then []
    else
      CheckedLength(p);
      [Call(p[4], if |p| >= 8 then p[6..|p| - 2] else [], (|p| - 8) % 0x10000)]
  }

  function AllCalls(ps: seq<seq<byte>>): seq<Call>
    requires forall p :: p in ps ==> Framed(p)
  {
    if ps == [] then [] else AllCalls(ps[..|ps| - 1]) + Calls(ps[|ps| - 1])
  }

  predicate WellFormed(st: Decoder) {
    st.Body? || st.Escaping? ==> Open(st.b)
  }

  lemma {:induction false} DecodeShape(st: Decoder, s: seq<byte>)
    requires WellFormed(st)
    ensures var o := Decode(st, s); WellFormed(o.st) && forall p :: p in o.packets ==> Framed(p)
    decreases |s|
  {
    if s != [] {
      FeedShape(st, s[0]);
      DecodeShape(Feed(st, s[0]).st, s[1..]);
    }
  }

  lemma FeedShape(st: Decoder, x: byte)
    requires WellFormed(st)
    ensures var o := Feed(st, x); WellFormed(o.st) && forall p :: p in o.packets ==> Framed(p)
  {}

  /** The callbacks a whole byte stream should lead to. */
  function StreamCalls(s: seq<byte>): seq<Call> {
    DecodeShape(Idle, s);
    AllCalls(Decode(Idle, s).packets)
  }

  lemma {:induction false} AllCallsAppend(ps: seq<seq<byte>>, qs: seq<seq<byte>>)
    requires forall p :: p in ps + qs ==> Framed(p)
    ensures forall p :: p in ps ==> Framed(p)
    ensures forall p :: p in qs ==> Framed(p)
    ensures AllCalls(ps + qs) == AllCalls(ps) + AllCalls(qs)
  {
    forall p | p in ps || p in qs ensures Framed(p) { assert p in ps + qs; }
    if qs == [] {
      assert ps + qs == ps;
    } else {
      var q := qs[|qs| - 1];
      assert (ps + qs)[..|ps + qs| - 1] == ps + qs[..|qs| - 1];
      AllCallsAppend(ps, qs[..|qs| - 1]);
    }
  }

  // ----- Main results about the format -----

  lemma PacketComplete(cmd: byte, sn: byte, payload: seq<byte>)
    requires |payload| + 4 < 0xFE00
    ensures var p := Packet(cmd, sn, payload);
            Complete(p) && p[0] == p[1] == FE && p[2] != FE && Calls(p) == [Call(cmd, payload, |payload|)]
  {
    var p := Packet(cmd, sn, payload);
    var head := Head(cmd, sn, payload);
    assert p[..|p| - 2] == head;
    assert p[6..|p| - 2] == payload;
  }

  /** Resynchronisation: whatever noise comes first, the packet after it is the last one decoded,
      with its command and payload, and nothing is left over. */
  lemma Resynchronises(noise: seq<byte>, cmd: byte, sn: byte, payload: seq<byte>)
    requires |payload| + 8 <= 0x7FFF
    ensures var f := Wire(Packet(cmd, sn, payload));
            Decode(Idle, noise + f) == Outcome(Idle, Decode(Idle, noise).packets + [Packet(cmd, sn, payload)])
            && StreamCalls(noise + f) == StreamCalls(noise) + [Call(cmd, payload, |payload|)]
  {
    var p := Packet(cmd, sn, payload);
    PacketComplete(cmd, sn, payload);
    var before := Decode(Idle, noise);
    DecodePacket(before.st, p);
    DecodeAppend(Idle, noise, Wire(p));
    DecodeShape(Idle, noise);
    AllCallsAppend(before.packets, [p]);
    assert AllCalls([p]) == Calls(p) by {
      assert AllCalls([p]) == AllCalls([p][..0]) + Calls(p);
    }
  }

  datatype Message = Message(cmd: byte, sn: byte, payload: seq<byte>)

  predicate Sendable(m: Message) {
    |m.payload| + 8 <= 0x7FFF
  }

  function WireAll(ms: seq<Message>): seq<byte>
    requires forall m :: m in ms ==> Sendable(m)
  {
    if ms == [] then []
    else
      var m := ms[|ms| - 1];
      assert Sendable(m);
      WireAll(ms[..|ms| - 1]) + Wire(Packet(m.cmd, m.sn, m.payload))
  }

  function MessageCalls(ms: seq<Message>): seq<Call>
    requires forall m :: m in ms ==> Sendable(m)
  {
    if ms == [] then []
    else
      var m := ms[|ms| - 1];
      assert Sendable(m);
      MessageCalls(ms[..|ms| - 1]) + [Call(m.cmd, m.payload, |m.payload|)]
  }

  /** A stream of packets is called back message by message, and ends between packets. */
  lemma {:induction false} RoundTrip(ms: seq<Message>)
    requires forall m :: m in ms ==> Sendable(m)
    ensures StreamCalls(WireAll(ms)) == MessageCalls(ms)
    ensures Decode(Idle, WireAll(ms)).st == Idle
  {
    if ms != [] {
      var m := ms[|ms| - 1];
      assert Sendable(m);
      RoundTrip(ms[..|ms| - 1]);
      Resynchronises(WireAll(ms[..|ms| - 1]), m.cmd, m.sn, m.payload);
    }
  }
}
