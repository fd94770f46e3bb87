/** Handling a ring full of bytes, and what a byte stream delivered in chunks leads to. */
module UartStream {
  import opened Chunks
  import opened UartFrame
  import opened UartScan
  import opened UartStray

  /** Handled: the packets found, the byte in the slot before the read pointer and the bytes left.
      When the read pointer stepped back, the slot before it is not among the bytes known here, and
      `prev` has no meaning. Lost: the scan overran the write pointer. */
  datatype Handled = Handled(packets: seq<seq<byte>>, prev: byte, rest: seq<byte>, stepped: bool) | Lost {

    /** The outcome when `ps` were found before. */
    function After(ps: seq<seq<byte>>): Handled {
      if Lost? then Lost else this.(packets := ps + packets)
    }
  }

  /** Scanning again and again until no packet is found. */
  function HandleAll(prev: byte, d: seq<byte>, ahead: byte): Handled
    decreases |d|
  {
    ScanFramed(prev, d, ahead);
    match Scan(prev, d, ahead, START)
    case Overrun => Lost
    case Ended(r) => Handled([], At(prev, d, ahead, r - 1), From(prev, d, r), r < 0)
    case Got(p, r) => HandleAll(d[r - 1], d[r..], ahead).After([p])
  }

  lemma HandleSteps(prev: byte, d: seq<byte>, ahead: byte, s: Scanned)
    requires s == Scan(prev, d, ahead, START)
    ensures s.Got? ==> s.r >= 3
    ensures HandleAll(prev, d, ahead) ==
      match s
      case Overrun => Lost
      case Ended(r) => Handled([], At(prev, d, ahead, r - 1), From(prev, d, r), r < 0)
      case Got(p, r) => HandleAll(d[r - 1], d[r..], ahead).After([p])
  {
    ScanFramed(prev, d, ahead);
    hide Scan, Framed;
  }

  /** A packet taken late comes before those of the bytes behind it. */
  lemma LateSteps(d: seq<byte>, ahead: byte, packet: seq<byte>, p: nat)
    requires Strays(FE, d) && FateOf(d) == Late(packet, p)
    ensures 2 <= p < |d| && CleanStart(d[p - 1], d[p..]) && d[p - 1] != FE
    ensures HandleAll(FE, d, ahead) == HandleAll(d[p - 1], d[p..], ahead).After([packet])
    ensures Decode(Idle, d[..p]) == Outcome(Idle, []) && Decode(Idle, d).packets == Decode(Idle, d[p..]).packets
  {
    hide Scan, HandleAll, Decode, FateFrom, Gathering, Decided, Framed;
    LateScanned(d, ahead, packet, p);
    HandleSteps(FE, d, ahead, Got(packet, p));
    DecodeBehind(d, p);
  }

  lemma ScanFramed(prev: byte, d: seq<byte>, ahead: byte)
    ensures var s := Scan(prev, d, ahead, START); s.Got? ==> Framed(s.packet) && s.r >= 3
  {
    GotFramed(prev, d, ahead, START, []);
  }

  lemma {:induction false} HandledFramed(prev: byte, d: seq<byte>, ahead: byte)
    ensures var h := HandleAll(prev, d, ahead); h.Handled? ==> forall p :: p in h.packets ==> Framed(p)
    decreases |d|
  {
    var s := Scan(prev, d, ahead, START);
    ScanFramed(prev, d, ahead);
    HandleSteps(prev, d, ahead, s);
    hide Scan, HandleAll, Framed;
    if s.Got? {
      HandledFramed(d[s.r - 1], d[s.r..], ahead);
    }
  }

  /** Handling refines the reference decoder: same packets, and the bytes left over are those of the
      packet still open, if any, starting at its header. */
  predicate Refines(h: Handled, o: Outcome) {
    && h.Handled? && !h.stepped && h.packets == o.packets
    && Settled(o.st) && h.rest == Held(o.st)
    && Decode(Idle, h.rest) == Outcome(o.st, []) && CleanStart(h.prev, h.rest)
  }

  lemma RefinesAfter(h: Handled, p: seq<byte>, d: seq<byte>, r: nat)
    requires r <= |d| && Decode(Idle, d[..r]) == Outcome(Idle, [p]) && Refines(h, Decode(Idle, d[r..]))
    ensures Refines(h.After([p]), Decode(Idle, d))
  {
    DecodeAppend(Idle, d[..r], d[r..]);
    assert d == d[..r] + d[r..];
  }

  lemma {:induction false} HandleDecodes(prev: byte, d: seq<byte>, ahead: byte)
    requires Readable(prev, d) && !EndsInFE(d)
    ensures Refines(HandleAll(prev, d, ahead), Decode(Idle, d))
    decreases |d|
  {
    hide Scan, HandleAll, Decode, Held;
    FirstAgrees(prev, d, ahead);
    var s := Scan(prev, d, ahead, START);
    HandleSteps(prev, d, ahead, s);
    if s.Got? {
      HandleDecodes(d[s.r - 1], d[s.r..], ahead);
      RefinesAfter(HandleAll(d[s.r - 1], d[s.r..], ahead), s.packet, d, s.r);
    }
  }

  /** Whatever lies in the slots around them, bytes not ending in FE are handled: after the packet a stray FE
      opened, if any, come those of the decoder. Only bytes ending in FE can make the scan step over the
      write pointer. */
  lemma HandledPackets(prev: byte, d: seq<byte>, ahead: byte)
    requires !EndsInFE(d)
    ensures var h := HandleAll(prev, d, ahead);
      h.Handled? && h.packets == StrayPackets(prev, d) + Decode(Idle, d).packets
  {
    hide Scan, HandleAll, Decode, FateFrom;
    if Readable(prev, d) {
      HandleDecodes(prev, d, ahead);
    } else if d == [] {
      ScanAtEnd(prev, d, ahead, START);
      HandleSteps(prev, d, ahead, Ended(0));
      assert Decode(Idle, d).packets == [] by { DecodeNothing(d); }
    } else if FateOf(d).Late? {
      var p := FateOf(d).p;
      LateSteps(d, ahead, FateOf(d).packet, p);
      HandleDecodes(d[p - 1], d[p..], ahead);
    } else {
      var c, b := StrayScanned(d, ahead);
      HandleSteps(prev, d, ahead, Ended(-1));
      assert d[..|d|] == d;
    }
  }

  lemma DecodeNothing(d: seq<byte>)
    requires d == []
    ensures Decode(Idle, d).packets == []
  {}

  // ----- The packet buffer -----

  predicate AllFit(packets: seq<seq<byte>>, n: nat) {
    forall p :: p in packets ==> |p| <= n
  }

  /** Every copy made while the ring is handled stays inside a packet buffer of `n` bytes. */
  predicate HandleFits(prev: byte, d: seq<byte>, ahead: byte, n: nat)
    decreases |d|
  {
    ScanFramed(prev, d, ahead);
    var s := Scan(prev, d, ahead, START);
    CopyFits(prev, d, ahead, START, n) && (s.Got? ==> HandleFits(d[s.r - 1], d[s.r..], ahead, n))
  }

  lemma {:induction false} HandleFitsExactly(prev: byte, d: seq<byte>, ahead: byte, n: nat)
    requires HandleAll(prev, d, ahead).Handled?
    ensures HandleFits(prev, d, ahead, n) <==> AllFit(HandleAll(prev, d, ahead).packets, n)
    decreases |d|
  {
    hide Scan, HandleAll, CopyFits, Framed;
    var s := Scan(prev, d, ahead, START);
    ScanFramed(prev, d, ahead);
    HandleSteps(prev, d, ahead, s);
    CopyFitsExactly(prev, d, ahead, START, [], n);
    if s.Got? {
      var h := HandleAll(d[s.r - 1], d[s.r..], ahead);
      HandleFitsExactly(d[s.r - 1], d[s.r..], ahead, n);
      assert forall p :: p in [s.packet] + h.packets <==> p == s.packet || p in h.packets;
    }
  }

  /** On any bytes not ending in FE the copies stay inside the packet buffer exactly when the packets of the
      stream, and the one a stray FE opened, are no longer than it. */
  lemma StreamFitsExactly(prev: byte, d: seq<byte>, ahead: byte, n: nat)
    requires !EndsInFE(d)
    ensures HandleFits(prev, d, ahead, n) <==> AllFit(StrayPackets(prev, d), n) && AllFit(Decode(Idle, d).packets, n)
  {
    hide HandleAll, HandleFits, Decode, StrayPackets;
    HandledPackets(prev, d, ahead);
    HandleFitsExactly(prev, d, ahead, n);
    var ps, qs := StrayPackets(prev, d), Decode(Idle, d).packets;
    assert forall p :: p in ps + qs <==> p in ps || p in qs;
  }

  /** A packet at the start of the unread bytes is found, whatever lies before it. */
  lemma PacketFound(prev: byte, p: seq<byte>, ahead: byte)
    requires Complete(p) && p[0] == p[1] == FE && p[2] != FE
    ensures var s := Scan(prev, Wire(p), ahead, START); s.Got? && s.packet == p
  {
    hide Scan, Decode, Wire;
    var d := Wire(p);
    WireStart(p);
    WireEnd(p);
    CleanIsReadable(prev, d);
    FirstAgrees(prev, d, ahead);
    DecodePacket(Idle, p);
    var s := Scan(prev, d, ahead, START);
    if s.Got? {
      DecodeAppend(Idle, d[..s.r], d[s.r..]);
      assert d == d[..s.r] + d[s.r..];
      assert [p][0] == ([s.packet] + Decode(Idle, d[s.r..]).packets)[0];
    }
  }

  /** A packet that arrives is copied inside the packet buffer exactly when payload and 8 bytes fit it; the
      length the header announces is not compared with it. */
  lemma PacketFitsExactly(prev: byte, cmd: byte, sn: byte, payload: seq<byte>, ahead: byte, n: nat)
    requires |payload| + 8 <= 0x7FFF
    ensures var d := Wire(Packet(cmd, sn, payload)); CopyFits(prev, d, ahead, START, n) <==> |payload| + 8 <= n
  {
    var p := Packet(cmd, sn, payload);
    PacketComplete(cmd, sn, payload);
    PacketFound(prev, p, ahead);
    CopyFitsExactly(prev, Wire(p), ahead, START, [], n);
  }

  /** The packets of a stream built from messages are as long as these. */
  lemma {:induction false} PacketsFit(ms: seq<Message>, n: nat)
    requires forall m :: m in ms ==> Sendable(m) && |m.payload| + 8 <= n
    ensures AllFit(Decode(Idle, WireAll(ms)).packets, n)
  {
    hide Decode;
    if ms == [] {
      DecodeNothing([]);
    } else {
      var m := ms[|ms| - 1];
      assert Sendable(m);
      PacketsFit(ms[..|ms| - 1], n);
      Resynchronises(WireAll(ms[..|ms| - 1]), m.cmd, m.sn, m.payload);
    }
  }

  // ----- Resynchronisation -----

  /** From a readable start the packets are those of the noise and the packet behind it. */
  lemma HandleNoise(prev: byte, noise: seq<byte>, cmd: byte, sn: byte, payload: seq<byte>, ahead: byte)
    requires |payload| + 8 <= 0x7FFF && Readable(prev, noise + Wire(Packet(cmd, sn, payload)))
    ensures var p := Packet(cmd, sn, payload);
      var h := HandleAll(prev, noise + Wire(p), ahead);
      h.Handled? && h.rest == [] && h.packets == Decode(Idle, noise).packets + [p]
  {
    var p := Packet(cmd, sn, payload);
    PacketComplete(cmd, sn, payload);
    WireEnd(p);
    hide HandleAll, Decode, Packet, Calls, Escape, Readable, Wire;
    var d := noise + Wire(p);
    assert d[|d| - 1] == Wire(p)[|Wire(p)| - 1];
    HandleDecodes(prev, d, ahead);
    Resynchronises(noise, cmd, sn, payload);
  }

  /** Gathering does not get past a sync pair. */
  lemma {:induction false} FateBeforeSync(d: seq<byte>, n: nat, p: nat, b: seq<byte>)
    requires p <= n && n + 1 < |d| && d[n] == d[n + 1] == FE
    ensures var f := FateFrom(d, p, b); !f.Pending? && (f.Late? ==> f.p < n)
    decreases n - p
  {
    if !Breaks(d, p) && !Announced(b) {
      FateBeforeSync(d, n, if d[p] == FE then p + 2 else p + 1, b + [d[p]]);
    }
  }

  /** The packet a stray FE opened comes out of the noise, before all others. */
  lemma StrayInNoise(noise: seq<byte>, f: seq<byte>, ahead: byte) returns (p: nat)
    requires |f| >= 2 && f[0] == f[1] == FE && !Readable(FE, noise + f)
    ensures 0 < p <= |noise| && noise[p - 1] != FE
    ensures HandleAll(FE, noise + f, ahead)
         == HandleAll(noise[p - 1], noise[p..] + f, ahead).After(StrayPackets(FE, noise + f))
    ensures Decode(Idle, noise).packets == Decode(Idle, noise[p..]).packets
  {
    var d := noise + f;
    hide HandleAll, Decode, FateFrom;
    assert d[|noise|] == d[|noise| + 1] == FE;
    FateBeforeSync(d, |noise|, 1, [FE, FE]);
    p := FateOf(d).p;
    assert StrayPackets(FE, d) == [FateOf(d).packet];
    hide HandleAll, Decode, FateFrom, StrayPackets, Readable, CleanStart, Framed;
    LateSteps(d, ahead, FateOf(d).packet, p);
    Behind(noise, f, p);
    DecodeBehind(noise, p);
  }

  lemma Behind(s: seq<byte>, t: seq<byte>, p: nat)
    requires 0 < p <= |s|
    ensures (s + t)[..p] == s[..p] && (s + t)[p..] == s[p..] + t && (s + t)[p - 1] == s[p - 1]
  {}

  lemma DecodeBehind(s: seq<byte>, p: nat)
    requires p <= |s| && Decode(Idle, s[..p]) == Outcome(Idle, [])
    ensures Decode(Idle, s) == Decode(Idle, s[p..])
  {
    hide Decode;
    assert s == s[..p] + s[p..];
    DecodeAppend(Idle, s[..p], s[p..]);
    assert [] + Decode(Idle, s[p..]).packets == Decode(Idle, s[p..]).packets;
  }

  lemma WireStart(p: seq<byte>)
    requires |p| >= 3 && p[0] == p[1] == FE
    ensures |Wire(p)| >= 2 && Wire(p)[0] == Wire(p)[1] == FE
  {}

  lemma HandleStrayNoise(noise: seq<byte>, cmd: byte, sn: byte, payload: seq<byte>, ahead: byte)
    requires |payload| + 8 <= 0x7FFF && !Readable(FE, noise + Wire(Packet(cmd, sn, payload)))
    ensures var p := Packet(cmd, sn, payload);
      var h := HandleAll(FE, noise + Wire(p), ahead);
      && h.Handled? && h.rest == []
      && h.packets == StrayPackets(FE, noise + Wire(p)) + (Decode(Idle, noise).packets + [p])
  {
    var p := Packet(cmd, sn, payload);
    PacketComplete(cmd, sn, payload);
    hide HandleAll, Decode, Packet, FateFrom, StrayPackets, Wire, Readable;
    WireStart(p);
    var q := StrayInNoise(noise, Wire(p), ahead);
    assert CleanStart(noise[q - 1], noise[q..] + Wire(p));
    assert Readable(noise[q - 1], noise[q..] + Wire(p)) by {
      CleanIsReadable(noise[q - 1], noise[q..] + Wire(p));
    }
    HandleNoise(noise[q - 1], noise[q..], cmd, sn, payload, ahead);
  }

  lemma CleanIsReadable(prev: byte, d: seq<byte>)
    requires CleanStart(prev, d)
    ensures Readable(prev, d)
  {}

  /** Noise in front of a packet cannot swallow it, whatever lies in the slots around them: the packet is
      the last one handled, it is called back with its command and payload, and the ring ends empty. Before
      it come the packets of the noise, and first of all the one a stray FE opened, if any. */
  lemma HandleResynchronises(prev: byte, noise: seq<byte>, cmd: byte, sn: byte, payload: seq<byte>, ahead: byte)
    requires |payload| + 8 <= 0x7FFF
    ensures var p := Packet(cmd, sn, payload);
      var strays, h := StrayPackets(prev, noise + Wire(p)), HandleAll(prev, noise + Wire(p), ahead);
      && h.Handled? && h.rest == [] && h.packets == strays + (Decode(Idle, noise).packets + [p])
      && (forall q :: q in h.packets ==> Framed(q))
      && AllCalls(h.packets) == AllCalls(strays) + (StreamCalls(noise) + [Call(cmd, payload, |payload|)])
  {
    var p := Packet(cmd, sn, payload);
    var d, ps := noise + Wire(p), Decode(Idle, noise).packets;
    hide HandleAll, Decode, Packet, FateFrom, Wire;
    HandledFramed(prev, d, ahead);
    if Readable(prev, d) {
      HandleNoise(prev, noise, cmd, sn, payload, ahead);
      assert StrayPackets(prev, d) == [] && [] + (ps + [p]) == ps + [p];
    } else {
      HandleStrayNoise(noise, cmd, sn, payload, ahead);
    }
    NoiseCalls(noise, cmd, sn, payload);
    AllCallsAppend(StrayPackets(prev, d), ps + [p]);
  }

  lemma NoiseCalls(noise: seq<byte>, cmd: byte, sn: byte, payload: seq<byte>)
    requires |payload| + 8 <= 0x7FFF
    ensures var ps := Decode(Idle, noise).packets + [Packet(cmd, sn, payload)];
      && (forall q :: q in ps ==> Framed(q))
      && AllCalls(ps) == StreamCalls(noise) + [Call(cmd, payload, |payload|)]
  {
    hide Decode, Packet, Wire;
    var p := Packet(cmd, sn, payload);
    PacketComplete(cmd, sn, payload);
    DecodeShape(Idle, noise);
    AllCallsAppend(Decode(Idle, noise).packets, [p]);
    assert AllCalls([p]) == AllCalls([p][..0]) + Calls(p);
  }

  // ----- Any number of chunks -----

  lemma CleanStartExtends(prev: byte, d: seq<byte>, c: seq<byte>)
    requires CleanStart(prev, d)
    ensures CleanStart(prev, d + c)
  {}

  lemma NotEndingInFE(st: Decoder, c: seq<byte>)
    requires Settled(st) && !EndsInFE(c)
    ensures !EndsInFE(Held(st) + c)
  {
    var u := Held(st) + c;
    if c != [] {
      assert u[|u| - 1] == c[|c| - 1];
    } else if st.Body? {
      WireEnd(st.b);
    }
  }

  /** The bytes of the packet still open after the stream `s`. */
  function HeldAfter(s: seq<byte>): seq<byte> {
    DecodeShape(Idle, s);
    Held(Decode(Idle, s).st)
  }

  /** Chunk `i` and the bytes still held when it arrives fit a ring of `n` slots. */
  predicate Fits(n: nat, chunks: seq<seq<byte>>, i: nat)
    requires i < |chunks|
  {
    chunks[i] != [] && !EndsInFE(chunks[i]) && |HeldAfter(Flatten(chunks[..i]))| + |chunks[i]| < n
  }

  lemma {:induction false} HeldBound(s: seq<byte>)
    ensures |HeldAfter(s)| <= |s|
  {
    if s != [] {
      var t, x := s[..|s| - 1], s[|s| - 1];
      HeldBound(t);
      DecodeShape(Idle, t);
      var st := Decode(Idle, t).st;
      assert s == t + [x];
      DecodeSnoc(Idle, t, x);
      EscapeOne(x);
      EscapeOne(FE);
      match st {
        case Synced => assert Wire([FE, FE] + [x]) == [FE, FE] + Escape([x]) by { WireSnoc([FE, FE], x); }
        case Body(b) => WireSnoc(b, x);
        case Escaping(b) => WireSnoc(b, FE);
        case _ =>
      }
    }
  }

  lemma HeldInPacket(ms: seq<Message>, u: seq<byte>, m: Message)
    requires forall m' :: m' in ms ==> Sendable(m')
    requires Sendable(m) && u <= Wire(Packet(m.cmd, m.sn, m.payload))
    ensures |HeldAfter(WireAll(ms) + u)| < |Wire(Packet(m.cmd, m.sn, m.payload))|
  {
    var p := Packet(m.cmd, m.sn, m.payload);
    RoundTrip(ms);
    DecodeAppend(Idle, WireAll(ms), u);
    HeldBound(u);
    if u == Wire(p) {
      PacketComplete(m.cmd, m.sn, m.payload);
      DecodePacket(Idle, p);
    }
  }

  /** While packets of at most `w` wire bytes arrive, fewer than `w` bytes are ever held: a ring with
      room for a packet and a chunk never overflows, wherever the stream is cut. */
  lemma {:induction false} HeldAlongPackets(ms: seq<Message>, s: seq<byte>, w: nat)
    requires forall m :: m in ms ==> Sendable(m) && |Wire(Packet(m.cmd, m.sn, m.payload))| <= w
    requires s <= WireAll(ms) && w > 0
    ensures |HeldAfter(s)| < w
  {
    if ms != [] {
      var m, ms' := ms[|ms| - 1], ms[..|ms| - 1];
      assert Sendable(m);
      if |s| <= |WireAll(ms')| {
        HeldAlongPackets(ms', s, w);
      } else {
        var u := s[|WireAll(ms')|..];
        assert s == WireAll(ms') + u;
        HeldInPacket(ms', u, m);
      }
    }
  }
}
