/** An FE left in the ring slot before the unread bytes. If the first of them is an FE, and only one, the
    scan takes the two for a sync pair and gathers a packet whose bytes it counts one short. */
module UartStray {
  import opened UartFrame
  import opened UartScan

  /** Broken: at `p` an FE that is not data ends the gathering. Late: the byte at `p` is one more than the
      packet announced, and makes the scan take it. Pending: neither, up to the last byte. */
  datatype Fate = Broken(p: nat) | Late(packet: seq<byte>, p: nat) | Pending(b: seq<byte>)

  /** The FE at `p` is not followed by the escape byte. */
  predicate Breaks(d: seq<byte>, p: nat)
    requires p < |d|
  {
    d[p] == FE && (p + 1 == |d| || d[p + 1] != X5A)
  }

  predicate Announced(b: seq<byte>) {
    |b| >= 4 && |b| == LengthField(b) + 4
  }

  /** How gathering goes on from the packet bytes `b` at position `p`. */
  function FateFrom(d: seq<byte>, p: nat, b: seq<byte>): Fate
    requires p <= |d|
    decreases |d| - p
  {
    if p == |d| then Pending(b)
    else if Breaks(d, p) then Broken(p)
    else if Announced(b) then Late(b, p)
    else FateFrom(d, if d[p] == FE then p + 2 else p + 1, b + [d[p]])
  }

  predicate Strays(prev: byte, d: seq<byte>) {
    prev == FE && |d| >= 2 && d[0] == FE && d[1] != FE
  }

  function FateOf(d: seq<byte>): Fate
    requires d != []
  {
    FateFrom(d, 1, [FE, FE])
  }

  /** In the middle of gathering: one byte short, from the slot before the first byte on. */
  predicate Gathering(d: seq<byte>, c: Cursor, b: seq<byte>) {
    && Sane(d, c) && (c.status == LenL || c.status == Payload) && Shape(FE, d, c, b)
    && c.r == -1 && |b| == c.recvLen + 1
    && (|b| >= 4 ==> |b| <= LengthField(b) + 4)
    && Decode(Idle, d[..c.p]) == Outcome(Idle, [])
  }

  predicate Decided(d: seq<byte>, c: Cursor, b: seq<byte>)
    requires Sane(d, c)
  {
    c.p == |d| || Breaks(d, c.p) || Announced(b)
  }

  lemma GatherStart(d: seq<byte>, ahead: byte) returns (c: Cursor, b: seq<byte>)
    requires Strays(FE, d)
    ensures Gathering(d, c, b) && Scan(FE, d, ahead, START) == Scan(FE, d, ahead, c)
    ensures FateOf(d) == FateFrom(d, c.p, b)
  {
    var c1 := Cursor(LenH, 1, -1, 1, 0);
    c, b := Cursor(LenL, 2, -1, 2, d[1]), [FE, FE, d[1]];
    assert Next(FE, d, ahead, START) == Go(c1);
    assert Next(FE, d, ahead, c1) == Go(c);
    EscapeOne(d[1]);
    assert b[2..] == [d[1]];
    assert From(FE, d, -1)[..3] == b;
    DecodeNext(d, 0);
    DecodeNext(d, 1);
    assert d[..0] == [];
    assert [FE, FE] + [d[1]] == b;
  }

  lemma GatherNext(d: seq<byte>, ahead: byte, c: Cursor, b: seq<byte>)
    requires Gathering(d, c, b) && !Decided(d, c, b)
    ensures Next(FE, d, ahead, c) == Go(Advance(if d[c.p] == FE then c.(p := c.p + 1) else c, d[c.p]))
  {
    hide Wire, Escape, Copy, Take, From, Decode;
    NoSyncBehind(FE, d, c, b);
  }

  /** The decoder stays idle over a byte that is not FE, and over an escaped one. */
  lemma StaysIdle(d: seq<byte>, p: nat)
    requires p < |d| && !Breaks(d, p) && Decode(Idle, d[..p]) == Outcome(Idle, [])
    ensures Decode(Idle, d[..if d[p] == FE then p + 2 else p + 1]) == Outcome(Idle, [])
  {
    hide Decode;
    DecodeNext(d, p);
    if d[p] == FE {
      DecodeNext(d, p + 1);
    }
  }

  /** One more byte of the packet. */
  lemma GatherStep(d: seq<byte>, ahead: byte, c: Cursor, b: seq<byte>)
    requires Gathering(d, c, b) && !Decided(d, c, b)
    ensures var m := Next(FE, d, ahead, c);
      m.Go? && m.c.p == (if d[c.p] == FE then c.p + 2 else c.p + 1) && Gathering(d, m.c, b + [d[c.p]])
  {
    GatherNext(d, ahead, c, b);
    ShapeKept(FE, d, ahead, c, b);
    StaysIdle(d, c.p);
    hide Next, Decode, Wire, Escape, From, Copy;
  }

  lemma {:induction false} Gathers(d: seq<byte>, ahead: byte, c: Cursor, b: seq<byte>)
    returns (c': Cursor, b': seq<byte>)
    requires Gathering(d, c, b)
    ensures Gathering(d, c', b') && Decided(d, c', b') && Scan(FE, d, ahead, c) == Scan(FE, d, ahead, c')
    ensures FateFrom(d, c.p, b) == FateFrom(d, c'.p, b')
    decreases |d| - c.p
  {
    c', b' := c, b;
    if !Decided(d, c, b) {
      GatherStep(d, ahead, c, b);
      ScanUnfold(FE, d, ahead, c);
      assert FateFrom(d, c.p, b) == FateFrom(d, if d[c.p] == FE then c.p + 2 else c.p + 1, b + [d[c.p]]);
      hide Scan, Next, FateFrom, Shape, Decode;
      c', b' := Gathers(d, ahead, Next(FE, d, ahead, c).c, b + [d[c.p]]);
    }
  }

  /** The byte too many: the packet is taken, without it. */
  lemma TakenLate(d: seq<byte>, ahead: byte, c: Cursor, b: seq<byte>)
    requires Gathering(d, c, b) && Announced(b) && c.p < |d| && !Breaks(d, c.p)
    ensures Scan(FE, d, ahead, c) == Got(b, c.p) && Framed(b) && 2 <= c.p && d[c.p - 1] != FE
  {
    NoSyncBehind(FE, d, c, b);
    ScanUnfold(FE, d, ahead, c);
    var c1 := if d[c.p] == FE then c.(p := c.p + 1) else c;
    assert Next(FE, d, ahead, c) == Stop(Take(FE, d, c1));
    TakeCopies(FE, d, c1, b, c.p);
    assert b[..c.recvLen + 1] == b;
    assert |From(FE, d, -1)[..c.p + 1]| == |Wire(b)|;
  }

  /** After the break the scan is where the decoder is. */
  lemma BreaksOff(d: seq<byte>, ahead: byte, c: Cursor, b: seq<byte>)
    requires Gathering(d, c, b) && c.p + 1 < |d| && Breaks(d, c.p)
    ensures var m := Next(FE, d, ahead, c);
      m.Go? && m.c.p == c.p + 1 && Shape(FE, d, m.c, []) && Tracks(FE, d, m.c, [])
  {
    NoSyncBehind(FE, d, c, b);
    DecodeNext(d, c.p);
  }

  lemma FateDecided(d: seq<byte>, c: Cursor, b: seq<byte>)
    requires Sane(d, c) && Decided(d, c, b)
    ensures FateFrom(d, c.p, b)
         == if c.p == |d| then Pending(b) else if Breaks(d, c.p) then Broken(c.p) else Late(b, c.p)
  {}

  lemma AllGathered(d: seq<byte>, ahead: byte, c: Cursor, b: seq<byte>)
    requires Gathering(d, c, b) && c.p == |d|
    ensures |b| >= 3 && Scan(FE, d, ahead, c) == Ended(-1) && [FE] + d == Wire(b)
  {
    hide Wire, Copy;
    ScanAtEnd(FE, d, ahead, c);
    hide Scan;
    assert From(FE, d, -1)[..|d| + 1] == [FE] + d;
  }

  /** What the scan does with the stray FE. */
  lemma StrayScanned(d: seq<byte>, ahead: byte) returns (c: Cursor, b: seq<byte>)
    requires Strays(FE, d)
    ensures Gathering(d, c, b) && Decided(d, c, b) && Scan(FE, d, ahead, START) == Scan(FE, d, ahead, c)
    ensures match FateOf(d)
      case Broken(p) => c.p == p < |d| && Breaks(d, p)
      case Late(packet, p) =>
        && c.p == p < |d| && b == packet && Framed(packet) && 2 <= p && d[p - 1] != FE
        && Scan(FE, d, ahead, START) == Got(packet, p) && Decode(Idle, d[..p]) == Outcome(Idle, [])
      case Pending(b') =>
        b' == b && |b| >= 3 && c.p == |d| && Scan(FE, d, ahead, START) == Ended(-1) && [FE] + d == Wire(b)
  {
    hide Scan, FateFrom, Wire, Shape, Framed;
    c, b := GatherStart(d, ahead);
    c, b := Gathers(d, ahead, c, b);
    FateDecided(d, c, b);
    if c.p == |d| {
      AllGathered(d, ahead, c, b);
    } else if !Breaks(d, c.p) {
      TakenLate(d, ahead, c, b);
    }
  }

  lemma LateScanned(d: seq<byte>, ahead: byte, packet: seq<byte>, p: nat)
    requires Strays(FE, d) && FateOf(d) == Late(packet, p)
    ensures 2 <= p < |d| && d[p - 1] != FE && Decode(Idle, d[..p]) == Outcome(Idle, [])
    ensures Scan(FE, d, ahead, START) == Got(packet, p)
  {
    var c, b := StrayScanned(d, ahead);
  }

  /** Bytes arriving behind `d` do not change a fate that is decided, and a pending one goes on from where
      it stood, unless an escape byte arrives behind a final FE. */
  lemma {:induction false} FateKept(d: seq<byte>, c: seq<byte>, p: nat, b: seq<byte>)
    requires p <= |d| && (!EndsInFE(d) || c == [] || c[0] != X5A)
    ensures var f := FateFrom(d, p, b);
      FateFrom(d + c, p, b) == if f.Pending? then FateFrom(d + c, |d|, f.b) else f
    decreases |d| - p
  {
    if p < |d| {
      assert Breaks(d + c, p) <==> Breaks(d, p);
      if !Breaks(d, p) && !Announced(b) {
        FateKept(d, c, if d[p] == FE then p + 2 else p + 1, b + [d[p]]);
      }
    }
  }

  lemma StrayKept(d: seq<byte>, c: seq<byte>)
    requires Strays(FE, d) && (!EndsInFE(d) || c == [] || c[0] != X5A)
    ensures var f := FateOf(d);
      Strays(FE, d + c) && FateOf(d + c) == if f.Pending? then FateFrom(d + c, |d|, f.b) else f
  {
    hide FateFrom;
    FateKept(d, c, 1, [FE, FE]);
  }

  lemma ReadableKept(prev: byte, d: seq<byte>, c: seq<byte>)
    requires Readable(prev, d) && (!EndsInFE(d) || c == [] || c[0] != X5A)
    ensures Readable(prev, d + c)
  {
    hide FateFrom;
    if !CleanStart(prev, d) {
      StrayKept(d, c);
    }
  }

  /** The packet a stray FE makes the scan take, if any. */
  function StrayPackets(prev: byte, d: seq<byte>): (ps: seq<seq<byte>>)
    ensures forall p :: p in ps ==> Framed(p)
  {
    if Strays(prev, d) && FateOf(d).Late? then
      StrayFramed(d);
      [FateOf(d).packet]
    else []
  }

  lemma StrayFramed(d: seq<byte>)
    requires Strays(FE, d) && FateOf(d).Late?
    ensures Framed(FateOf(d).packet)
  {
    var c, b := StrayScanned(d, 0);
  }

  /** The scan finds what the decoder finds: no FE strays, or the packet it opens breaks off. */
  predicate Readable(prev: byte, d: seq<byte>) {
    CleanStart(prev, d) || (Strays(prev, d) && FateOf(d).Broken?)
  }

  lemma FirstAgrees(prev: byte, d: seq<byte>, ahead: byte)
    requires Readable(prev, d) && !EndsInFE(d)
    ensures Agrees(prev, d, Scan(prev, d, ahead, START))
  {
    if CleanStart(prev, d) {
      StartTracks(prev, d);
      ScanDecodes(prev, d, ahead, START, []);
    } else {
      var c, b := StrayScanned(d, ahead);
      assert c.p + 1 < |d|;
      BreaksOff(d, ahead, c, b);
      ScanUnfold(prev, d, ahead, c);
      ScanDecodes(prev, d, ahead, Next(prev, d, ahead, c).c, []);
    }
  }

  lemma StartTracks(prev: byte, d: seq<byte>)
    requires CleanStart(prev, d)
    ensures Sane(d, START) && Shape(prev, d, START, []) && Tracks(prev, d, START, [])
  {
    assert d[..0] == [];
  }
}
