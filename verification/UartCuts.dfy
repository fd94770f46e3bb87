/** Where a stream may be cut, measured by the decoder: handling before and after the cut against decoding
    the whole from an idle start, to which an FE before the stream means nothing. */
module UartCuts {
  import opened UartFrame
  import opened UartScan
  import opened UartStray
  import opened UartStream

  // ----- Chunks -----

  /** After `d` was handled the bytes `c` arrive and the ring is handled again. `slot` is what lies before
      the read pointer if that stepped back. */
  function Resumed(h: Handled, c: seq<byte>, slot: byte, ahead: byte): Handled {
    match h
    case Lost => Lost
    case Handled(_, prev, rest, stepped) => HandleAll(if stepped then slot else prev, rest + c, ahead)
  }

  /** With the stream cut after `d`, whatever the ring slots behind the write pointer hold and whatever
      follows, the packets are those the decoder finds in it. */
  ghost predicate CutDecodes(prev: byte, d: seq<byte>) {
    forall ahead: byte, ahead': byte, slot: byte, c: seq<byte> :: !EndsInFE(c) ==>
      DecodesAcross(prev, d, ahead, ahead', slot, c)
  }

  predicate DecodesAcross(prev: byte, d: seq<byte>, ahead: byte, ahead': byte, slot: byte, c: seq<byte>) {
    var h := HandleAll(prev, d, ahead);
    var h' := Resumed(h, c, slot, ahead');
    h.Handled? && h'.Handled? && h.packets + h'.packets == Decode(Idle, d + c).packets
  }

  /** Handling resumes where the decoder would have been. */
  lemma ResumedDecodes(prev: byte, d: seq<byte>, ahead: byte, ahead': byte, slot: byte, c: seq<byte>)
    requires Readable(prev, d) && !EndsInFE(d) && !EndsInFE(c)
    ensures var h' := Resumed(HandleAll(prev, d, ahead), c, slot, ahead');
            && h'.Handled? && h'.rest == HeldAfter(d + c)
            && h'.packets == Decode(Decode(Idle, d).st, c).packets
  {
    HandleDecodes(prev, d, ahead);
    var h, st := HandleAll(prev, d, ahead), Decode(Idle, d).st;
    NotEndingInFE(st, c);
    CleanStartExtends(h.prev, h.rest, c);
    HandleDecodes(h.prev, h.rest + c, ahead');
    DecodeAppend(Idle, h.rest, c);
    DecodeAppend(Idle, d, c);
    assert [] + Decode(st, c).packets == Decode(st, c).packets;
  }

  lemma SafeCut(prev: byte, d: seq<byte>, ahead: byte, ahead': byte, slot: byte, c: seq<byte>)
    requires Readable(prev, d) && !EndsInFE(d) && !EndsInFE(c)
    ensures DecodesAcross(prev, d, ahead, ahead', slot, c)
  {
    ResumedDecodes(prev, d, ahead, ahead', slot, c);
    HandleDecodes(prev, d, ahead);
    DecodeAppend(Idle, d, c);
  }

  // ----- A cut after an FE -----

  /** What the slot behind the write pointer may hold to mislead the scan about a final FE. */
  function Misleading(d: seq<byte>): byte {
    if |d| >= 2 && d[|d| - 2] == FE then FE else 0
  }

  lemma LastFE(prev: byte, d: seq<byte>, c: Cursor, b: seq<byte>)
    requires EndsInFE(d) && Sane(d, c) && Shape(prev, d, c, b) && Tracks(prev, d, c, b) && c.p == |d| - 1
    ensures Scan(prev, d, Misleading(d), c) == Ended(if Misleading(d) == FE then |d| - 1 else |d|)
    ensures Decode(Idle, d).packets == []
  {
    hide Decode, Copy;
    DecodeNext(d, c.p);
    assert d[..|d|] == d;
    var m := Next(prev, d, Misleading(d), c);
    assert m.Go? && m.c.p == |d|;
    ScanUnfold(prev, d, Misleading(d), c);
    ScanAtEnd(prev, d, Misleading(d), m.c);
  }

  predicate Misled(prev: byte, d: seq<byte>, s: Scanned) {
    || (s == Ended(if Misleading(d) == FE then |d| - 1 else |d|) && Decode(Idle, d).packets == [])
    || (s.Got? && Agrees(prev, d, s))
  }

  predicate Follows(prev: byte, d: seq<byte>, c: Cursor, b: seq<byte>) {
    Sane(d, c) && Shape(prev, d, c, b) && Tracks(prev, d, c, b) && c.p < |d|
  }

  lemma MisledStops(prev: byte, d: seq<byte>, c: Cursor, b: seq<byte>)
    requires EndsInFE(d) && Follows(prev, d, c, b) && c.p + 1 < |d| && Next(prev, d, Misleading(d), c).Stop?
    ensures Misled(prev, d, Scan(prev, d, Misleading(d), c))
  {
    TracksTake(prev, d, Misleading(d), c, b);
    ScanUnfold(prev, d, Misleading(d), c);
  }

  lemma MisledGoes(prev: byte, d: seq<byte>, c: Cursor, b: seq<byte>)
    requires EndsInFE(d) && Follows(prev, d, c, b) && c.p + 1 < |d| && Next(prev, d, Misleading(d), c).Go?
    ensures var c' := Next(prev, d, Misleading(d), c).c; Follows(prev, d, c', Grow(b, c', d[c.p]))
  {
    GoesBeforeEnd(prev, d, c, b);
    TracksKept(prev, d, Misleading(d), c, b);
    ShapeKept(prev, d, Misleading(d), c, b);
  }

  lemma {:induction false} ScanMisled(prev: byte, d: seq<byte>, c: Cursor, b: seq<byte>)
    requires EndsInFE(d) && Follows(prev, d, c, b)
    ensures Misled(prev, d, Scan(prev, d, Misleading(d), c))
    decreases |d| - c.p
  {
    if c.p == |d| - 1 {
      LastFE(prev, d, c, b);
    } else if Next(prev, d, Misleading(d), c).Stop? {
      MisledStops(prev, d, c, b);
    } else {
      MisledGoes(prev, d, c, b);
      ScanUnfold(prev, d, Misleading(d), c);
      var c' := Next(prev, d, Misleading(d), c).c;
      ScanMisled(prev, d, c', Grow(b, c', d[c.p]));
    }
  }

  lemma GoesBeforeEnd(prev: byte, d: seq<byte>, c: Cursor, b: seq<byte>)
    requires EndsInFE(d) && Sane(d, c) && c.p + 1 < |d|
    requires Next(prev, d, Misleading(d), c).Go?
    ensures Next(prev, d, Misleading(d), c).c.p < |d|
  {}

  /** The same if a stray FE opens a packet that breaks off, be it at the final FE. */
  lemma FirstMisled(prev: byte, d: seq<byte>)
    requires Readable(prev, d) && EndsInFE(d)
    ensures Misled(prev, d, Scan(prev, d, Misleading(d), START))
  {
    if CleanStart(prev, d) {
      StartTracks(prev, d);
      ScanMisled(prev, d, START, []);
    } else {
      var c, b := StrayScanned(d, Misleading(d));
      ScanUnfold(prev, d, Misleading(d), c);
      var m := Next(prev, d, Misleading(d), c);
      if c.p + 1 < |d| {
        BreaksOff(d, Misleading(d), c, b);
        ScanMisled(prev, d, m.c, []);
      } else {
        NoSyncBehind(prev, d, c, b);
        DecodeNext(d, c.p);
        assert d[..|d|] == d;
        ScanAtEnd(prev, d, Misleading(d), m.c);
      }
    }
  }

  /** Then the FE is taken for the first sync byte, or dropped, and either way lies before the read
      pointer or at it. */
  lemma {:induction false} HandleMisled(prev: byte, d: seq<byte>)
    requires Readable(prev, d) && EndsInFE(d)
    ensures var h := HandleAll(prev, d, Misleading(d));
      h.Handled? && !h.stepped && h.packets == Decode(Idle, d).packets
      && h.prev == FE && h.rest == if Misleading(d) == FE then [FE] else []
    decreases |d|
  {
    hide Scan, HandleAll, Decode;
    FirstMisled(prev, d);
    var s := Scan(prev, d, Misleading(d), START);
    HandleSteps(prev, d, Misleading(d), s);
    if s.Got? {
      assert Misleading(d[s.r..]) == Misleading(d);
      HandleMisled(d[s.r - 1], d[s.r..]);
      DecodeAppend(Idle, d[..s.r], d[s.r..]);
      assert d == d[..s.r] + d[s.r..];
    }
  }

  /** A frame whose first sync byte already lies before the read pointer. */
  const HEADLESS_FRAME: seq<byte> := [FE, 0, 4, 1, 1, 2, 2]

  lemma HeadlessScan(ahead: byte)
    ensures Scan(FE, HEADLESS_FRAME, ahead, START) == Ended(-1)
  {
    var d := HEADLESS_FRAME;
    var c1, c3 := Cursor(LenH, 1, -1, 1, 0), Cursor(Payload, 3, -1, 3, 4);
    assert Next(FE, d, ahead, START) == Go(c1);
    assert Next(FE, d, ahead, c1) == Go(Cursor(LenL, 2, -1, 2, 0));
    assert Next(FE, d, ahead, Cursor(LenL, 2, -1, 2, 0)) == Go(c3);
    HeadlessPayload(ahead, 3);
    assert Scan(FE, d, ahead, c1) == Ended(-1);
  }

  /** Four payload bytes are scanned; the packet would be found complete at a fifth. */
  lemma {:induction false} HeadlessPayload(ahead: byte, p: nat)
    requires 3 <= p <= 7
    ensures Scan(FE, HEADLESS_FRAME, ahead, Cursor(Payload, p, -1, p, 4)) == Ended(-1)
    decreases 7 - p
  {
    if p < 7 {
      HeadlessPayload(ahead, p + 1);
      assert Next(FE, HEADLESS_FRAME, ahead, Cursor(Payload, p, -1, p, 4)) == Go(Cursor(Payload, p + 1, -1, p + 1, 4));
    }
  }

  lemma HeadlessWaits(ahead: byte)
    ensures HandleAll(FE, HEADLESS_FRAME, ahead) == Handled([], FE, [FE] + HEADLESS_FRAME, true)
  {
    hide Scan;
    HeadlessScan(ahead);
    HandleSteps(FE, HEADLESS_FRAME, ahead, Ended(-1));
  }

  lemma SyncedCompletes()
    ensures |Decode(Synced, HEADLESS_FRAME[1..]).packets| == 1
  {
    var f, body := [FE] + HEADLESS_FRAME, HEADLESS_FRAME[1..];
    EscapeNothing(f[2..]);
    assert Wire(f) == f == [FE, FE] + body;
    DecodePacket(Idle, f);
    DecodeAppend(Idle, [FE, FE], body);
    assert [FE, FE] == [FE] + [FE] && [FE] == [] + [FE];
    DecodeSnoc(Idle, [FE], FE);
    DecodeSnoc(Idle, [], FE);
  }

  /** What completes the frame behind the final FE of `d`. */
  function Rest(d: seq<byte>): seq<byte> {
    if Misleading(d) == FE then HEADLESS_FRAME[1..] else HEADLESS_FRAME
  }

  /** From the state after a final FE the rest of the frame completes it. */
  lemma RestOfFrame(d: seq<byte>)
    requires EndsInFE(d)
    ensures var c := Rest(d); !EndsInFE(c) && |Decode(Decode(Idle, d).st, c).packets| == 1
  {
    hide Decode;
    var d0 := d[..|d| - 1];
    SyncedCompletes();
    assert d == d0 + [FE];
    DecodeSnoc(Idle, d0, FE);
    if Misleading(d) == FE {
      var d1 := d0[..|d0| - 1];
      assert d == d1 + [FE, FE];
      DecodeAppend(Idle, d1, [FE, FE]);
      Synchronises(Decode(Idle, d1).st);
    } else {
      BehindFE(Decode(Idle, d0).st);
    }
  }

  /** Behind one FE another synchronises. */
  lemma BehindFE(st: Decoder)
    ensures Decode(Feed(st, FE).st, HEADLESS_FRAME).packets == Decode(Synced, HEADLESS_FRAME[1..]).packets
  {
    hide Decode;
    var st' := Feed(st, FE).st;
    assert HEADLESS_FRAME == [FE] + HEADLESS_FRAME[1..];
    DecodeAppend(st', [FE], HEADLESS_FRAME[1..]);
    assert [FE] == [] + [FE] && Decode(st', []) == Outcome(st', []) by { DecodeEmpty(st'); }
    DecodeSnoc(st', [], FE);
    assert Feed(st', FE) == Outcome(Synced, []);
    assert [] + Decode(Synced, HEADLESS_FRAME[1..]).packets == Decode(Synced, HEADLESS_FRAME[1..]).packets;
  }

  lemma DecodeEmpty(st: Decoder)
    ensures Decode(st, []) == Outcome(st, [])
  {}

  lemma UnsafeCut(prev: byte, d: seq<byte>)
    requires Readable(prev, d) && EndsInFE(d)
    ensures !EndsInFE(Rest(d)) && !DecodesAcross(prev, d, Misleading(d), 0, 0, Rest(d))
  {
    var c := Rest(d);
    HandleMisled(prev, d);
    var h := HandleAll(prev, d, Misleading(d));
    assert h.rest + c == HEADLESS_FRAME;
    HeadlessWaits(0);
    RestOfFrame(d);
    DecodeAppend(Idle, d, c);
    assert !DecodesAcross(prev, d, Misleading(d), 0, 0, c);
  }

  // ----- A cut after a stray FE -----

  lemma SameMisleading(d: seq<byte>, p: nat)
    requires 1 <= p < |d| && d[p - 1] != FE && EndsInFE(d)
    ensures Misleading(d[p..]) == Misleading(d)
  {}

  /** The packet the stray FE opened comes on top of the others. */
  lemma LateHandled(d: seq<byte>)
    requires Strays(FE, d) && FateOf(d).Late?
    ensures var h := HandleAll(FE, d, Misleading(d));
      h.Handled? && h.packets == [FateOf(d).packet] + Decode(Idle, d).packets
  {
    hide HandleAll, Decode, FateFrom;
    var p := FateOf(d).p;
    LateSteps(d, Misleading(d), FateOf(d).packet, p);
    var t := d[p..];
    CleanIsReadable(d[p - 1], t);
    if EndsInFE(d) {
      SameMisleading(d, p);
      hide Misleading, Readable;
      HandleMisled(d[p - 1], t);
    } else {
      hide Misleading, Readable;
      HandleDecodes(d[p - 1], t, Misleading(d));
    }
  }

  lemma LateUndecoded(d: seq<byte>)
    requires Strays(FE, d) && FateOf(d).Late?
    ensures !DecodesAcross(FE, d, Misleading(d), 0, 0, [])
  {
    LateHandled(d);
    assert d + [] == d;
  }

  lemma PendingHandled(d: seq<byte>, ahead: byte)
    requires Strays(FE, d) && FateOf(d).Pending?
    ensures HandleAll(FE, d, ahead) == Handled([], FE, [FE] + d, true) && Decode(Idle, d) == Outcome(Idle, [])
    ensures var b := FateOf(d).b;
      && |b| >= 3 && [FE] + d == Wire(b) && b[0] == b[1] == FE && (Open(b) || Complete(b))
      && (|b| >= 4 ==> |b| <= LengthField(b) + 4)
  {
    var c, b := StrayScanned(d, ahead);
    HandleSteps(FE, d, ahead, Ended(-1));
    assert d[..|d|] == d;
  }

  /** Once the read pointer has stepped back, the stray FE counts as received. */
  lemma PendingResumed(d: seq<byte>, ahead: byte, ahead': byte, slot: byte, c: seq<byte>)
    requires Strays(FE, d) && FateOf(d).Pending? && !EndsInFE(d) && !EndsInFE(c)
    ensures var b := FateOf(d).b;
      && Resumed(HandleAll(FE, d, ahead), c, slot, ahead').Handled?
      && (Complete(b) ==> Resumed(HandleAll(FE, d, ahead), c, slot, ahead').packets == [b] + Decode(Idle, c).packets)
      && (Open(b) ==> Resumed(HandleAll(FE, d, ahead), c, slot, ahead').packets == Decode(Body(b), c).packets)
    ensures Decode(Idle, d + c) == Decode(Idle, c)
  {
    var b, w := FateOf(d).b, [FE] + d;
    PendingHandled(d, ahead);
    assert (w + c)[|w + c| - 1] == if c == [] then d[|d| - 1] else c[|c| - 1];
    HandleDecodes(slot, w + c, ahead');
    DecodeAppend(Idle, w, c);
    DecodeAppend(Idle, d, c);
    assert [] + Decode(Idle, c).packets == Decode(Idle, c).packets;
    if Complete(b) {
      DecodePacket(Idle, b);
    } else {
      DecodeOpen(Idle, b);
      assert [] + Decode(Body(b), c).packets == Decode(Body(b), c).packets;
    }
  }

  function Zeros(k: nat): (z: seq<byte>)
    ensures |z| == k && !EndsInFE(z)
  {
    seq(k, _ => 0)
  }

  lemma {:induction false} ZerosComplete(b: seq<byte>, k: nat)
    requires Open(b) && |b| >= 4 && k >= 1 && |b| + k == LengthField(b) + 4
    ensures Decode(Body(b), Zeros(k)).packets != [] && Decode(Idle, Zeros(k)).packets == []
    decreases k
  {
    var z := Zeros(k);
    assert z[0] == 0 && z[1..] == Zeros(k - 1);
    if k > 1 {
      ZerosComplete(b + [0], k - 1);
    }
  }

  /** Until the last of them has come, the zeros leave the stray packet pending. */
  lemma {:induction false} ZerosPending(s: seq<byte>, p: nat, b: seq<byte>)
    requires p <= |s| && (forall k :: p <= k < |s| ==> s[k] == 0)
    requires |b| >= 4 && |b| + (|s| - p) == LengthField(b) + 4
    ensures FateFrom(s, p, b).Pending?
    decreases |s| - p
  {
    if p < |s| {
      ZerosPending(s, p + 1, b + [0]);
    }
  }

  /** Zeros, behind a length byte if that is missing, complete an open packet. */
  lemma OpenCut(d: seq<byte>, b: seq<byte>) returns (c: seq<byte>)
    requires Strays(FE, d) && FateOf(d) == Pending(b) && !EndsInFE(d)
    requires Open(b) && (|b| >= 4 ==> |b| < LengthField(b) + 4)
    ensures !EndsInFE(c) && Decode(Body(b), c).packets != [] && Decode(Idle, c).packets == []
    ensures FateOf(d + c).Pending?
  {
    if |b| == 3 {
      var b1, k := b + [1], b[2] as int * 0x100 + 1;
      ZerosComplete(b1, k);
      c := [1] + Zeros(k);
      assert Decode(Body(b), c).packets == [] + Decode(Body(b1), Zeros(k)).packets;
      assert Decode(Idle, c).packets == [] + Decode(Idle, Zeros(k)).packets;
      StrayKept(d, c);
      GatherPlain(d + c, |d|, b, b1);
      ZerosPending(d + c, |d| + 1, b1);
    } else {
      c := Zeros(LengthField(b) + 4 - |b|);
      ZerosComplete(b, |c|);
      StrayKept(d, c);
      ZerosPending(d + c, |d|, b);
    }
  }

  /** A packet that is still open can be completed, a complete one is taken after the cut. Uncut, the FE
      before them stays without effect. */
  lemma PendingCut(d: seq<byte>) returns (c: seq<byte>)
    requires Strays(FE, d) && FateOf(d).Pending? && !EndsInFE(d) && d != [FE, 0, 0]
    ensures !EndsInFE(c) && !DecodesAcross(FE, d, 0, 0, 0, c) && StrayPackets(FE, d + c) == []
  {
    var b := FateOf(d).b;
    PendingHandled(d, 0);
    if Complete(b) {
      c := [];
      assert d + c == d;
    } else {
      if |b| >= 4 && |b| == LengthField(b) + 4 {
        HollowHeader(d, b);
      }
      c := OpenCut(d, b);
    }
    PendingResumed(d, 0, 0, 0, c);
  }

  lemma HollowHeader(d: seq<byte>, b: seq<byte>)
    requires |b| == 4 && [FE] + d == Wire(b) && LengthField(b) == 0 && b[0] == b[1] == FE
    ensures d == [FE, 0, 0]
  {
    assert b[2..] == [0, 0];
    EscapeNothing(b[2..]);
    assert [FE] + d == [FE, FE, 0, 0];
    assert d == ([FE] + d)[1..];
  }

  // ----- A header announcing nothing -----

  predicate Hollow(b: seq<byte>) {
    |b| >= 4 && LengthField(b) == 0
  }

  /** A packet announced with length 0 never completes: until the next sync pair the decoder might as well
      be idle. */
  predicate Alike(s: Decoder, t: Decoder) {
    s == t || (s.Body? && t.Idle? && Hollow(s.b)) || (s.Escaping? && t.OneSync? && Hollow(s.b))
  }

  lemma {:induction false} AlikeDecode(s: Decoder, t: Decoder, c: seq<byte>)
    requires Alike(s, t)
    ensures Decode(s, c).packets == Decode(t, c).packets
    decreases |c|
  {
    if c != [] {
      AlikeFeed(s, t, c[0]);
      AlikeDecode(Feed(s, c[0]).st, Feed(t, c[0]).st, c[1..]);
    }
  }

  lemma AlikeFeed(s: Decoder, t: Decoder, x: byte)
    requires Alike(s, t)
    ensures Alike(Feed(s, x).st, Feed(t, x).st) && Feed(s, x).packets == Feed(t, x).packets
  {}

  lemma HollowPending()
    ensures FateOf([FE, 0, 0]) == Pending([FE, FE, 0, 0])
  {
    GatherPlain([FE, 0, 0], 1, [FE, FE], [FE, FE, 0]);
    GatherPlain([FE, 0, 0], 2, [FE, FE, 0], [FE, FE, 0, 0]);
  }

  lemma HollowCut(ahead: byte, ahead': byte, slot: byte, c: seq<byte>)
    requires !EndsInFE(c)
    ensures DecodesAcross(FE, [FE, 0, 0], ahead, ahead', slot, c)
  {
    var d, b := [FE, 0, 0], [FE, FE, 0, 0];
    HollowPending();
    PendingHandled(d, ahead);
    PendingResumed(d, ahead, ahead', slot, c);
    AlikeDecode(Body(b), Idle, c);
  }

  // ----- The exact condition -----

  /** An FE left over, and no byte to show whether it is taken for a sync byte. */
  lemma EmptyUndecoded(ahead: byte) returns (c: seq<byte>)
    ensures !EndsInFE(c) && !DecodesAcross(FE, [], ahead, 0, 0, c)
  {
    c := HEADLESS_FRAME + [9];
    HeadlessLate(c);
    HandleSteps(FE, [], ahead, Ended(0));
    assert [] + c == c;
    LateHandled(c);
  }

  /** Plain bytes are gathered one by one. */
  lemma GatherPlain(d: seq<byte>, p: nat, b: seq<byte>, b': seq<byte>)
    requires p < |d| && d[p] != FE && !Announced(b) && b' == b + [d[p]]
    ensures FateFrom(d, p, b) == FateFrom(d, p + 1, b')
  {}

  lemma HeadlessLate(c: seq<byte>)
    requires c == HEADLESS_FRAME + [9]
    ensures Strays(FE, c) && FateOf(c).Late?
  {
    GatherPlain(c, 1, [FE, FE], [FE, FE, 0]);
    GatherPlain(c, 2, [FE, FE, 0], [FE, FE, 0, 4]);
    GatherPlain(c, 3, [FE, FE, 0, 4], [FE, FE, 0, 4, 1]);
    GatherPlain(c, 4, [FE, FE, 0, 4, 1], [FE, FE, 0, 4, 1, 1]);
    GatherPlain(c, 5, [FE, FE, 0, 4, 1, 1], [FE, FE, 0, 4, 1, 1, 2]);
    GatherPlain(c, 6, [FE, FE, 0, 4, 1, 1, 2], [FE, FE, 0, 4, 1, 1, 2, 2]);
  }

  lemma LoneScan()
    ensures HandleAll(FE, [FE], 0) == Handled([], FE, [FE, FE], true)
  {
    var c := Cursor(LenH, 1, -1, 1, 0);
    assert Next(FE, [FE], 0, START) == Go(c);
    ScanUnfold(FE, [FE], 0, START);
    ScanAtEnd(FE, [FE], 0, c);
    HandleSteps(FE, [FE], 0, Ended(-1));
    assert [FE] + [FE] == [FE, FE];
  }

  /** A single FE behind a stray one. */
  lemma LoneCut() returns (c: seq<byte>)
    ensures c != [] && !EndsInFE(c) && !DecodesAcross(FE, [FE], 0, 0, 0, c) && StrayPackets(FE, [FE] + c) == []
  {
    c := HEADLESS_FRAME[1..];
    LoneScan();
    assert [FE] + c == HEADLESS_FRAME;
    HandleDecodes(0, [FE, FE] + c, 0);
    DecodeAppend(Idle, [FE, FE], c);
    Synchronises(Idle);
    SyncedCompletes();
    HeadlessIdle();
  }

  lemma HeadlessIdle()
    ensures Decode(Idle, HEADLESS_FRAME).packets == [] && StrayPackets(FE, HEADLESS_FRAME) == []
  {
    var c, b := StrayScanned(HEADLESS_FRAME, 0);
    HeadlessScan(0);
    assert HEADLESS_FRAME[..|HEADLESS_FRAME|] == HEADLESS_FRAME;
  }

  /** The cut stream is read as the decoder reads it exactly when the bytes before the cut do not end in FE
      and no FE left from before may open a packet in them, unless that packet breaks off or announces nothing. */
  lemma CutDecodesExactly(prev: byte, d: seq<byte>)
    ensures CutDecodes(prev, d) <==> !EndsInFE(d) && (Readable(prev, d) || d == [FE, 0, 0])
  {
    if EndsInFE(d) {
      InFEUndecoded(prev, d);
    } else if Readable(prev, d) {
      forall ahead: byte, ahead': byte, slot: byte, c: seq<byte> | !EndsInFE(c)
        ensures DecodesAcross(prev, d, ahead, ahead', slot, c)
      {
        SafeCut(prev, d, ahead, ahead', slot, c);
      }
    } else if d == [FE, 0, 0] {
      forall ahead: byte, ahead': byte, slot: byte, c: seq<byte> | !EndsInFE(c)
        ensures DecodesAcross(prev, d, ahead, ahead', slot, c)
      {
        HollowCut(ahead, ahead', slot, c);
      }
    } else if d == [] {
      var c := EmptyUndecoded(0);
    } else if FateOf(d).Late? {
      LateUndecoded(d);
    } else {
      var c := PendingCut(d);
    }
  }

  lemma InFEUndecoded(prev: byte, d: seq<byte>)
    requires EndsInFE(d)
    ensures !CutDecodes(prev, d)
  {
    if Readable(prev, d) {
      UnsafeCut(prev, d);
    } else if d == [FE] {
      var c := LoneCut();
    } else {
      NotPending(d);
      LateUndecoded(d);
    }
  }

  /** Gathering stops at a final FE. */
  lemma NotPending(d: seq<byte>)
    requires Strays(FE, d) && EndsInFE(d)
    ensures !FateOf(d).Pending?
  {
    var c, b := StrayScanned(d, 0);
    if c.p == |d| {
      NoSyncBehind(FE, d, c, b);
    }
  }
}
