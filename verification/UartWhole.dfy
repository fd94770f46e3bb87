/** Where a stream may be cut: handling before and after the cut against handling all of it at once. */
module UartWhole {
  import opened UartFrame
  import opened UartScan
  import opened UartStray
  import opened UartStream
  import opened UartCuts

  /** Cut after `d` or not, the bytes `d + c` lead to the same packets and leave the same bytes in the ring.
      Each handling has its own stale byte behind the write pointer. */
  predicate SameAsWhole(prev: byte, d: seq<byte>, ahead: byte, ahead': byte, ahead'': byte, slot: byte,
                        c: seq<byte>) {
    var h, whole := HandleAll(prev, d, ahead), HandleAll(prev, d + c, ahead'');
    var h' := Resumed(h, c, slot, ahead');
    && h.Handled? && h'.Handled? && whole.Handled?
    && h.packets + h'.packets == whole.packets && h'.rest == whole.rest
  }

  /** Cutting the stream after `d` changes nothing, whatever the ring slots behind the write pointer hold and
      whatever follows. */
  ghost predicate CutHarmless(prev: byte, d: seq<byte>) {
    forall ahead: byte, ahead': byte, ahead'': byte, slot: byte, c: seq<byte> :: !EndsInFE(c) ==>
      SameAsWhole(prev, d, ahead, ahead', ahead'', slot, c)
  }

  // ----- Harmless cuts -----

  lemma ReadableCut(prev: byte, d: seq<byte>, ahead: byte, ahead': byte, ahead'': byte, slot: byte, c: seq<byte>)
    requires Readable(prev, d) && !EndsInFE(d) && !EndsInFE(c)
    ensures SameAsWhole(prev, d, ahead, ahead', ahead'', slot, c)
  {
    hide HandleAll, Decode, FateFrom;
    ReadableKept(prev, d, c);
    EndOfBoth(d, c);
    HandleDecodes(prev, d + c, ahead'');
    SafeCut(prev, d, ahead, ahead', slot, c);
    ResumedDecodes(prev, d, ahead, ahead', slot, c);
  }

  lemma EndOfBoth(d: seq<byte>, c: seq<byte>)
    requires !EndsInFE(c) && (!EndsInFE(d) || c != [])
    ensures !EndsInFE(d + c)
  {
    if c == [] {
      assert d + c == d;
    } else {
      assert (d + c)[|d + c| - 1] == c[|c| - 1];
    }
  }

  /** Handling nothing does nothing. */
  lemma EmptyCut(ahead: byte, ahead': byte, ahead'': byte, slot: byte, c: seq<byte>)
    requires !EndsInFE(c)
    ensures SameAsWhole(FE, [], ahead, ahead', ahead'', slot, c)
  {
    hide HandleAll, Decode, FateFrom;
    ScanAtEnd(FE, [], ahead, START);
    HandleSteps(FE, [], ahead, Ended(0));
    assert [] + c == c;
    AheadUnseen(FE, c, ahead', ahead'');
    assert [] + HandleAll(FE, c, ahead').packets == HandleAll(FE, c, ahead').packets;
  }

  /** On bytes not ending in FE what lies behind the write pointer plays no part. */
  lemma AheadUnseen(prev: byte, d: seq<byte>, ahead: byte, ahead': byte)
    requires !EndsInFE(d)
    ensures var h, h' := HandleAll(prev, d, ahead), HandleAll(prev, d, ahead');
      h.Handled? && h'.Handled? && h.packets == h'.packets && h.rest == h'.rest
  {
    hide HandleAll, Decode, FateFrom, StrayPackets;
    HandledPackets(prev, d, ahead);
    HandledPackets(prev, d, ahead');
    if Readable(prev, d) {
      HandleDecodes(prev, d, ahead);
      HandleDecodes(prev, d, ahead');
    } else if d == [] {
      ScanAtEnd(prev, d, ahead, START);
      ScanAtEnd(prev, d, ahead', START);
      HandleSteps(prev, d, ahead, Ended(0));
      HandleSteps(prev, d, ahead', Ended(0));
    } else if FateOf(d).Late? {
      var p := FateOf(d).p;
      LateSteps(d, ahead, FateOf(d).packet, p);
      LateSteps(d, ahead', FateOf(d).packet, p);
      HandleDecodes(d[p - 1], d[p..], ahead);
      HandleDecodes(d[p - 1], d[p..], ahead');
    } else {
      PendingHandled(d, ahead);
      PendingHandled(d, ahead');
    }
  }

  /** The packet the stray FE opened is taken with and without the cut: what matters is the rest. */
  lemma LateCut(d: seq<byte>, p: nat, ahead: byte, ahead': byte, ahead'': byte, slot: byte, c: seq<byte>)
    requires Strays(FE, d) && FateOf(d).Late? && FateOf(d).p == p
    requires !EndsInFE(d) || c == [] || c[0] != X5A
    ensures 2 <= p < |d| && CleanStart(d[p - 1], d[p..]) && d[p - 1] != FE
    ensures SameAsWhole(FE, d, ahead, ahead', ahead'', slot, c)
       <==> SameAsWhole(d[p - 1], d[p..], ahead, ahead', ahead'', slot, c)
  {
    hide HandleAll, Decode, FateFrom, CleanStart;
    var packet := FateOf(d).packet;
    StrayKept(d, c);
    LateSteps(d, ahead, packet, p);
    LateSteps(d + c, ahead'', packet, p);
    assert (d + c)[p..] == d[p..] + c && (d + c)[p - 1] == d[p - 1];
    var h := HandleAll(d[p - 1], d[p..], ahead);
    var h', whole := Resumed(h, c, slot, ahead'), HandleAll(d[p - 1], d[p..] + c, ahead'');
    assert Resumed(h.After([packet]), c, slot, ahead') == h';
    if h.Handled? && h'.Handled? && whole.Handled? {
      InFront([packet], h.packets, h'.packets, whole.packets);
    }
  }

  lemma InFront<T>(s: seq<T>, t: seq<T>, u: seq<T>, v: seq<T>)
    ensures (s + t) + u == s + v <==> t + u == v
  {
    assert (s + t) + u == s + (t + u);
    assert (s + (t + u))[|s|..] == t + u && (s + v)[|s|..] == v;
  }

  // ----- Harmful cuts -----

  /** Where the whole is read as the decoder reads it, what the decoder is not given back is lost. */
  lemma UndecodedHarms(prev: byte, d: seq<byte>, ahead: byte, ahead': byte, ahead'': byte, slot: byte, c: seq<byte>)
    requires !EndsInFE(d + c) && StrayPackets(prev, d + c) == []
    requires !DecodesAcross(prev, d, ahead, ahead', slot, c)
    ensures !SameAsWhole(prev, d, ahead, ahead', ahead'', slot, c)
  {
    hide HandleAll, Decode, StrayPackets;
    HandledPackets(prev, d + c, ahead'');
    assert [] + Decode(Idle, d + c).packets == Decode(Idle, d + c).packets;
  }

  /** A cut behind an FE. */
  lemma SplitPair(prev: byte, d: seq<byte>)
    requires Readable(prev, d) && EndsInFE(d)
    ensures !EndsInFE(Rest(d)) && !SameAsWhole(prev, d, Misleading(d), 0, 0, 0, Rest(d))
  {
    hide HandleAll, Decode, FateFrom;
    UnsafeCut(prev, d);
    ReadableKept(prev, d, Rest(d));
    EndOfBoth(d, Rest(d));
    UndecodedHarms(prev, d, Misleading(d), 0, 0, 0, Rest(d));
  }

  /** The same behind a packet a stray FE opened. */
  lemma SplitBehindLate(d: seq<byte>)
    requires Strays(FE, d) && FateOf(d).Late? && EndsInFE(d)
    ensures !EndsInFE(Rest(d)) && !SameAsWhole(FE, d, Misleading(d), 0, 0, 0, Rest(d))
  {
    hide HandleAll, Decode, FateFrom;
    var p, c := FateOf(d).p, Rest(d);
    LateCut(d, p, Misleading(d), 0, 0, 0, c);
    CleanIsReadable(d[p - 1], d[p..]);
    SameMisleading(d, p);
    SplitPair(d[p - 1], d[p..]);
  }

  /** A header announcing nothing, taken with the byte behind it unless the cut comes between them. */
  lemma HollowHarms()
    ensures !SameAsWhole(FE, [FE, 0, 0], 0, 0, 0, 0, [1])
  {
    var d, b, c := [FE, 0, 0], [FE, FE, 0, 0], [1];
    assert d + c == [FE, 0, 0, 1];
    GatherPlain(d + c, 1, [FE, FE], [FE, FE, 0]);
    GatherPlain(d + c, 2, [FE, FE, 0], b);
    assert FateOf(d + c) == Late(b, 3);
    HollowCut(0, 0, 0, c);
    HandledPackets(FE, d + c, 0);
  }

  lemma PendingHarms(d: seq<byte>)
    requires Strays(FE, d) && FateOf(d).Pending?
    ensures !CutHarmless(FE, d)
  {
    hide FateFrom;
    if EndsInFE(d) {
      NotPending(d);
    } else if d == [FE, 0, 0] {
      HollowHarms();
    } else {
      var c := PendingCut(d);
      EndOfBoth(d, c);
      UndecodedHarms(FE, d, 0, 0, 0, 0, c);
    }
  }

  lemma LoneHarms()
    ensures !CutHarmless(FE, [FE])
  {
    var c := LoneCut();
    EndOfBoth([FE], c);
    UndecodedHarms(FE, [FE], 0, 0, 0, 0, c);
  }

  // ----- The exact condition -----

  lemma Harmless(prev: byte, d: seq<byte>)
    requires !EndsInFE(d) && !(Strays(prev, d) && FateOf(d).Pending?)
    ensures CutHarmless(prev, d)
  {
    hide FateFrom;
    forall ahead: byte, ahead': byte, ahead'': byte, slot: byte, c: seq<byte> | !EndsInFE(c)
      ensures SameAsWhole(prev, d, ahead, ahead', ahead'', slot, c)
    {
      if Readable(prev, d) {
        ReadableCut(prev, d, ahead, ahead', ahead'', slot, c);
      } else if d == [] {
        EmptyCut(ahead, ahead', ahead'', slot, c);
      } else {
        var p := FateOf(d).p;
        LateCut(d, p, ahead, ahead', ahead'', slot, c);
        ReadableCut(d[p - 1], d[p..], ahead, ahead', ahead'', slot, c);
      }
    }
  }

  lemma EndInFEHarms(prev: byte, d: seq<byte>)
    requires EndsInFE(d)
    ensures !CutHarmless(prev, d)
  {
    hide FateFrom;
    if Readable(prev, d) {
      SplitPair(prev, d);
    } else if d == [FE] {
      LoneHarms();
    } else {
      NotPending(d);
      SplitBehindLate(d);
    }
  }

  /** A chunk boundary makes no difference exactly when the bytes before it do not end in FE and no FE left
      from before has opened a packet in them that is still pending. */
  lemma CutHarmlessExactly(prev: byte, d: seq<byte>)
    ensures CutHarmless(prev, d) <==> !EndsInFE(d) && !(Strays(prev, d) && FateOf(d).Pending?)
  {
    hide FateFrom;
    if EndsInFE(d) {
      EndInFEHarms(prev, d);
    } else if Strays(prev, d) && FateOf(d).Pending? {
      PendingHarms(d);
    } else {
      Harmless(prev, d);
    }
  }

  /** Handling at once and the decoder are different measures of a cut only behind an FE left in the slot
      before: without bytes, where the stray packet is taken, and behind a header announcing nothing. */
  lemma MeasuresDiffer(prev: byte, d: seq<byte>)
    ensures (CutHarmless(prev, d) <==> CutDecodes(prev, d)) <==>
      !(prev == FE && !EndsInFE(d) && (d == [] || d == [FE, 0, 0] || (Strays(FE, d) && FateOf(d).Late?)))
  {
    hide FateFrom;
    CutHarmlessExactly(prev, d);
    CutDecodesExactly(prev, d);
    HollowPending();
  }
}
