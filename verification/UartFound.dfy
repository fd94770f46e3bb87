/** What the reference decoder finds, without the decoder: a packet is handed out where, and only where, the
    stream so far ends in the wire form of a complete packet. */
module UartFound {
  import opened UartFrame
  import opened UartScan
  import opened UartStream

  predicate Whole(p: seq<byte>) {
    Complete(p) && p[0] == p[1] == FE && p[2] != FE
  }

  predicate Suffix(s: seq<byte>, t: seq<byte>) {
    |t| <= |s| && s[|s| - |t|..] == t
  }

  /** The bytes read last are the wire form of `p`. */
  predicate Arrived(s: seq<byte>, p: seq<byte>) {
    Whole(p) && Suffix(s, Wire(p))
  }

  lemma SuffixSnoc(s: seq<byte>, t: seq<byte>, x: byte)
    requires Suffix(s, t)
    ensures Suffix(s + [x], t + [x])
  {}

  lemma SuffixTail(s: seq<byte>, t: seq<byte>, k: nat)
    requires Suffix(s, t) && k <= |t|
    ensures Suffix(s, t[k..])
  {}

  lemma WireOne(b: seq<byte>, x: byte)
    requires |b| >= 2
    ensures Wire(b + [x]) == Wire(b) + if x == FE then [FE, X5A] else [x]
  {
    WireSnoc(b, x);
    EscapeOne(x);
  }

  /** What the decoder holds are the last bytes read. */
  lemma {:induction false} HoldsLast(s: seq<byte>)
    ensures WellFormed(Decode(Idle, s).st) && Suffix(s, HeldAfter(s))
  {
    if s != [] {
      var t, x := s[..|s| - 1], s[|s| - 1];
      assert s == t + [x];
      HoldsLast(t);
      DecodeSnoc(Idle, t, x);
      HoldsNext(t, Decode(Idle, t).st, x);
    }
  }

  lemma HoldsNext(t: seq<byte>, st: Decoder, x: byte)
    requires WellFormed(st) && Suffix(t, Held(st))
    ensures WellFormed(Feed(st, x).st) && Suffix(t + [x], Held(Feed(st, x).st))
  {
    hide Wire;
    FeedShape(st, x);
    SuffixSnoc(t, Held(st), x);
    match st {
      case Synced =>
        HeaderWire(x);
        if x == FE {
          SuffixTail(t + [x], [FE, FE] + [x], 1);
          assert ([FE, FE] + [x])[1..] == [FE, FE];
        }
      case Body(b) => WireOne(b, x);
      case Escaping(b) =>
        WireOne(b, FE);
        if x == FE {
          SuffixTail(t + [x], Held(st) + [x], |Wire(b)|);
          assert (Held(st) + [x])[|Wire(b)|..] == [FE, FE];
        }
        assert Wire(b) + [FE] + [X5A] == Wire(b) + [FE, X5A];
      case _ =>
    }
  }

  lemma HeaderWire(x: byte)
    ensures x != FE ==> Wire([FE, FE] + [x]) == [FE, FE] + [x]
  {
    WireOne([FE, FE], x);
    assert Wire([FE, FE]) == [FE, FE];
  }

  /** The decoder hands out a packet only when its wire form has just arrived. */
  lemma OnlyArrived(s: seq<byte>, x: byte, p: seq<byte>)
    requires Feed(Decode(Idle, s).st, x).packets == [p]
    ensures Arrived(s + [x], p)
  {
    HoldsLast(s);
    var st := Decode(Idle, s).st;
    hide Decode, Wire;
    SuffixSnoc(s, Held(st), x);
    match st {
      case Body(b) => WireOne(b, x);
      case Escaping(b) =>
        WireOne(b, FE);
        assert Wire(b) + [FE] + [X5A] == Wire(b) + [FE, X5A];
      case _ =>
    }
  }

  /** From whatever state, the last byte of the wire form of a packet is the one that brings it out. */
  lemma LastByte(st: Decoder, p: seq<byte>)
    requires Whole(p)
    ensures |Wire(p)| >= 1
    ensures var w := Wire(p); Feed(Decode(st, w[..|w| - 1]).st, w[|w| - 1]).packets == [p]
  {
    var a, x, w := p[..|p| - 1], p[|p| - 1], Wire(p);
    DecodeOpen(st, a);
    WireOne(a, x);
    hide Decode, Wire;
    assert p == a + [x];
    if x == FE {
      assert w[..|w| - 1] == Wire(a) + [FE];
      DecodeSnoc(st, Wire(a), FE);
    } else {
      assert w[..|w| - 1] == Wire(a);
    }
  }

  lemma EveryArrived(s: seq<byte>, x: byte, p: seq<byte>)
    requires Arrived(s + [x], p)
    ensures Feed(Decode(Idle, s).st, x).packets == [p]
  {
    var w := Wire(p);
    var u := s[..|s| + 1 - |w|];
    hide Decode, Wire;
    LastByte(Decode(Idle, u).st, p);
    assert (s + [x])[|s| + 1 - |w|..] == w;
    assert w[|w| - 1] == x;
    assert s == u + w[..|w| - 1];
    DecodeAppend(Idle, u, w[..|w| - 1]);
  }

  /** One more byte brings out a packet exactly if its wire form has then arrived; otherwise nothing. */
  lemma HandedOut(s: seq<byte>, x: byte)
    ensures var before, after := Decode(Idle, s).packets, Decode(Idle, s + [x]).packets;
      && (forall p :: after == before + [p] <==> Arrived(s + [x], p))
      && (after == before || exists p :: Arrived(s + [x], p) && after == before + [p])
  {
    DecodeSnoc(Idle, s, x);
    var before, ps := Decode(Idle, s).packets, Feed(Decode(Idle, s).st, x).packets;
    OneAtMost(Decode(Idle, s).st, x);
    forall p
      ensures before + ps == before + [p] <==> Arrived(s + [x], p)
    {
      if Arrived(s + [x], p) {
        EveryArrived(s, x, p);
      }
      if before + ps == before + [p] {
        assert (before + ps)[|before|..] == ps && (before + [p])[|before|..] == [p];
        OnlyArrived(s, x, p);
      }
    }
    if ps == [] {
      assert before + ps == before;
    } else {
      assert ps == [ps[0]];
      assert Arrived(s + [x], ps[0]);
    }
  }

  lemma OneAtMost(st: Decoder, x: byte)
    ensures |Feed(st, x).packets| <= 1
  {}

  /** So the packets of a stream are exactly those whose wire form stands somewhere in it. */
  lemma {:induction false} FoundExactly(s: seq<byte>, p: seq<byte>)
    ensures p in Decode(Idle, s).packets <==> exists k :: 0 <= k <= |s| && Arrived(s[..k], p)
  {
    hide Decode, Arrived;
    if s == [] {
      assert Decode(Idle, s).packets == [] by { DecodeNothing(s); }
      assert !Arrived(s[..0], p) by { NothingArrived(s[..0], p); }
    } else {
      var n := |s| - 1;
      var t := s[..n];
      assert s == t + [s[n]] && s[..n + 1] == s;
      FoundExactly(t, p);
      HandedOut(t, s[n]);
      assert forall k :: 0 <= k <= n ==> s[..k] == t[..k];
    }
  }

  lemma NothingArrived(s: seq<byte>, p: seq<byte>)
    requires s == []
    ensures !Arrived(s, p)
  {}
}
