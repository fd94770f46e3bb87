/** The receiver's scan over the unread bytes, as a function of the bytes alone: `d` holds the unread
    bytes, `prev` is what lies in the ring slot before them and `ahead` what lies in the slot after
    them. The scan looks at both. Positions count from the first unread byte; the read pointer can
    step back to -1. */
module UartScan {
  import opened UartFrame

  datatype Status = Sync1 | Sync2 | LenH | LenL | Payload

  datatype Cursor = Cursor(status: Status, p: nat, r: int, recvLen: nat, slen: nat)

  /** Ended: all bytes scanned, the read pointer is left at `r`. Got: a packet was copied out and the
      read pointer moved behind it. Overrun: the scan stepped over the write pointer. */
  datatype Scanned = Ended(r: int) | Got(packet: seq<byte>, r: int) | Overrun

  function At(prev: byte, d: seq<byte>, ahead: byte, i: int): byte {
    if i < 0 then prev else if i < |d| then d[i] else ahead
  }

  /** The unread bytes once the read pointer is at `r`. */
  function From(prev: byte, d: seq<byte>, r: int): seq<byte>
    requires -1 <= r <= |d|
  {
    if r < 0 then [prev] + d else d[r..]
  }

  datatype Judged = Judged(c: Cursor, legal: bool)

  /** How an FE is taken: first sync byte, second sync byte, escaped data, or illegal. */
  function Judge(prev: byte, d: seq<byte>, ahead: byte, c: Cursor): Judged {
    if At(prev, d, ahead, c.p + 1) == FE then Judged(c.(status := Sync1, r := c.p), true)
    else if At(prev, d, ahead, c.p - 1) == FE then Judged(c.(status := Sync2, r := c.p - 1), true)
    else if At(prev, d, ahead, c.p + 1) == X5A && (c.status == LenL || c.status == Payload) then
      Judged(c.(p := c.p + 1), true)
    else Judged(c.(status := Sync1, p := c.p + 1, r := c.p + 1), false)
  }

  /** One transition on the byte `x`, up to and including the advance of the scan pointer. */
  function Advance(c: Cursor, x: byte): Cursor {
    match c.status
    case Sync1 =>
      if x == FE then c.(status := Sync2, recvLen := 1, p := c.p + 1)
      else c.(r := c.r + 1, p := c.p + 1)
    case Sync2 =>
      if x == FE then c.(status := LenH, recvLen := c.recvLen + 1, p := c.p + 1)
      else c.(status := Sync1, r := c.r + 2, recvLen := 0, p := c.p + 1)
    case LenH =>
      if x == FE then c.(r := c.r + 1, recvLen := 2, p := c.p + 1)
      else c.(status := LenL, slen := x, recvLen := c.recvLen + 1, p := c.p + 1)
    case LenL =>
      c.(status := Payload, slen := c.slen * 0x100 % 0x10000 + x, recvLen := c.recvLen + 1, p := c.p + 1)
    case Payload => c.(recvLen := c.recvLen + 1, p := c.p + 1)
  }

  predicate Finishes(c: Cursor) {
    c.status == Payload && c.recvLen + 1 == c.slen + 4
  }

  datatype Copied = Copied(out: seq<byte>, used: nat) | RanOut | CutTooFar

  /** How many ring bytes the packet byte with index `i` takes. */
  function Width(i: nat, x: byte): (w: nat)
    ensures 1 <= w <= 2
  {
    if i >= 2 && x == FE then 2 else 1
  }

  /** Copying `m` bytes out of `u`, dropping the byte after each FE from the third byte on. */
  function Copy(u: seq<byte>, m: nat): (c: Copied)
    ensures c.Copied? ==> |c.out| == m <= c.used <= |u|
  {
    if m == 0 then Copied([], 0)
    else
      match Copy(u, m - 1)
      case Copied(out, used) =>
        if used == |u| then RanOut
        else if used + Width(m - 1, u[used]) > |u| then CutTooFar
        else Copied(out + [u[used]], used + Width(m - 1, u[used]))
      case bad => bad
  }

  lemma {:induction false} CopyStuck(u: seq<byte>, m: nat, m': nat)
    requires m <= m' && !Copy(u, m).Copied?
    ensures Copy(u, m') == Copy(u, m)
  {
    if m < m' {
      CopyStuck(u, m, m' - 1);
    }
  }

  /** What every cursor the scan starts from or reaches satisfies. */
  predicate Sane(d: seq<byte>, c: Cursor) {
    && -1 <= c.r <= c.p <= |d|
    && (c.status == Sync1 ==> c.r == c.p)
    && (c.status == Sync2 ==> c.r == c.p - 1)
  }

  function Take(prev: byte, d: seq<byte>, c: Cursor): Scanned
    requires -1 <= c.r <= |d|
  {
    match Copy(From(prev, d, c.r), c.recvLen + 1)
    case Copied(out, used) => Got(out, c.r + used)
    case RanOut => Ended(|d|)
    case CutTooFar => Overrun
  }

  datatype Move = Stop(s: Scanned) | Go(c: Cursor)

  /** One round of the scan loop. */
  function Next(prev: byte, d: seq<byte>, ahead: byte, c: Cursor): (m: Move)
    requires Sane(d, c)
    ensures m.Go? ==> Sane(d, m.c) && m.c.p > c.p
    ensures m.Stop? && m.s.Ended? ==> -1 <= m.s.r <= |d|
    ensures m.Stop? && m.s.Got? ==> -1 <= m.s.r <= |d| && m.s.r + 1 >= |m.s.packet|
  {
    if c.p == |d| then Stop(Ended(c.r))
    else
      var x := d[c.p];
      var j := if x == FE then Judge(prev, d, ahead, c) else Judged(c, true);
      if !j.legal then Go(j.c)
      else if j.c.p == |d| then Stop(Overrun)
      else if Finishes(j.c) then Stop(Take(prev, d, j.c))
      else Go(Advance(j.c, x))
  }

  function Scan(prev: byte, d: seq<byte>, ahead: byte, c: Cursor): (s: Scanned)
    requires Sane(d, c)
    ensures s.Ended? ==> -1 <= s.r <= |d|
    ensures s.Got? ==> -1 <= s.r <= |d| && s.r + 1 >= |s.packet|
    decreases |d| - c.p
  {
    match Next(prev, d, ahead, c)
    case Stop(s) => s
    case Go(c') => Scan(prev, d, ahead, c')
  }

  lemma ScanUnfold(prev: byte, d: seq<byte>, ahead: byte, c: Cursor)
    requires Sane(d, c)
    ensures var m := Next(prev, d, ahead, c);
            Scan(prev, d, ahead, c) == if m.Stop? then m.s else Scan(prev, d, ahead, m.c)
  {}

  lemma ScanAtEnd(prev: byte, d: seq<byte>, ahead: byte, c: Cursor)
    requires Sane(d, c) && c.p == |d|
    ensures Scan(prev, d, ahead, c) == Ended(c.r)
  {}

  const START := Cursor(Sync1, 0, 0, 0, 0)

  /** The read pointer steps back only from an unclean start. */
  lemma {:induction false} StepBack(prev: byte, d: seq<byte>, ahead: byte, c: Cursor)
    requires Sane(d, c) && (c.r < 0 ==> !CleanStart(prev, d))
    ensures var s := Scan(prev, d, ahead, c); s.Ended? && s.r < 0 ==> !CleanStart(prev, d)
    decreases |d| - c.p
  {
    ScanUnfold(prev, d, ahead, c);
    var m := Next(prev, d, ahead, c);
    if m.Go? {
      StepBack(prev, d, ahead, m.c);
    }
  }

  // ----- Copying undoes escaping -----

  lemma CopyOne(u: seq<byte>, m: nat, out: seq<byte>, used: nat, x: byte)
    requires Copy(u, m) == Copied(out, used) && used + Width(m, x) <= |u| && u[used] == x
    ensures Copy(u, m + 1) == Copied(out + [x], used + Width(m, x))
  {}

  lemma CopySync(u: seq<byte>)
    requires |u| >= 2
    ensures Copy(u, 2) == Copied(u[..2], 2)
  {
    assert Copy(u, 0) == Copied([], 0);
    CopyOne(u, 0, [], 0, u[0]);
    CopyOne(u, 1, [u[0]], 1, u[1]);
  }

  lemma {:induction false} CopyWire(b: seq<byte>, rest: seq<byte>, m: nat)
    requires 2 <= m <= |b|
    ensures Copy(Wire(b) + rest, m) == Copied(b[..m], |Wire(b[..m])|)
  {
    hide Copy, Escape;
    var u := Wire(b) + rest;
    WireCut(b, m);
    if m == 2 {
      EscapeShape(b[..2][2..]);
      CopySync(u);
    } else {
      var a, x := b[..m - 1], b[m - 1];
      CopyWire(b, rest, m - 1);
      assert b[..m] == a + [x];
      hide Wire;
      WireSnoc(a, x);
      EscapeOne(x);
      assert u[|Wire(a)|] == Wire(b[..m])[|Wire(a)|] == x;
      CopyOne(u, m - 1, a, |Wire(a)|, x);
    }
  }

  lemma WireCut(b: seq<byte>, m: nat)
    requires 2 <= m <= |b|
    ensures Wire(b[..m]) <= Wire(b)
  {
    EscapeAppend(b[2..m], b[m..]);
    assert b[2..] == b[2..m] + b[m..];
    assert b[..m][2..] == b[2..m];
    assert Wire(b) == Wire(b[..m]) + Escape(b[m..]);
  }

  // ----- The open packet -----

  /** In the length and payload states `b` is the packet read so far; `recvLen` counts its bytes, or
      one less when the first sync byte lay before the read pointer. */
  predicate Shape(prev: byte, d: seq<byte>, c: Cursor, b: seq<byte>)
    requires Sane(d, c)
  {
    match c.status
    case Sync1 =>
      && (c.p == 0 ==> c.recvLen == 0)
      && (0 < c.p < |d| && d[c.p] == FE ==> d[c.p - 1] != FE)
    case Sync2 =>
      c.p >= 1 && d[c.p - 1] == FE && c.recvLen == 1 && (c.p < |d| ==> d[c.p] == FE)
    case LenH =>
      b == [FE, FE] && HoldsWire(prev, d, c, b) && (c.p < |d| ==> d[c.p] != FE)
    case LenL =>
      |b| == 3 && b[2] != FE && b[2] == c.slen && HoldsWire(prev, d, c, b)
    case Payload =>
      |b| >= 4 && b[2] != FE && LengthField(b) == c.slen && HoldsWire(prev, d, c, b)
  }

  predicate HoldsWire(prev: byte, d: seq<byte>, c: Cursor, b: seq<byte>)
    requires Sane(d, c)
  {
    && |b| >= 2 && b[0] == b[1] == FE && c.recvLen <= |b| <= c.recvLen + 1
    && From(prev, d, c.r)[..c.p - c.r] == Wire(b)
  }

  /** The packet read so far, one round later. */
  function Grow(b: seq<byte>, c': Cursor, x: byte): seq<byte> {
    match c'.status
    case LenH => [FE, FE]
    case LenL => [FE, FE, x]
    case Payload => b + [x]
    case _ => []
  }

  lemma WireEnd(b: seq<byte>)
    requires |b| >= 3
    ensures |Wire(b)| >= 3 && Wire(b)[|Wire(b)| - 1] != FE
  {
    EscapeShape(b[2..]);
    var w, e := Wire(b), Escape(b[2..]);
    assert w[|w| - 1] == e[|e| - 1];
  }

  lemma WindowGrows(prev: byte, d: seq<byte>, r: int, p: nat, q: nat)
    requires -1 <= r <= p <= q <= |d|
    ensures From(prev, d, r)[..q - r] == From(prev, d, r)[..p - r] + d[p..q]
  {
    var u := From(prev, d, r);
    assert |u[p - r..q - r]| == |d[p..q]|;
    assert forall k :: 0 <= k < q - p ==> u[p - r..q - r][k] == d[p..q][k];
    assert u[..q - r] == u[..p - r] + u[p - r..q - r];
  }

  /** Inside an open packet the byte before the scan pointer is never FE, so an FE here is either the
      first byte of a new sync pair, an escaped FE, or illegal. */
  lemma NoSyncBehind(prev: byte, d: seq<byte>, c: Cursor, b: seq<byte>)
    requires Sane(d, c) && Shape(prev, d, c, b) && (c.status == LenL || c.status == Payload)
    ensures c.p >= 1 && d[c.p - 1] != FE
  {
    WireEnd(b);
    var u := From(prev, d, c.r);
    assert u[..c.p - c.r][c.p - c.r - 1] == u[c.p - c.r - 1] == d[c.p - 1];
  }

  lemma WindowTakes(prev: byte, d: seq<byte>, c: Cursor, b: seq<byte>, x: byte, q: nat)
    requires Sane(d, c) && HoldsWire(prev, d, c, b)
    requires c.p < q <= |d| && d[c.p..q] == Escape([x])
    ensures From(prev, d, c.r)[..q - c.r] == Wire(b + [x])
  {
    WindowGrows(prev, d, c.r, c.p, q);
    WireSnoc(b, x);
  }

  lemma ShapeKeptHunting(prev: byte, d: seq<byte>, ahead: byte, c: Cursor, b: seq<byte>)
    requires Sane(d, c) && Shape(prev, d, c, b) && (c.status == Sync1 || c.status == Sync2)
    requires Next(prev, d, ahead, c).Go?
    ensures Shape(prev, d, Next(prev, d, ahead, c).c, Grow(b, Next(prev, d, ahead, c).c, d[c.p]))
  {
    var c' := Next(prev, d, ahead, c).c;
    if c'.status == LenH {
      assert From(prev, d, c'.r)[..2] == [FE, FE];
      assert Wire([FE, FE]) == [FE, FE];
    }
  }

  lemma ShapeKeptBody(prev: byte, d: seq<byte>, ahead: byte, c: Cursor, b: seq<byte>)
    requires Sane(d, c) && Shape(prev, d, c, b) && (c.status == LenL || c.status == Payload)
    requires Next(prev, d, ahead, c).Go?
    ensures Shape(prev, d, Next(prev, d, ahead, c).c, Grow(b, Next(prev, d, ahead, c).c, d[c.p]))
  {
    hide Wire, Escape, Copy, Take, From;
    var c', x := Next(prev, d, ahead, c).c, d[c.p];
    NoSyncBehind(prev, d, c, b);
    if c'.status == Payload {
      EscapeOne(x);
      assert d[c.p..c'.p] == Escape([x]);
      WindowTakes(prev, d, c, b, x, c'.p);
    }
  }

  lemma ShapeKept(prev: byte, d: seq<byte>, ahead: byte, c: Cursor, b: seq<byte>)
    requires Sane(d, c) && Shape(prev, d, c, b)
    requires Next(prev, d, ahead, c).Go?
    ensures Shape(prev, d, Next(prev, d, ahead, c).c, Grow(b, Next(prev, d, ahead, c).c, d[c.p]))
  {
    var c', x := Next(prev, d, ahead, c).c, d[c.p];
    match c.status {
      case Sync1 => ShapeKeptHunting(prev, d, ahead, c, b);
      case Sync2 => ShapeKeptHunting(prev, d, ahead, c, b);
      case LenH =>
        EscapeOne(x);
        assert d[c.p..c'.p] == Escape([x]);
        WindowTakes(prev, d, c, b, x, c'.p);
      case LenL => ShapeKeptBody(prev, d, ahead, c, b);
      case Payload => ShapeKeptBody(prev, d, ahead, c, b);
    }
  }

  lemma TakeCopies(prev: byte, d: seq<byte>, c: Cursor, b: seq<byte>, q: nat)
    requires -1 <= c.r <= q <= |d| && |b| >= 2
    requires From(prev, d, c.r)[..q - c.r] == Wire(b)
    requires 2 <= c.recvLen + 1 <= |b|
    ensures Take(prev, d, c) == Got(b[..c.recvLen + 1], c.r + |Wire(b[..c.recvLen + 1])|)
  {
    var u := From(prev, d, c.r);
    assert u == Wire(b) + u[q - c.r..];
    CopyWire(b, u[q - c.r..], c.recvLen + 1);
  }

  lemma TakeFramed(prev: byte, d: seq<byte>, ahead: byte, c: Cursor, b: seq<byte>)
    requires Sane(d, c) && Shape(prev, d, c, b) && c.p < |d|
    requires Next(prev, d, ahead, c).Stop? && !(d[c.p] == FE && c.p + 1 == |d|)
    ensures c.status == Payload && Finishes(c) && c.recvLen + 1 <= |b| + 1
    ensures var p := (b + [d[c.p]])[..c.recvLen + 1];
      Next(prev, d, ahead, c).s == Got(p, c.r + |Wire(p)|) && Framed(p)
  {
    var x := d[c.p];
    NextStops(prev, d, ahead, c, b);
    NoSyncBehind(prev, d, c, b);
    EscapeOne(x);
    var q := if x == FE then c.p + 2 else c.p + 1;
    assert d[c.p..q] == Escape([x]);
    WindowTakes(prev, d, c, b, x, q);
    TakeCopies(prev, d, c, b + [x], q);
  }

  /** The scan stops before the end only at the last byte of a packet, or by overrunning. */
  lemma NextStops(prev: byte, d: seq<byte>, ahead: byte, c: Cursor, b: seq<byte>)
    requires Sane(d, c) && Shape(prev, d, c, b) && c.p < |d|
    requires Next(prev, d, ahead, c).Stop?
    ensures var s := Next(prev, d, ahead, c).s;
      || (d[c.p] == FE && c.p + 1 == |d| && s == Overrun)
      || (c.status == Payload && Finishes(c) && s == Take(prev, d, c)
          && (d[c.p] == FE ==> c.p + 1 < |d| && d[c.p + 1] == X5A))
  {
    if c.status == Payload || c.status == LenL {
      NoSyncBehind(prev, d, c, b);
    }
  }

  /** Whatever lies around the unread bytes, what is copied out is a framed packet. */
  lemma {:induction false} GotFramed(prev: byte, d: seq<byte>, ahead: byte, c: Cursor, b: seq<byte>)
    requires Sane(d, c) && Shape(prev, d, c, b)
    ensures var s := Scan(prev, d, ahead, c); s.Got? ==> Framed(s.packet)
    decreases |d| - c.p
  {
    match Next(prev, d, ahead, c)
    case Stop(s) =>
      if s.Got? {
        NextStops(prev, d, ahead, c, b);
        TakeFramed(prev, d, ahead, c, b);
      }
    case Go(c') =>
      ShapeKept(prev, d, ahead, c, b);
      GotFramed(prev, d, ahead, c', Grow(b, c', d[c.p]));
  }

  // ----- The packet buffer -----

  /** From the cursor on, the scan copies into a buffer of `n` bytes without leaving it: it copies when it
      finds the last byte of a packet, and as many bytes as the packet then has. */
  predicate CopyFits(prev: byte, d: seq<byte>, ahead: byte, c: Cursor, n: nat)
    requires Sane(d, c)
    decreases |d| - c.p
  {
    match Next(prev, d, ahead, c)
    case Stop(s) => c.p < |d| && s != Overrun ==> c.recvLen + 1 <= n
    case Go(c') => CopyFits(prev, d, ahead, c', n)
  }

  lemma FitsUnfold(prev: byte, d: seq<byte>, ahead: byte, c: Cursor, n: nat)
    requires Sane(d, c)
    ensures var m := Next(prev, d, ahead, c);
      CopyFits(prev, d, ahead, c, n) <==>
        if m.Go? then CopyFits(prev, d, ahead, m.c, n)
        else (c.p < |d| && m.s != Overrun ==> c.recvLen + 1 <= n)
  {}

  /** The copy stays inside the buffer exactly when the packet found, if any, is no longer than it. */
  lemma {:induction false} CopyFitsExactly(prev: byte, d: seq<byte>, ahead: byte, c: Cursor, b: seq<byte>, n: nat)
    requires Sane(d, c) && Shape(prev, d, c, b)
    ensures var s := Scan(prev, d, ahead, c);
      CopyFits(prev, d, ahead, c, n) <==> (s.Got? ==> |s.packet| <= n)
    decreases |d| - c.p
  {
    hide Scan, CopyFits, Copy, Wire;
    FitsUnfold(prev, d, ahead, c, n);
    ScanUnfold(prev, d, ahead, c);
    match Next(prev, d, ahead, c)
    case Stop(s) =>
      if c.p < |d| && s != Overrun {
        StopLength(prev, d, ahead, c, b);
      }
    case Go(c') =>
      ShapeKept(prev, d, ahead, c, b);
      CopyFitsExactly(prev, d, ahead, c', Grow(b, c', d[c.p]), n);
  }

  lemma StopLength(prev: byte, d: seq<byte>, ahead: byte, c: Cursor, b: seq<byte>)
    requires Sane(d, c) && Shape(prev, d, c, b) && c.p < |d|
    requires Next(prev, d, ahead, c).Stop? && Next(prev, d, ahead, c).s != Overrun
    ensures Next(prev, d, ahead, c).s.Got? && |Next(prev, d, ahead, c).s.packet| == c.recvLen + 1
  {
    hide Next, Take, Copy, Wire;
    NextStops(prev, d, ahead, c, b);
    TakeFramed(prev, d, ahead, c, b);
  }

  // ----- The scan and the reference decoder -----

  /** An FE before the unread bytes cannot be taken for their first sync byte. */
  predicate CleanStart(prev: byte, d: seq<byte>) {
    prev == FE ==> d != [] && (d[0] == FE ==> |d| >= 2 && d[1] == FE)
  }

  predicate EndsInFE(d: seq<byte>) {
    d != [] && d[|d| - 1] == FE
  }

  /** The reference decoder, fed the bytes already scanned, is where the cursor says it is. */
  predicate Tracks(prev: byte, d: seq<byte>, c: Cursor, b: seq<byte>)
    requires Sane(d, c)
  {
    var o := Decode(Idle, d[..c.p]);
    && o.packets == []
    && match c.status
       case Sync1 =>
         && (c.p == 0 ==> CleanStart(prev, d))
         && (o.st.Idle? || (c.p < |d| && d[c.p] != FE && (o.st.OneSync? || (o.st.Escaping? && d[c.p] != X5A))))
       case Sync2 => o.st.OneSync? || o.st.Synced? || o.st.Escaping?
       case LenH => o.st.Synced? && c.r >= 0 && c.recvLen == 2
       case LenL => o.st == Body(b) && c.r >= 0 && c.recvLen == |b|
       case Payload => o.st == Body(b) && c.r >= 0 && c.recvLen == |b| && Open(b)
  }

  lemma DecodeNext(d: seq<byte>, p: nat)
    requires p < |d|
    ensures var o, f := Decode(Idle, d[..p]), Feed(Decode(Idle, d[..p]).st, d[p]);
            Decode(Idle, d[..p + 1]) == Outcome(f.st, o.packets + f.packets)
  {
    DecodeSnoc(Idle, d[..p], d[p]);
    assert d[..p + 1] == d[..p] + [d[p]];
  }

  predicate AtLastFE(d: seq<byte>, c: Cursor) {
    c.p < |d| ==> c.p + 1 == |d| && d[c.p] == FE
  }

  lemma TracksKeptHunting(prev: byte, d: seq<byte>, ahead: byte, c: Cursor, b: seq<byte>)
    requires Sane(d, c) && Shape(prev, d, c, b) && Tracks(prev, d, c, b) && !AtLastFE(d, c)
    requires c.status == Sync1 || c.status == Sync2
    ensures var m := Next(prev, d, ahead, c); m.Go? && Tracks(prev, d, m.c, Grow(b, m.c, d[c.p]))
  {
    hide Wire, Escape, Copy, Take, From, Decode;
    DecodeNext(d, c.p);
  }

  lemma TracksKeptLenH(prev: byte, d: seq<byte>, ahead: byte, c: Cursor, b: seq<byte>)
    requires Sane(d, c) && Shape(prev, d, c, b) && Tracks(prev, d, c, b) && c.p < |d| && c.status == LenH
    ensures var m := Next(prev, d, ahead, c); m.Go? && Tracks(prev, d, m.c, Grow(b, m.c, d[c.p]))
  {
    DecodeNext(d, c.p);
  }

  lemma TracksKeptData(prev: byte, d: seq<byte>, ahead: byte, c: Cursor, b: seq<byte>)
    requires Sane(d, c) && Shape(prev, d, c, b) && Tracks(prev, d, c, b) && c.p < |d|
    requires (c.status == LenL || c.status == Payload) && d[c.p] != FE
    requires Next(prev, d, ahead, c).Go?
    ensures var m := Next(prev, d, ahead, c); Tracks(prev, d, m.c, Grow(b, m.c, d[c.p]))
  {
    hide Next, Judge, Decode, Wire, From, Copy;
    DecodeNext(d, c.p);
    NextData(prev, d, ahead, c);
  }

  lemma NextData(prev: byte, d: seq<byte>, ahead: byte, c: Cursor)
    requires Sane(d, c) && c.p < |d| && d[c.p] != FE && Next(prev, d, ahead, c).Go?
    ensures !Finishes(c) && Next(prev, d, ahead, c) == Go(Advance(c, d[c.p]))
  {}

  lemma TracksKeptEscape(prev: byte, d: seq<byte>, ahead: byte, c: Cursor, b: seq<byte>)
    requires Sane(d, c) && Shape(prev, d, c, b) && Tracks(prev, d, c, b) && c.p + 1 < |d|
    requires (c.status == LenL || c.status == Payload) && d[c.p] == FE && d[c.p + 1] == X5A
    requires Next(prev, d, ahead, c).Go?
    ensures var m := Next(prev, d, ahead, c); Tracks(prev, d, m.c, Grow(b, m.c, d[c.p]))
  {
    hide Wire, Escape, Copy, Take, From, Decode;
    NoSyncBehind(prev, d, c, b);
    DecodeNext(d, c.p);
    DecodeNext(d, c.p + 1);
    assert Next(prev, d, ahead, c) == Go(Advance(c.(p := c.p + 1), FE));
  }

  lemma TracksKeptFE(prev: byte, d: seq<byte>, ahead: byte, c: Cursor, b: seq<byte>)
    requires Sane(d, c) && Shape(prev, d, c, b) && Tracks(prev, d, c, b) && c.p + 1 < |d|
    requires (c.status == LenL || c.status == Payload) && d[c.p] == FE && d[c.p + 1] != X5A
    requires Next(prev, d, ahead, c).Go?
    ensures var m := Next(prev, d, ahead, c); Tracks(prev, d, m.c, Grow(b, m.c, d[c.p]))
  {
    hide Wire, Escape, Copy, Take, From, Decode;
    NoSyncBehind(prev, d, c, b);
    DecodeNext(d, c.p);
  }

  lemma TracksKept(prev: byte, d: seq<byte>, ahead: byte, c: Cursor, b: seq<byte>)
    requires Sane(d, c) && Shape(prev, d, c, b) && Tracks(prev, d, c, b) && !AtLastFE(d, c)
    requires Next(prev, d, ahead, c).Go?
    ensures var m := Next(prev, d, ahead, c); Tracks(prev, d, m.c, Grow(b, m.c, d[c.p]))
  {
    if c.status == Sync1 || c.status == Sync2 {
      TracksKeptHunting(prev, d, ahead, c, b);
    } else if c.status == LenH {
      TracksKeptLenH(prev, d, ahead, c, b);
    } else if d[c.p] == FE && d[c.p + 1] == X5A {
      TracksKeptEscape(prev, d, ahead, c, b);
    } else if d[c.p] == FE {
      TracksKeptFE(prev, d, ahead, c, b);
    } else {
      TracksKeptData(prev, d, ahead, c, b);
    }
  }

  lemma TakesAll(prev: byte, d: seq<byte>, ahead: byte, c: Cursor, b: seq<byte>)
    requires Sane(d, c) && Shape(prev, d, c, b) && c.recvLen == |b| && c.p < |d|
    requires Next(prev, d, ahead, c).Stop? && !(d[c.p] == FE && c.p + 1 == |d|)
    ensures var x, q := d[c.p], if d[c.p] == FE then c.p + 2 else c.p + 1;
      c.status == Payload && Complete(b + [x]) && q <= |d| && d[c.p..q] == Escape([x])
      && Next(prev, d, ahead, c).s == Got(b + [x], q)
  {
    hide Next, Take, Copy, Wire, Decode;
    var x := d[c.p];
    TakeFramed(prev, d, ahead, c, b);
    NextStops(prev, d, ahead, c, b);
    EscapeOne(x);
    WireSnoc(b, x);
    assert |From(prev, d, c.r)[..c.p - c.r]| == |Wire(b)|;
    assert (b + [x])[..c.recvLen + 1] == b + [x];
  }

  lemma DecodeTaken(d: seq<byte>, p: nat, q: nat, b: seq<byte>)
    requires p < q <= |d| && Decode(Idle, d[..p]) == Outcome(Body(b), [])
    requires d[p..q] == Escape([d[p]]) && Complete(b + [d[p]])
    ensures d[q - 1] != FE && Decode(Idle, d[..q]) == Outcome(Idle, [b + [d[p]]])
  {
    EscapeOne(d[p]);
    assert d[p..q][q - p - 1] == d[q - 1];
    DecodeNext(d, p);
    if d[p] == FE {
      DecodeNext(d, p + 1);
    }
  }

  /** The packet copied out is the one the reference decoder hands out at the same byte. */
  lemma TracksTake(prev: byte, d: seq<byte>, ahead: byte, c: Cursor, b: seq<byte>)
    requires Sane(d, c) && Shape(prev, d, c, b) && Tracks(prev, d, c, b) && !AtLastFE(d, c)
    requires Next(prev, d, ahead, c).Stop?
    ensures Next(prev, d, ahead, c).s.Got? && Agrees(prev, d, Next(prev, d, ahead, c).s)
  {
    hide Next, Take, Scan;
    NextStops(prev, d, ahead, c, b);
    TakesAll(prev, d, ahead, c, b);
    DecodeTaken(d, c.p, if d[c.p] == FE then c.p + 2 else c.p + 1, b);
  }

  /** An incomplete packet stays in the ring from its header on, and rescanning it brings the decoder
      back to where it was. */
  lemma TracksEnd(prev: byte, d: seq<byte>, c: Cursor, b: seq<byte>)
    requires Sane(d, c) && Shape(prev, d, c, b) && Tracks(prev, d, c, b) && !EndsInFE(d) && c.p == |d|
    ensures Agrees(prev, d, Ended(c.r))
  {
    assert d[..c.p] == d;
    if c.status == LenL || c.status == Payload {
      assert d[c.r..] == From(prev, d, c.r)[..c.p - c.r] == Wire(b);
      DecodeOpen(Idle, b);
    }
  }

  /** Between packets, or inside one with no escape pending. */
  predicate Settled(st: Decoder) {
    st.Idle? || (st.Body? && Open(st.b))
  }

  /** The bytes a decoder state stands for: what has to be read again to get back to it. */
  function Held(st: Decoder): seq<byte>
    requires WellFormed(st)
  {
    match st
    case Idle => []
    case OneSync => [FE]
    case Synced => [FE, FE]
    case Body(b) => Wire(b)
    case Escaping(b) => Wire(b) + [FE]
  }

  /** What the scan did is what the reference decoder does on the same bytes. */
  predicate Agrees(prev: byte, d: seq<byte>, s: Scanned)
  {
    match s
    case Ended(r) =>
      && 0 <= r <= |d| && Decode(Idle, d[r..]) == Decode(Idle, d) && Decode(Idle, d).packets == []
      && Settled(Decode(Idle, d).st) && d[r..] == Held(Decode(Idle, d).st)
      && CleanStart(At(prev, d, 0, r - 1), d[r..])
    case Got(p, r) => 1 <= r <= |d| && d[r - 1] != FE && Decode(Idle, d[..r]) == Outcome(Idle, [p])
    case Overrun => false
  }

  lemma {:induction false} ScanDecodes(prev: byte, d: seq<byte>, ahead: byte, c: Cursor, b: seq<byte>)
    requires Sane(d, c) && Shape(prev, d, c, b) && Tracks(prev, d, c, b) && !EndsInFE(d)
    ensures Agrees(prev, d, Scan(prev, d, ahead, c))
    decreases |d| - c.p
  {
    ScanUnfold(prev, d, ahead, c);
    if c.p == |d| {
      TracksEnd(prev, d, c, b);
    } else if Next(prev, d, ahead, c).Stop? {
      TracksTake(prev, d, ahead, c, b);
    } else {
      TracksKept(prev, d, ahead, c, b);
      ShapeKept(prev, d, ahead, c, b);
      var c' := Next(prev, d, ahead, c).c;
      ScanDecodes(prev, d, ahead, c', Grow(b, c', d[c.p]));
    }
  }
}
