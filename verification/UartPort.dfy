/** The port object of the UART protocol: the receive ring, the buffer a packet is copied to and the
    send buffer, with the operations that update them in place. */
module UartPort {
  import opened Chunks
  import opened UartChecksum
  import opened UartFrame
  import opened UartScan
  import opened UartStray
  import opened UartStream
  import opened Wrap

  class Port {
    const rbuf: array<byte>
    const pbuf: array<byte>
    const sbuf: array<byte>
    var read: u16
    var write: u16

    /** The ring length is a power of two (a divisor of 0x10000). The packet buffer takes at least the sync
        pair, the length, the command and the serial number, which are read without asking for the length. */
    ghost predicate Valid() {
      && 2 <= rbuf.Length <= 0x8000 && 0x10000 % rbuf.Length == 0
      && pbuf.Length >= 6
      && rbuf != pbuf && rbuf != sbuf && pbuf != sbuf
    }

    constructor (rbufLen: nat, pbufLen: nat, sbufLen: nat)
      requires 2 <= rbufLen <= 0x8000 && 0x10000 % rbufLen == 0 && pbufLen >= 6
      ensures Valid() && fresh(rbuf) && fresh(pbuf) && fresh(sbuf)
      ensures rbuf.Length == rbufLen && pbuf.Length == pbufLen && sbuf.Length == 2 * sbufLen
      ensures read == write == 0
    {
      rbuf := new byte[rbufLen];
      pbuf := new byte[pbufLen];
      sbuf := new byte[2 * sbufLen];
      read, write := 0, 0;
    }

    // ----- Ring contents -----

    function FreeSize(): (r: int)
      requires Valid()
      reads this
      ensures r == rbuf.Length - 1 - DataSize() && 0 <= r < rbuf.Length
    {
      if write % rbuf.Length >= read % rbuf.Length
      then rbuf.Length - write % rbuf.Length + read % rbuf.Length - 1
      else read % rbuf.Length - write % rbuf.Length - 1
    }

    function DataSize(): (r: nat)
      requires Valid()
      reads this
      ensures r < rbuf.Length
    {
      if write % rbuf.Length >= read % rbuf.Length
      then write % rbuf.Length - read % rbuf.Length
      else rbuf.Length - read % rbuf.Length + write % rbuf.Length
    }

    ghost function Unread(): seq<byte>
      requires Valid()
      reads this, rbuf
    {
      seq(DataSize(), k requires 0 <= k && Valid() reads this, rbuf => rbuf[Slot(read, k, rbuf.Length)])
    }

    ghost function Before(): byte
      requires Valid()
      reads this, rbuf
    {
      rbuf[Slot(read, -1, rbuf.Length)]
    }

    ghost function Ahead(): byte
      requires Valid()
      reads this, rbuf
    {
      rbuf[write % rbuf.Length]
    }

    /** The unread bytes are `d`, the first at position `base`, with `prev` and `ahead` around them. */
    ghost predicate Around(base: int, prev: byte, d: seq<byte>, ahead: byte)
      requires Valid()
      reads this`write, rbuf
    {
      && |d| < rbuf.Length
      && rbuf[Slot(base, -1, rbuf.Length)] == prev
      && (forall k :: 0 <= k < |d| ==> rbuf[Slot(base, k, rbuf.Length)] == d[k])
      && rbuf[Slot(base, |d|, rbuf.Length)] == ahead
      && write % rbuf.Length == Slot(base, |d|, rbuf.Length)
    }

    lemma DataReaches()
      requires Valid()
      ensures (read + DataSize()) % rbuf.Length == write % rbuf.Length
    {
      SlotDistance(read, DataSize(), rbuf.Length);
    }

    lemma AroundNow()
      requires Valid()
      ensures Around(read, Before(), Unread(), Ahead())
    {
      DataReaches();
    }

    lemma Peek(base: int, prev: byte, d: seq<byte>, ahead: byte, i: int)
      requires Valid() && Around(base, prev, d, ahead) && -1 <= i <= |d|
      ensures rbuf[Slot(base, i, rbuf.Length)] == At(prev, d, ahead, i)
    {}

    lemma DataLeft(base: int, prev: byte, d: seq<byte>, ahead: byte, r: int)
      requires Valid() && Around(base, prev, d, ahead)
      requires -1 <= r <= |d| && |d| - r < rbuf.Length && read == Counter(base, r)
      ensures DataSize() == |d| - r
    {
      var n, m := rbuf.Length, |d| - r;
      WrapSlot(base + r, 0, n);
      WrapSlot(base + r, m, n);
      SlotDistance(read, m, n);
      assert base + r + m == base + |d|;
    }

    /** Where the ring stands once the read pointer has moved to position `r`. */
    lemma Moved(base: int, prev: byte, d: seq<byte>, ahead: byte, r: int)
      requires Valid() && Around(base, prev, d, ahead)
      requires -1 <= r <= |d| && |d| - r < rbuf.Length && read == Counter(base, r)
      ensures Unread() == From(prev, d, r) && Ahead() == ahead
      ensures r >= 0 ==> Before() == At(prev, d, ahead, r - 1)
    {
      DataLeft(base, prev, d, ahead, r);
      assert |Unread()| == |d| - r == |From(prev, d, r)|;
      forall k | 0 <= k < |d| - r
        ensures Unread()[k] == From(prev, d, r)[k]
      {
        PeekWrapped(base, prev, d, ahead, r, k);
        assert From(prev, d, r)[k] == At(prev, d, ahead, r + k);
      }
      if r >= 0 {
        PeekWrapped(base, prev, d, ahead, r, -1);
      }
    }

    // ----- Receiving -----

    /** Stores the bytes of `buf` until the ring is full. With at least one free slot on entry this
        appends as many bytes as fit; the count returned is one short when the ring filled up.
        On a full ring the first byte makes the ring look empty, and what was unread is gone. */
    method Receive(buf: seq<byte>) returns (received: u16)
      requires Valid() && 0 < |buf| < 0x10000
      modifies this`write, rbuf
      ensures Valid()
      ensures var free, unread := old(FreeSize()), old(Unread());
        if free > 0 then
          && Unread() == unread + buf[..if |buf| < free then |buf| else free]
          && Before() == old(Before())
          && received == if |buf| < free then |buf| else free - 1
        else
          && Unread() == buf[1..if |buf| < rbuf.Length then |buf| else rbuf.Length]
          && received == if |buf| < rbuf.Length then |buf| else rbuf.Length - 1
    {
      hide Unread, Before, DataSize, FreeSize, Slot;
      var i: u16 := 0;
      ghost var n := rbuf.Length;
      ghost var unread, free := Unread(), FreeSize();
      ghost var lost := if free == 0 then 1 else 0;
      ghost var room := if free == 0 then n else free;
      while i < |buf|
        invariant Valid() && i <= |buf| && i < room
        invariant i >= lost ==> FreeSize() == room - i
        invariant i >= lost ==> Unread() == (if lost == 1 then [] else unread) + buf[lost..i]
        invariant lost == 0 ==> Before() == old(Before())
        invariant i < lost ==> FreeSize() == 0 && Unread() == unread
      {
        Stores(buf[i]);
        i := i + 1;
        if FreeSize() <= 0 {
          assert i == room;
          received := i - 1;
          return;
        }
      }
      received := i;
    }

    /** One ring write at the write pointer. */
    method Stores(x: byte)
      requires Valid()
      modifies this`write, rbuf
      ensures Valid()
      ensures old(FreeSize()) > 0 ==> Unread() == old(Unread()) + [x] && Before() == old(Before())
      ensures old(FreeSize()) == 0 ==> Unread() == []
      ensures FreeSize() == if old(FreeSize()) > 0 then old(FreeSize()) - 1 else rbuf.Length - 1
    {
      ghost var k, prev, unread, ahead := DataSize(), Before(), Unread(), Ahead();
      AroundNow();
      rbuf[write % rbuf.Length] := x;
      write := (write + 1) % 0x10000;
      NextSlot(old(write), read, k, rbuf.Length);
      if k < rbuf.Length - 1 {
        EarlierSlots(read, k, rbuf.Length);
        assert Around(read, prev, unread + [x], Ahead());
        Moved(read, prev, unread + [x], Ahead(), 0);
      } else {
        ModAddMultiple(read, rbuf.Length, 1);
        assert DataSize() == 0;
      }
    }

    // ----- Extracting a packet -----

    /** Decides what the FE at `ls` is; `base`, `prev`, `d`, `ahead` and `c` describe the scan. */
    method ExtractTransChar(status: Status, ls: u16, ghost base: int, ghost prev: byte, ghost d: seq<byte>,
                            ghost ahead: byte, ghost c: Cursor)
      returns (status': Status, ls': u16, rc: int)
      requires Valid() && Around(base, prev, d, ahead) && c.p < |d| && d[c.p] == FE
      requires status == c.status && ls == Counter(base, c.p) && read == Counter(base, c.r)
      modifies this`read
      ensures var j := Judge(prev, d, ahead, c);
        && status' == j.c.status && ls' == Counter(base, j.c.p)
        && read == Counter(base, j.c.r) && rc == if j.legal then 0 else -1
    {
      hide Counter, Slot, Around;
      status', ls', rc := status, ls, 0;
      Step16(base, c.p, 1);
      Step16(base, c.p, -1);
      PeekWrapped(base, prev, d, ahead, c.p, 1);
      PeekWrapped(base, prev, d, ahead, c.p, -1);
      if rbuf[(ls + 1) % rbuf.Length] == FE {
        status' := Sync1;
        read := ls;
      } else if rbuf[(ls - 1) % rbuf.Length] == FE {
        status' := Sync2;
        read := (ls - 1) % 0x10000;
      } else if rbuf[(ls + 1) % rbuf.Length] == X5A && (status == LenL || status == Payload) {
        ls' := (ls + 1) % 0x10000;
      } else {
        status' := Sync1;
        ls' := (ls + 1) % 0x10000;
        read := ls';
        rc := -1;
      }
    }

    lemma PeekWrapped(base: int, prev: byte, d: seq<byte>, ahead: byte, p: int, j: int)
      requires Valid() && Around(base, prev, d, ahead) && -1 <= p + j <= |d|
      ensures rbuf[(Counter(base, p) + j) % rbuf.Length] == At(prev, d, ahead, p + j)
    {
      WrapSlot(base + p, j, rbuf.Length);
      Peek(base, prev, d, ahead, p + j);
      assert base + p + j == base + (p + j);
    }

    lemma AtEnd(base: int, prev: byte, d: seq<byte>, ahead: byte, p: int)
      requires Valid() && Around(base, prev, d, ahead) && 0 <= |d| - p < rbuf.Length
      ensures write % rbuf.Length != (Counter(base, p)) % rbuf.Length <==> p != |d|
    {
      WrapSlot(base + p, 0, rbuf.Length);
      SlotsDiffer(base, p, |d|, rbuf.Length);
    }

    method IsEmpty(ghost base: int, ghost prev: byte, ghost d: seq<byte>, ghost ahead: byte, ghost p: int)
      returns (empty: bool)
      requires Valid() && Around(base, prev, d, ahead) && 0 <= |d| - p < rbuf.Length
      requires read == Counter(base, p)
      ensures empty == (p == |d|)
    {
      AtEnd(base, prev, d, ahead, p);
      empty := write % rbuf.Length == read % rbuf.Length;
    }

    /** Moves one byte to the packet buffer; from the third on, an FE takes the escape byte with it. */
    method CopyByte(i: u16, ghost base: int, ghost prev: byte, ghost d: seq<byte>, ghost ahead: byte, ghost p: int)
      requires Valid() && Around(base, prev, d, ahead) && -1 <= p < |d| && i < pbuf.Length
      requires read == Counter(base, p)
      modifies this`read, pbuf
      ensures pbuf[..i + 1] == old(pbuf[..i]) + [At(prev, d, ahead, p)]
      ensures read == Counter(base, p + Width(i, At(prev, d, ahead, p)))
    {
      Step16(base, p, 1);
      Step16(base, p + 1, 1);
      PeekWrapped(base, prev, d, ahead, p, 0);
      pbuf[i] := rbuf[read % rbuf.Length];
      read := (read + 1) % 0x10000;
      if i + 1 > 2 && pbuf[i] == FE {
        read := (read + 1) % 0x10000;
      }
    }

    /** The copy out of `u`, the unread bytes from position `r` on, has come to `c`. */
    ghost predicate CopiedTo(base: int, prev: byte, d: seq<byte>, r: int, c: Copied)
      requires Valid() && -1 <= r <= |d|
      reads this`read, pbuf
    {
      match c
      case Copied(out, used) => |out| <= pbuf.Length && pbuf[..|out|] == out && read == Counter(base, r + used)
      case RanOut => read == Counter(base, |d|)
      case CutTooFar => false
    }

    method CopyNext(i: u16, ghost base: int, ghost prev: byte, ghost d: seq<byte>, ghost ahead: byte, ghost r: int)
      returns (ok: bool)
      requires Valid() && Around(base, prev, d, ahead) && -1 <= r <= |d| && |d| - r < rbuf.Length
      requires Copy(From(prev, d, r), i).Copied? && Copy(From(prev, d, r), i + 1) != CutTooFar
      requires i < pbuf.Length && CopiedTo(base, prev, d, r, Copy(From(prev, d, r), i))
      modifies this`read, pbuf
      ensures ok == Copy(From(prev, d, r), i + 1).Copied?
      ensures CopiedTo(base, prev, d, r, Copy(From(prev, d, r), i + 1))
    {
      hide Counter, Slot, Around;
      ghost var u, q := From(prev, d, r), Copy(From(prev, d, r), i).used;
      var empty := IsEmpty(base, prev, d, ahead, r + q);
      if !empty {
        assert u[q] == At(prev, d, ahead, r + q);
        CopyByte(i, base, prev, d, ahead, r + q);
      }
      ok := !empty;
    }

    /** Copies `count` bytes of the packet at the read pointer, moving the read pointer. */
    method CopyOut(count: u16, ghost base: int, ghost prev: byte, ghost d: seq<byte>, ghost ahead: byte, ghost r: int)
      returns (i: u16, ok: bool)
      requires Valid() && Around(base, prev, d, ahead) && -1 <= r <= |d| && |d| - r < rbuf.Length
      requires read == Counter(base, r) && count <= pbuf.Length
      requires Copy(From(prev, d, r), count) != CutTooFar
      modifies this`read, pbuf
      ensures ok == Copy(From(prev, d, r), count).Copied? && (ok ==> i == count)
      ensures CopiedTo(base, prev, d, r, Copy(From(prev, d, r), count))
    {
      hide Counter, Slot, Around, From;
      var recvLen := count;
      i := 0;
      while recvLen > 0
        invariant i + recvLen == count
        invariant Copy(From(prev, d, r), i).Copied?
        invariant CopiedTo(base, prev, d, r, Copy(From(prev, d, r), i))
      {
        recvLen := recvLen - 1;
        if !Copy(From(prev, d, r), i + 1).Copied? {
          CopyStuck(From(prev, d, r), i + 1, count);
        }
        ok := CopyNext(i, base, prev, d, ahead, r);
        if !ok {
          return;
        }
        i := i + 1;
      }
      ok := true;
    }

    /** The scan's variables stand for the cursor `c`. */
    ghost predicate Stands(base: int, prev: byte, d: seq<byte>, c: Cursor,
        status: Status, recvLen: u16, slen: u16, pRead: u16)
      reads this`read
    {
      && Sane(d, c) && c.recvLen <= c.p + 1 && (c.r < 0 ==> !CleanStart(prev, d))
      && status == c.status && recvLen == c.recvLen && slen == c.slen
      && pRead == Counter(base, c.p) && read == Counter(base, c.r)
    }

    /** The scan may run: it does not step over the write pointer, a packet it finds fits the packet buffer,
        and there is room to step back. */
    ghost predicate CanScan()
      requires Valid()
      reads this, rbuf
    {
      && Scan(Before(), Unread(), Ahead(), START) != Overrun
      && CopyFits(Before(), Unread(), Ahead(), START, pbuf.Length)
      && (CleanStart(Before(), Unread()) || DataSize() < rbuf.Length - 1)
    }

    /** The transition on one data byte, in the states that do not complete a packet. */
    method Transition(status: Status, data: byte, recvLen: u16, slen: u16, ghost base: int, ghost c: Cursor)
      returns (status': Status, recvLen': u16, slen': u16)
      requires status == c.status && recvLen == c.recvLen < 0xFFFF && slen == c.slen && read == Counter(base, c.r)
      modifies this`read
      ensures var c' := Advance(c, data);
        status' == c'.status && recvLen' == c'.recvLen && slen' == c'.slen && read == Counter(base, c'.r)
    {
      hide Counter;
      status', recvLen', slen' := status, recvLen, slen;
      Step16(base, c.r, 1);
      Step16(base, c.r, 2);
      match status {
        case Sync1 =>
          if FE == data {
            status' := Sync2;
            recvLen' := 1;
          } else {
            read := (read + 1) % 0x10000;
          }
        case Sync2 =>
          if FE == data {
            status' := LenH;
            recvLen' := recvLen + 1;
          } else {
            status' := Sync1;
            read := (read + 2) % 0x10000;
            recvLen' := 0;
          }
        case LenH =>
          if FE == data {
            read := (read + 1) % 0x10000;
            recvLen' := 2;
          } else {
            slen' := data;
            status' := LenL;
            recvLen' := recvLen + 1;
          }
        case LenL =>
          slen' := slen * 0x100 % 0x10000 + data;
          status' := Payload;
          recvLen' := recvLen + 1;
        case Payload =>
          recvLen' := recvLen + 1;
      }
    }

    ghost predicate Delivered(base: int, s: Scanned, rl: int)
      reads this`read, pbuf
    {
      match s
      case Ended(r) => rl == -1 && read == Counter(base, r)
      case Got(p, r) => rl == |p| <= pbuf.Length && pbuf[..rl] == p && read == Counter(base, r)
      case Overrun => false
    }

    /** The last byte of a packet: copies the packet out. */
    method Finish(recvLen: u16, ghost base: int, ghost prev: byte, ghost d: seq<byte>, ghost ahead: byte,
        ghost c: Cursor)
      returns (rl: int)
      requires Valid() && Around(base, prev, d, ahead) && (CleanStart(prev, d) || |d| < rbuf.Length - 1)
      requires -1 <= c.r <= |d| && (c.r < 0 ==> !CleanStart(prev, d)) && read == Counter(base, c.r)
      requires recvLen == c.recvLen + 1 <= pbuf.Length && Take(prev, d, c) != Overrun
      modifies this`read, pbuf
      ensures Delivered(base, Take(prev, d, c), rl)
    {
      var i, ok := CopyOut(recvLen, base, prev, d, ahead, c.r);
      return if ok then i else -1;
    }

    /** The state switch for a byte that was not found illegal, and the step to the next byte. */
    method Digest(data: byte, status: Status, recvLen: u16, slen: u16, pRead: u16,
                  ghost base: int, ghost prev: byte, ghost d: seq<byte>, ghost ahead: byte, ghost c: Cursor)
      returns (status': Status, recvLen': u16, slen': u16, pRead': u16, stop: bool, rl: int)
      requires Valid() && Around(base, prev, d, ahead) && (CleanStart(prev, d) || |d| < rbuf.Length - 1)
      requires Stands(base, prev, d, c, status, recvLen, slen, pRead) && c.p < |d|
      requires Finishes(c) ==> Take(prev, d, c) != Overrun && c.recvLen + 1 <= pbuf.Length
      modifies this`read, pbuf
      ensures stop == Finishes(c)
      ensures stop ==> Delivered(base, Take(prev, d, c), rl)
      ensures !stop ==> Stands(base, prev, d, Advance(c, data), status', recvLen', slen', pRead')
    {
      status', recvLen', slen', pRead', stop, rl := status, recvLen, slen, pRead, false, -1;
      if status == Payload && recvLen + 1 == slen + 2 + 2 {
        stop := true;
        rl := Finish(recvLen + 1, base, prev, d, ahead, c);
      } else {
        status', recvLen', slen' := Transition(status, data, recvLen, slen, base, c);
        Step16(base, c.p, 1);
        pRead' := (pRead + 1) % 0x10000;
      }
    }

    /** One round of the scan loop. */
    method Round(status: Status, recvLen: u16, slen: u16, pRead: u16,
                 ghost base: int, ghost prev: byte, ghost d: seq<byte>, ghost ahead: byte, ghost c: Cursor)
      returns (status': Status, recvLen': u16, slen': u16, pRead': u16, stop: bool, rl: int)
      requires Valid() && Around(base, prev, d, ahead) && (CleanStart(prev, d) || |d| < rbuf.Length - 1)
      requires Stands(base, prev, d, c, status, recvLen, slen, pRead) && c.p < |d|
      requires Next(prev, d, ahead, c) != Stop(Overrun)
      requires Next(prev, d, ahead, c).Stop? ==> c.recvLen + 1 <= pbuf.Length
      modifies this`read, pbuf
      ensures stop == Next(prev, d, ahead, c).Stop?
      ensures match Next(prev, d, ahead, c)
        case Go(c') => Stands(base, prev, d, c', status', recvLen', slen', pRead')
        case Stop(s) => Delivered(base, s, rl)
    {
      hide Counter, Slot, Around, Advance, Take, From, Copy;
      status', recvLen', slen', pRead', stop, rl := status, recvLen, slen, pRead, false, -1;
      PeekWrapped(base, prev, d, ahead, c.p, 0);
      var data := rbuf[pRead % rbuf.Length];
      ghost var c1 := c;
      if data == FE {
        var rc;
        status', pRead', rc := ExtractTransChar(status, pRead, base, prev, d, ahead, c);
        c1 := Judge(prev, d, ahead, c).c;
        if rc < 0 {
          return;
        }
      }
      status', recvLen', slen', pRead', stop, rl :=
        Digest(data, status', recvLen, slen, pRead', base, prev, d, ahead, c1);
    }

    /** Scans the unread bytes for a packet and copies the first one out; -1 if there is none yet. */
    method ExtractProPkg() returns (rl: int)
      requires Valid() && CanScan()
      modifies this`read, pbuf
      ensures Delivered(old(read), old(Scan(Before(), Unread(), Ahead(), START)), rl)
    {
      hide Scan, Next, CopyFits;
      var status, recvLen: u16, slen: u16, pRead: u16 := Sync1, 0, 0, read;
      ghost var base, prev, d, ahead, c := read as int, Before(), Unread(), Ahead(), START;
      ghost var s := Scan(prev, d, ahead, c);
      AroundNow();
      AtEnd(base, prev, d, ahead, 0);
      while write % rbuf.Length != pRead % rbuf.Length
        invariant Around(base, prev, d, ahead)
        invariant Stands(base, prev, d, c, status, recvLen, slen, pRead)
        invariant Scan(prev, d, ahead, c) == s && CopyFits(prev, d, ahead, c, pbuf.Length)
        invariant write % rbuf.Length != pRead % rbuf.Length <==> c.p != |d|
        decreases |d| - c.p
      {
        var stop;
        ScanUnfold(prev, d, ahead, c);
        FitsUnfold(prev, d, ahead, c, pbuf.Length);
        status, recvLen, slen, pRead, stop, rl := Round(status, recvLen, slen, pRead, base, prev, d, ahead, c);
        if stop {
          return;
        }
        c := Next(prev, d, ahead, c).c;
        AtEnd(base, prev, d, ahead, c.p);
      }
      ScanAtEnd(prev, d, ahead, c);
      return -1;
    }

    // ----- Handling -----

    static method GenChecksum(buf: array<byte>, len: u16) returns (checksum: u16)
      requires len <= buf.Length
      ensures checksum == Sum16(buf[..len])
    {
      checksum := 0;
      for i := 0 to len
        invariant checksum == Sum16(buf[..i])
      {
        assert buf[..i + 1][..i] == buf[..i];
        checksum := (checksum + buf[i]) % 0x10000;
      }
    }

    /** Checks the packet and calls the application back; the callbacks are returned in order. */
    method PackHandle(len: u16) returns (rc: int, calls: seq<Call>)
      requires Valid() && 4 <= len <= pbuf.Length && Framed(pbuf[..len])
      ensures rc == if ChecksumRight(pbuf[..len]) then 0 else -1
      ensures calls == Calls(pbuf[..len])
    {
      var cmd := pbuf[4];
      var cChecksum := GenChecksum(pbuf, len - 2);
      var rChecksum := pbuf[len - 2] as int * 0x100 + pbuf[len - 1];
      assert pbuf[..len][..len - 2] == pbuf[..len - 2];
      if cChecksum != rChecksum {
        return -1, [];
      }
      CheckedLength(pbuf[..len]);
      var payload := if len >= 8 then pbuf[6..len - 2] else [];
      assert len >= 8 ==> pbuf[..len][6..len - 2] == pbuf[6..len - 2];
      return 0, [Call(cmd, payload, (len - 8) % 0x10000)];
    }

    ghost predicate CanHandle()
      requires Valid()
      reads this, rbuf
    {
      && HandleAll(Before(), Unread(), Ahead()).Handled?
      && AllFit(HandleAll(Before(), Unread(), Ahead()).packets, pbuf.Length)
      && (CleanStart(Before(), Unread()) || DataSize() < rbuf.Length - 1)
    }

    /** After a chunk that does not end in FE the ring can be handled, unless it is full, exactly when the
        packets in it fit the packet buffer. */
    lemma HandlesUnlessEndsInFE()
      requires Valid() && !EndsInFE(Unread()) && DataSize() < rbuf.Length - 1
      ensures CanHandle() <==>
        AllFit(StrayPackets(Before(), Unread()), pbuf.Length) && AllFit(Decode(Idle, Unread()).packets, pbuf.Length)
    {
      HandledPackets(Before(), Unread(), Ahead());
      HandleFitsExactly(Before(), Unread(), Ahead(), pbuf.Length);
      StreamFitsExactly(Before(), Unread(), Ahead(), pbuf.Length);
    }

    method ExtractFirst() returns (rl: int)
      requires Valid() && CanScan()
      modifies this`read, pbuf
      ensures var prev, d, ahead := old(Before()), old(Unread()), old(Ahead());
        var s := Scan(prev, d, ahead, START);
        && s != Overrun && Ahead() == ahead && Unread() == From(prev, d, s.r)
        && (s.r >= 0 ==> Before() == At(prev, d, ahead, s.r - 1))
        && rl == (if s.Got? then |s.packet| else -1)
        && (s.Got? ==> s.r >= 3 && Framed(s.packet) && rl <= pbuf.Length && pbuf[..rl] == s.packet)
    {
      ghost var prev, d, ahead, base := Before(), Unread(), Ahead(), read as int;
      ScanFramed(prev, d, ahead);
      StepBack(prev, d, ahead, START);
      AroundNow();
      rl := ExtractProPkg();
      Moved(base, prev, d, ahead, Scan(prev, d, ahead, START).r);
    }

    /** One round of the handling loop: extract a packet and, if there is one, handle it. */
    method HandleOne() returns (rl: int, calls: seq<Call>, ghost p: seq<byte>)
      requires Valid() && CanHandle()
      modifies this`read, pbuf
      ensures var h := old(HandleAll(Before(), Unread(), Ahead()));
        if rl > 0 then
          && Framed(p) && calls == Calls(p) && CanHandle() && |Unread()| < old(|Unread()|)
          && h == HandleAll(Before(), Unread(), Ahead()).After([p])
        else
          calls == [] && h.packets == [] && Unread() == h.rest && (!h.stepped ==> Before() == h.prev)
    {
      hide Scan, HandleAll;
      ghost var prev, d, ahead := Before(), Unread(), Ahead();
      ghost var s := Scan(prev, d, ahead, START);
      HandleSteps(prev, d, ahead, s);
      CopyFitsExactly(prev, d, ahead, START, [], pbuf.Length);
      calls, p := [], [];
      rl := ExtractFirst();
      if rl > 0 {
        p := s.packet;
        var rc;
        rc, calls := PackHandle(rl);
      }
    }

    /** Extracts and handles packets until none is left. */
    method Handle() returns (calls: seq<Call>)
      requires Valid() && CanHandle()
      modifies this`read, pbuf
      ensures var h := old(HandleAll(Before(), Unread(), Ahead()));
        && (forall p :: p in h.packets ==> Framed(p)) && calls == AllCalls(h.packets)
        && Unread() == h.rest && (!h.stepped ==> Before() == h.prev)
    {
      hide HandleAll, Framed, AllFit;
      ghost var h := HandleAll(Before(), Unread(), Ahead());
      ghost var ps: seq<seq<byte>> := [];
      calls := [];
      var rl := 1;
      while rl > 0
        invariant rl > 0 ==> CanHandle() && h == HandleAll(Before(), Unread(), Ahead()).After(ps)
        invariant rl <= 0 ==> h.packets == ps && Unread() == h.rest && (!h.stepped ==> Before() == h.prev)
        invariant (forall p :: p in ps ==> Framed(p)) && calls == AllCalls(ps)
        decreases rl > 0, |Unread()|
      {
        ghost var p;
        var cs;
        rl, cs, p := HandleOne();
        calls := calls + cs;
        if rl > 0 {
          AfterTwice(HandleAll(Before(), Unread(), Ahead()), ps, [p]);
          AllCallsAppend(ps, [p]);
          AllCallsOne(p);
          ps := ps + [p];
        }
      }
    }

    // ----- Sending -----

    /** Builds and escapes the packet in the send buffer; the result is what the send handler gets. */
    method Send(cmd: byte, payload: seq<byte>, serial: SerialNumber) returns (wire: seq<byte>)
      requires Valid() && |payload| + 8 <= 0x7FFF
      requires |Wire(Packet(cmd, serial.Next(), payload))| <= sbuf.Length
      modifies sbuf, serial
      ensures serial.sn == (serial.Last() + 1) % 0x100 && serial.Last() == old(serial.Next())
      ensures wire == Wire(Packet(cmd, old(serial.Next()), payload))
      ensures StreamCalls(wire) == [Call(cmd, payload, |payload|)]
    {
      hide Wire, Packet, Calls, Complete, Head, Sum16, Escape, StreamCalls;
      SentCalls(cmd, serial.Next(), payload);
      ghost var p := Packet(cmd, serial.Next(), payload);
      PacketSize(cmd, serial.Next(), payload);
      var len := PackBuild(sbuf, cmd, payload, serial);
      var slen := PackTranslate(sbuf, len);
      wire := sbuf[..slen];
    }
  }

  /** What is sent is called back as it was given. */
  lemma SentCalls(cmd: byte, sn: byte, payload: seq<byte>)
    requires |payload| + 8 <= 0x7FFF
    ensures StreamCalls(Wire(Packet(cmd, sn, payload))) == [Call(cmd, payload, |payload|)]
  {
    var w := Wire(Packet(cmd, sn, payload));
    Resynchronises([], cmd, sn, payload);
    assert [] + w == w;
    assert StreamCalls([]) == [];
    assert [] + [Call(cmd, payload, |payload|)] == [Call(cmd, payload, |payload|)];
  }

  /** The serial number counter; it is never handed out as 0. */
  class SerialNumber {
    var sn: byte

    constructor ()
      ensures sn == 1
    {
      sn := 1;
    }

    /** The number the next packet gets. */
    function Next(): (r: byte)
      reads this
      ensures r != 0
    {
      if sn == 0 then 1 else sn
    }

    /** The number the last packet got. */
    function Last(): (r: byte)
      reads this
    {
      (sn - 1) % 0x100
    }

    method GenSn() returns (r: byte)
      modifies this
      ensures r == old(Next()) != 0 && Last() == r && Next() == r % 0xFF + 1
      ensures old(sn) != 0 ==> r == old(sn)
    {
      if sn == 0 {
        sn := 1;
      }
      r := sn;
      sn := (sn + 1) % 0x100;
    }
  }

  method PackBuild(buf: array<byte>, cmd: byte, payload: seq<byte>, serial: SerialNumber) returns (len: u16)
    requires |payload| + 8 <= 0xFFFF && |payload| + 8 <= buf.Length
    modifies buf, serial
    ensures serial.Last() == old(serial.Next())
    ensures len == |payload| + 8 && buf[..len] == Packet(cmd, old(serial.Next()), payload)
  {
    hide Sum16;
    var n := |payload|;
    buf[0], buf[1] := FE, FE;
    buf[2], buf[3] := (n + 4) / 0x100, (n + 4) % 0x100;
    var sn := serial.GenSn();
    buf[4], buf[5] := cmd, sn;
    forall k | 0 <= k < n {
      buf[6 + k] := payload[k];
    }
    ghost var head := Head(cmd, sn, payload);
    assert buf[..n + 6] == head;
    var checksum := Port.GenChecksum(buf, n + 6);
    buf[n + 6] := checksum / 0x100;
    buf[n + 7] := checksum % 0x100;
    assert buf[..n + 6] == head;
    len := n + 8;
  }

  /** Moves `len` bytes from `off` on one place up. */
  method BufMovRAByte(buf: array<byte>, off: nat, len: nat)
    requires off + len < buf.Length && len <= 0x7FFF
    modifies buf
    ensures buf[..off + 1] == old(buf[..off + 1])
    ensures buf[off + 1..off + 1 + len] == old(buf[off..off + len])
  {
    var i := len;
    while i > 0
      invariant 0 <= i <= len
      invariant forall k :: 0 <= k <= off + i ==> buf[k] == old(buf[k])
      invariant forall k :: off + i < k <= off + len ==> buf[k] == old(buf[k - 1])
    {
      buf[off + i] := buf[off + i - 1];
      i := i - 1;
    }
  }

  /** Puts the escape byte behind the FE at `i`. */
  method InsertEscape(buf: array<byte>, i: nat, len: nat)
    requires i < len < buf.Length && len - i - 1 <= 0x7FFF
    modifies buf
    ensures buf[..i + 1] == old(buf[..i + 1]) && buf[i + 1] == X5A
    ensures buf[i + 2..len + 1] == old(buf[i + 1..len])
  {
    BufMovRAByte(buf, i + 1, len - i - 1);
    assert buf[..i + 1] == buf[..i + 2][..i + 1];
    ghost var moved := buf[i + 2..len + 1];
    buf[i + 1] := X5A;
    assert buf[i + 2..len + 1] == moved;
  }

  /** What the loop has done when `k` bytes of the packet `p` are behind it. */
  ghost predicate Translated(buf: array<byte>, p: seq<byte>, k: nat, i: nat, len: nat)
    reads buf
  {
    && 2 <= k <= |p| && i <= len <= buf.Length && len - i == |p| - k
    && buf[..i] == p[..2] + Escape(p[2..k])
    && buf[i..len] == p[k..]
  }

  /** One round of the loop in PackTranslate. */
  method TranslateByte(buf: array<byte>, i: u16, len: u16, ghost p: seq<byte>, ghost k: nat)
    returns (i': u16, len': u16)
    requires Translated(buf, p, k, i, len) && k < |p| <= 0x7FFF && |Wire(p)| <= buf.Length && i <= 2 * k - 2
    modifies buf
    ensures Translated(buf, p, k + 1, i', len') && i < i' <= 2 * k
  {
    TranslateStep(p, k);
    assert buf[i] == buf[i..len][0] == p[k];
    i', len' := i, len;
    ghost var done := buf[..i];
    ghost var todo := buf[i..len];
    assert todo[1..] == buf[i + 1..len];
    if buf[i] == FE {
      InsertEscape(buf, i, len);
      assert buf[..i + 2] == buf[..i + 1][..i] + [FE, X5A];
      i' := i' + 1;
      len' := len' + 1;
    } else {
      assert buf[..i + 1] == done + [p[k]];
    }
    i' := i' + 1;
  }

  /** Escapes the packet in place. The bound grows with every insertion; the bytes still to be looked
      at get fewer in every round. */
  method PackTranslate(buf: array<byte>, len0: u16) returns (slen: u16)
    requires 2 <= len0 <= 0x7FFF && len0 <= buf.Length && |Wire(buf[..len0])| <= buf.Length
    modifies buf
    ensures slen == |Wire(old(buf[..len0]))| && buf[..slen] == Wire(old(buf[..len0]))
  {
    ghost var p, k := buf[..len0], 2;
    var len: u16 := len0;
    var i: u16 := 2;
    assert p[2..2] == [];
    while i < len
      invariant Translated(buf, p, k, i, len) && i <= 2 * k - 2
      decreases len - i
    {
      i, len := TranslateByte(buf, i, len, p, k);
      k := k + 1;
    }
    assert p[2..k] == p[2..];
    slen := len;
  }

  lemma PacketSize(cmd: byte, sn: byte, payload: seq<byte>)
    requires |payload| + 8 <= 0x7FFF
    ensures var p := Packet(cmd, sn, payload); |p| == |payload| + 8 && |p| <= |Wire(p)| <= 2 * |p| - 2
  {
    var p := Packet(cmd, sn, payload);
    PacketComplete(cmd, sn, payload);
    EscapeShape(p[2..]);
    SyncOnlyAtStart(p, 0);
  }

  lemma TranslateStep(p: seq<byte>, k: nat)
    requires 2 <= k < |p|
    ensures Escape(p[2..k + 1]) == Escape(p[2..k]) + Escape([p[k]])
    ensures Escape([p[k]]) == if p[k] == FE then [FE, X5A] else [p[k]]
    ensures |Wire(p)| >= 2 + |Escape(p[2..k])| + (|p| - k) + if p[k] == FE then 1 else 0
  {
    hide Escape;
    assert p[2..k + 1] == p[2..k] + [p[k]];
    EscapeAppend(p[2..k], [p[k]]);
    EscapeOne(p[k]);
    assert p[2..] == p[2..k] + p[k..];
    EscapeAppend(p[2..k], p[k..]);
    EscapeShape(p[k..]);
  }

  // ----- The read loop -----

  /** What handling adds once a chunk has been appended to the bytes held. */
  lemma ChunkHandled(done: seq<byte>, chunk: seq<byte>, prev: byte, ahead: byte)
    requires Settled(Decode(Idle, done).st) && !EndsInFE(chunk)
    requires Readable(prev, HeldAfter(done) + chunk)
    ensures var h := HandleAll(prev, HeldAfter(done) + chunk, ahead);
      && h.Handled? && !h.stepped && (forall p :: p in h.packets ==> Framed(p))
      && Decode(Idle, done + chunk).packets == Decode(Idle, done).packets + h.packets
      && StreamCalls(done + chunk) == StreamCalls(done) + AllCalls(h.packets)
      && Settled(Decode(Idle, done + chunk).st) && h.rest == HeldAfter(done + chunk)
      && CleanStart(h.prev, h.rest)
  {
    var st := Decode(Idle, done).st;
    NotEndingInFE(st, chunk);
    HandleDecodes(prev, Held(st) + chunk, ahead);
    HandledFramed(prev, Held(st) + chunk, ahead);
    HeldDecodes(st);
    DecodeAppend(Idle, Held(st), chunk);
    DecodeAppend(Idle, done, chunk);
    DecodeShape(Idle, done);
    DecodeShape(Idle, done + chunk);
    var h := HandleAll(prev, Held(st) + chunk, ahead);
    assert [] + Decode(st, chunk).packets == Decode(st, chunk).packets;
    AllCallsAppend(Decode(Idle, done).packets, h.packets);
  }

  /** The packets of a prefix are among those of the stream. */
  lemma PrefixFits(s: seq<byte>, t: seq<byte>, n: nat)
    requires t <= s && AllFit(Decode(Idle, s).packets, n)
    ensures AllFit(Decode(Idle, t).packets, n)
  {
    hide Decode;
    assert s == t + s[|t|..];
    DecodeAppend(Idle, t, s[|t|..]);
  }

  lemma HeldDecodes(st: Decoder)
    requires Settled(st)
    ensures Decode(Idle, Held(st)) == Outcome(st, [])
  {
    if st.Body? {
      DecodeOpen(Idle, st.b);
    }
  }

  /** The first chunk is read as the decoder reads it, and there is room for the read pointer to step back
      while it is scanned. */
  predicate FirstReadable(n: nat, prev: byte, chunk: seq<byte>) {
    Readable(prev, chunk) && (CleanStart(prev, chunk) || |chunk| < n - 1)
  }

  /** One round of the read loop: `done` has been received and handled before. */
  method DeliverChunk(port: Port, ghost done: seq<byte>, chunk: seq<byte>) returns (calls: seq<Call>)
    requires port.Valid() && Settled(Decode(Idle, done).st) && port.Unread() == HeldAfter(done)
    requires chunk != [] && !EndsInFE(chunk) && |HeldAfter(done)| + |chunk| < port.rbuf.Length
    requires FirstReadable(port.rbuf.Length, port.Before(), HeldAfter(done) + chunk)
    requires AllFit(Decode(Idle, done + chunk).packets, port.pbuf.Length)
    modifies port`read, port`write, port.rbuf, port.pbuf
    ensures StreamCalls(done + chunk) == StreamCalls(done) + calls
    ensures Settled(Decode(Idle, done + chunk).st) && port.Unread() == HeldAfter(done + chunk)
    ensures CleanStart(port.Before(), port.Unread())
  {
    hide Decode, HandleAll, HeldAfter, StreamCalls, Readable, CleanStart, Settled;
    ghost var held := port.Unread();
    assert port.FreeSize() >= |chunk|;
    var received := port.Receive(chunk);
    assert port.Unread() == held + chunk;
    ChunkHandled(done, chunk, port.Before(), port.Ahead());
    calls := port.Handle();
  }

  /** Receives chunk by chunk, handling after each: the callbacks are those of the whole stream, and
      the ring holds the bytes of the packet still open. The slot before an empty ring may hold anything,
      unless the first chunk makes a packet of it. */
  method DeliverAll(port: Port, chunks: seq<seq<byte>>) returns (calls: seq<Call>)
    requires port.Valid() && port.Unread() == []
    requires chunks != [] ==> FirstReadable(port.rbuf.Length, port.Before(), chunks[0])
    requires forall i :: 0 <= i < |chunks| ==> Fits(port.rbuf.Length, chunks, i)
    requires AllFit(Decode(Idle, Flatten(chunks)).packets, port.pbuf.Length)
    modifies port`read, port`write, port.rbuf, port.pbuf
    ensures calls == StreamCalls(Flatten(chunks))
    ensures port.Unread() == HeldAfter(Flatten(chunks))
  {
    hide Decode, StreamCalls, HeldAfter, Readable, CleanStart, Settled;
    calls := [];
    ghost var before := port.Before();
    NothingDone(Flatten(chunks[..0]));
    for i := 0 to |chunks|
      invariant Settled(Decode(Idle, Flatten(chunks[..i])).st)
      invariant port.Unread() == HeldAfter(Flatten(chunks[..i]))
      invariant if i == 0 then port.Before() == before && port.Unread() == []
                else CleanStart(port.Before(), port.Unread())
      invariant calls == StreamCalls(Flatten(chunks[..i]))
    {
      ghost var done := Flatten(chunks[..i]);
      assert Fits(port.rbuf.Length, chunks, i);
      NextReadable(port.rbuf.Length, port.Before(), port.Unread(), chunks[i]);
      FlattenNext(chunks, i);
      PrefixFits(Flatten(chunks), done + chunks[i], port.pbuf.Length);
      var cs := DeliverChunk(port, done, chunks[i]);
      calls := calls + cs;
    }
    assert chunks[..|chunks|] == chunks;
  }

  /** What an open packet goes on to is read from a clean start, as is a first chunk that is. */
  lemma NextReadable(n: nat, prev: byte, held: seq<byte>, chunk: seq<byte>)
    requires (held == [] && FirstReadable(n, prev, chunk)) || CleanStart(prev, held)
    ensures FirstReadable(n, prev, held + chunk)
  {
    if CleanStart(prev, held) {
      CleanStartExtends(prev, held, chunk);
      CleanIsReadable(prev, held + chunk);
    } else {
      assert held + chunk == chunk;
    }
  }

  lemma NothingDone(s: seq<byte>)
    requires s == []
    ensures Settled(Decode(Idle, s).st) && HeldAfter(s) == [] && StreamCalls(s) == []
  {}

  lemma FlattenNext(chunks: seq<seq<byte>>, i: nat)
    requires i < |chunks|
    ensures Flatten(chunks[..i + 1]) == Flatten(chunks[..i]) + chunks[i] <= Flatten(chunks)
  {
    assert chunks[..i + 1][..i] == chunks[..i];
    FlattenPrefix(chunks, i + 1);
  }

  /** Any list of packets that fit the packet buffer, cut into any chunks that fit the ring and do not end in
      FE: message by message, whatever the memory of the ring held, and the ring ends empty. */
  method DeliverFrames(port: Port, ghost ms: seq<Message>, chunks: seq<seq<byte>>) returns (calls: seq<Call>)
    requires port.Valid() && port.Unread() == []
    requires forall m :: m in ms ==> Sendable(m) && |m.payload| + 8 <= port.pbuf.Length
    requires Flatten(chunks) == WireAll(ms)
    requires forall i :: 0 <= i < |chunks| ==> Fits(port.rbuf.Length, chunks, i)
    modifies port`read, port`write, port.rbuf, port.pbuf
    ensures calls == MessageCalls(ms) && port.Unread() == []
  {
    if chunks != [] {
      assert Fits(port.rbuf.Length, chunks, 0);
      FirstChunkClean(ms, chunks, port.Before());
    }
    PacketsFit(ms, port.pbuf.Length);
    RoundTrip(ms);
    calls := DeliverAll(port, chunks);
  }

  /** Chunks that leave room in the ring for a packet of the longest kind fit. */
  lemma CutFits(ms: seq<Message>, chunks: seq<seq<byte>>, w: nat, n: nat)
    requires forall m :: m in ms ==> Sendable(m) && |Wire(Packet(m.cmd, m.sn, m.payload))| <= w
    requires w > 0 && Flatten(chunks) == WireAll(ms)
    requires forall i :: 0 <= i < |chunks| ==> Cut(n, chunks[i], w)
    ensures forall i :: 0 <= i < |chunks| ==> Fits(n, chunks, i)
  {
    forall i | 0 <= i < |chunks|
      ensures Fits(n, chunks, i)
    {
      assert Cut(n, chunks[i], w);
      FlattenPrefix(chunks, i);
      HeldAlongPackets(ms, Flatten(chunks[..i]), w);
    }
  }

  /** A chunk that fits a ring of `n` slots beside an open packet of up to `w` bytes. */
  predicate Cut(n: nat, chunk: seq<byte>, w: nat) {
    chunk != [] && !EndsInFE(chunk) && w + |chunk| <= n
  }

  const UART_RECV_BUF_LEN := 1024
  const UART_PRO_BUF_LEN := 128
  const UART_SEND_BUF_LEN := 128
  const READ_BUF_LEN := UART_PRO_BUF_LEN

  /** The read loop on the port the program makes: packets of up to 120 payload bytes, read in pieces of any
      size the program reads, as long as none ends in FE. */
  method ZbPoll(ghost ms: seq<Message>, chunks: seq<seq<byte>>) returns (calls: seq<Call>)
    requires forall m :: m in ms ==> |m.payload| + 8 <= UART_PRO_BUF_LEN
    requires forall i :: 0 <= i < |chunks| ==> 0 < |chunks[i]| <= READ_BUF_LEN && !EndsInFE(chunks[i])
    requires Flatten(chunks) == WireAll(ms)
    ensures calls == MessageCalls(ms)
  {
    var port := new Port(UART_RECV_BUF_LEN, UART_PRO_BUF_LEN, UART_SEND_BUF_LEN);
    var w := 2 * UART_PRO_BUF_LEN - 2;
    forall m | m in ms
      ensures Sendable(m) && |Wire(Packet(m.cmd, m.sn, m.payload))| <= w
    {
      PacketSize(m.cmd, m.sn, m.payload);
    }
    CutFits(ms, chunks, w, UART_RECV_BUF_LEN);
    calls := DeliverFrames(port, ms, chunks);
  }

  /** A packet of more than 120 payload bytes fits the ring of the program, but its copy does not stay inside
      the packet buffer. */
  lemma LongPacket(prev: byte, cmd: byte, sn: byte, payload: seq<byte>, ahead: byte)
    requires 120 < |payload| <= 504
    ensures var d := Wire(Packet(cmd, sn, payload));
      |d| < UART_RECV_BUF_LEN && !EndsInFE(d) && !CopyFits(prev, d, ahead, START, UART_PRO_BUF_LEN)
  {
    PacketSize(cmd, sn, payload);
    PacketComplete(cmd, sn, payload);
    WireEnd(Packet(cmd, sn, payload));
    PacketFitsExactly(prev, cmd, sn, payload, ahead, UART_PRO_BUF_LEN);
  }

  lemma {:induction false} FlattenPrefix(chunks: seq<seq<byte>>, i: nat)
    requires i <= |chunks|
    ensures Flatten(chunks[..i]) <= Flatten(chunks)
    ensures 0 < i ==> chunks[0] <= Flatten(chunks[..i])
    decreases |chunks|
  {
    if i < |chunks| {
      var t := chunks[..|chunks| - 1];
      FlattenPrefix(t, i);
      assert chunks[..i] == t[..i];
    } else if i > 0 {
      var t := chunks[..i - 1];
      assert chunks[..i] == chunks;
      FlattenPrefix(t, i - 1);
      assert t[..i - 1] == t;
    }
  }

  lemma {:induction false} WireAllStarts(ms: seq<Message>)
    requires forall m :: m in ms ==> Sendable(m)
    ensures ms != [] ==> |WireAll(ms)| >= 2 && WireAll(ms)[0] == WireAll(ms)[1] == FE
    ensures ms == [] ==> WireAll(ms) == []
    decreases |ms|
  {
    if ms != [] {
      var m := ms[|ms| - 1];
      assert Sendable(m);
      WireAllStarts(ms[..|ms| - 1]);
      PacketComplete(m.cmd, m.sn, m.payload);
      WireStart(Packet(m.cmd, m.sn, m.payload));
    }
  }

  lemma FirstChunkClean(ms: seq<Message>, chunks: seq<seq<byte>>, prev: byte)
    requires forall m :: m in ms ==> Sendable(m)
    requires chunks != [] && chunks[0] != [] && !EndsInFE(chunks[0]) && Flatten(chunks) == WireAll(ms)
    ensures CleanStart(prev, chunks[0])
  {
    FlattenPrefix(chunks, |chunks|);
    assert chunks[..|chunks|] == chunks;
    WireAllStarts(ms);
    assert chunks[0][0] == WireAll(ms)[0];
    assert |chunks[0]| >= 2 ==> chunks[0][1] == WireAll(ms)[1];
  }

  lemma AfterTwice(h: Handled, ps: seq<seq<byte>>, qs: seq<seq<byte>>)
    ensures h.After(qs).After(ps) == h.After(ps + qs)
  {
    if h.Handled? {
      assert ps + (qs + h.packets) == ps + qs + h.packets;
    }
  }

  lemma AllCallsOne(p: seq<byte>)
    requires Framed(p)
    ensures AllCalls([p]) == Calls(p)
  {
    assert AllCalls([p]) == AllCalls([p][..0]) + Calls(p);
  }
}
