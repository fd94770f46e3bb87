/** The byte ring: pushes smaller than the capacity and pops form a queue; a push of the capacity or
    more, which goes in as one block, leaves the head one slot short. */
module RingBuffer {
  import opened Wrap

  type Bytes = seq<char>

  /** The fields of the ring. */
  datatype Ring = Ring(buffer: Bytes, head: nat, tail: nat, available: nat) {

    predicate Shaped() {
      |buffer| > 0 && head < |buffer| && tail < |buffer| && available <= |buffer|
    }

    /** The head is where the byte after the last one goes. */
    predicate Linked()
      requires Shaped()
    {
      head == Slot(tail, available, |buffer|)
    }

    function Contents(): (s: Bytes)
      requires Shaped()
      ensures |s| == available
    {
      seq(available, i requires 0 <= i < available => buffer[Slot(tail, i, |buffer|)])
    }
  }

  function Min(a: nat, b: nat): (m: nat)
    ensures m <= a && m <= b && (m == a || m == b)
  {
    if a < b then a else b
  }

  /** Bytes written one by one from slot `head` on. */
  function Put(buffer: Bytes, head: nat, data: Bytes): (r: Bytes)
    requires |buffer| > 0
    ensures |r| == |buffer|
  {
    if data == [] then buffer
    else
      var n := |data| - 1;
      Put(buffer, head, data[..n])[Slot(head, n, |buffer|) := data[n]]
  }

  /** As many as there is room for. */
  function Accepted(r: Ring, data: Bytes): Bytes
    requires r.Shaped()
  {
    if |data| >= |r.buffer| then data else data[..Min(|r.buffer| - r.available, |data|)]
  }

  function Pushed(r: Ring, data: Bytes): (r': Ring)
    requires r.Shaped()
    ensures r'.Shaped()
  {
    var n := |r.buffer|;
    if |data| >= n then Ring(data, |data| - 1, 0, |data|)
    else
      var accepted := Accepted(r, data);
      Ring(Put(r.buffer, r.head, accepted), Slot(r.head, |accepted|, n), r.tail, r.available + |accepted|)
  }

  function Popped(r: Ring, size: nat): (r': Ring)
    requires r.Shaped()
    ensures r'.Shaped()
  {
    var count := Min(r.available, size);
    r.(tail := Slot(r.tail, count, |r.buffer|), available := r.available - count)
  }

  lemma {:induction false} PutSlots(buffer: Bytes, head: nat, data: Bytes, j: nat)
    requires |buffer| > 0 && j < |buffer| && |data| <= |buffer|
    ensures Put(buffer, head, data)[Slot(head, j, |buffer|)]
         == if j < |data| then data[j] else buffer[Slot(head, j, |buffer|)]
  {
    if data != [] {
      var n := |data| - 1;
      PutSlots(buffer, head, data[..n], j);
      if j < n {
        SlotsDiffer(head, j, n, |buffer|);
      } else {
        SlotsDiffer(head, n, j, |buffer|);
      }
    }
  }

  /** A push smaller than the capacity appends what it accepts. */
  lemma PushAppends(r: Ring, data: Bytes)
    requires r.Shaped() && r.Linked() && |data| < |r.buffer|
    ensures Pushed(r, data).Linked() && Pushed(r, data).Contents() == r.Contents() + Accepted(r, data)
  {
    var n, accepted, r' := |r.buffer|, Accepted(r, data), Pushed(r, data);
    SlotAdd(r.tail, r.available, |accepted|, n);
    forall i: nat | i < r'.available
      ensures r'.Contents()[i] == (r.Contents() + accepted)[i]
    {
      if i < r.available {
        var j := i + n - r.available;
        SlotAdd(r.tail, r.available, j, n);
        SlotRound(r.tail, i, n);
        PutSlots(r.buffer, r.head, accepted, j);
      } else {
        var j := i - r.available;
        SlotAdd(r.tail, r.available, j, n);
        PutSlots(r.buffer, r.head, accepted, j);
      }
    }
  }

  /** What fits is accepted whole, a larger push up to the last free byte. */
  lemma AcceptsWhatFits(r: Ring, data: Bytes)
    requires r.Shaped()
    ensures Accepted(r, data) <= data
    ensures Accepted(r, data) == data <==> |data| <= |r.buffer| - r.available || |data| >= |r.buffer|
    ensures Accepted(r, data) != data ==> Pushed(r, data).available == |r.buffer|
  {}

  lemma SlotAdd(x: nat, j: nat, k: nat, n: nat)
    requires n > 0
    ensures Slot(Slot(x, j, n), k, n) == Slot(x, j + k, n)
  {
    ModAddMod(x + j, k, n);
  }

  lemma SlotHere(x: nat, n: nat)
    requires x < n
    ensures Slot(x, 0, n) == x
  {
    ModUnique(x, n, 0, x);
  }

  lemma NextIs(x: nat, j: nat, n: nat)
    requires n > 0
    ensures (Slot(x, j, n) + 1) % n == Slot(x, j + 1, n)
  {
    SlotAdd(x, j, 1, n);
  }

  lemma SlotRound(x: nat, j: nat, n: nat)
    requires n > 0
    ensures Slot(x, j + n, n) == Slot(x, j, n)
  {
    ModAddMultiple(x + j, n, 1);
  }

  /** A pop takes the oldest bytes. */
  lemma PopTakes(r: Ring, size: nat)
    requires r.Shaped()
    ensures Popped(r, size).Contents() == r.Contents()[Min(r.available, size)..]
    ensures Popped(r, size).Linked() <==> r.Linked()
  {
    var n, count, r' := |r.buffer|, Min(r.available, size), Popped(r, size);
    SlotAdd(r.tail, count, r'.available, n);
    forall i: nat | i < r'.available
      ensures r'.Contents()[i] == r.Contents()[count..][i]
    {
      SlotAdd(r.tail, count, i, n);
    }
  }

  // ----- Runs -----

  datatype Op = Push(data: Bytes) | Pop(size: nat)

  /** The ring after a run, the bytes accepted and the bytes popped. */
  datatype Ran = Ran(ring: Ring, accepted: Bytes, popped: Bytes)

  ghost predicate Small(n: nat, op: Op) {
    op.Push? ==> |op.data| < n
  }

  function Run(r: Ring, ops: seq<Op>): (ran: Ran)
    requires r.Shaped()
    ensures ran.ring.Shaped()
  {
    if ops == [] then Ran(r, [], [])
    else
      var before := Run(r, ops[..|ops| - 1]);
      match ops[|ops| - 1]
      case Push(data) => Ran(Pushed(before.ring, data), before.accepted + Accepted(before.ring, data), before.popped)
      case Pop(size) =>
        var count := Min(before.ring.available, size);
        Ran(Popped(before.ring, size), before.accepted, before.popped + before.ring.Contents()[..count])
  }

  lemma RunNext(r: Ring, ops: seq<Op>, op: Op)
    requires r.Shaped()
    ensures var before, ran := Run(r, ops), Run(r, ops + [op]);
      match op
      case Push(data) =>
        ran == Ran(Pushed(before.ring, data), before.accepted + Accepted(before.ring, data), before.popped)
      case Pop(size) =>
        ran == Ran(Popped(before.ring, size), before.accepted,
                   before.popped + before.ring.Contents()[..Min(before.ring.available, size)])
  {
    assert (ops + [op])[..|ops|] == ops;
    hide Pushed, Popped, Accepted;
  }

  /** Over any run of pushes smaller than the capacity and pops, every byte accepted comes out once, in
      order, or is still in the ring. */
  lemma {:induction false} Fifo(r: Ring, ops: seq<Op>)
    requires r.Shaped() && r.Linked()
    requires forall i :: 0 <= i < |ops| ==> Small(|r.buffer|, ops[i])
    ensures var ran := Run(r, ops);
      && |ran.ring.buffer| == |r.buffer| && ran.ring.Linked()
      && r.Contents() + ran.accepted == ran.popped + ran.ring.Contents()
  {
    if ops == [] {
      assert r.Contents() + [] == [] + r.Contents();
    } else {
      var n := |ops| - 1;
      assert Small(|r.buffer|, ops[n]) && ops == ops[..n] + [ops[n]];
      hide Run, Pushed, Popped, Accepted;
      Fifo(r, ops[..n]);
      RunNext(r, ops[..n], ops[n]);
      FifoNext(r.Contents(), Run(r, ops[..n]), ops[n]);
    }
  }

  /** One operation more, after `content` had been in the ring at first. */
  lemma FifoNext(content: Bytes, before: Ran, op: Op)
    requires before.ring.Shaped() && before.ring.Linked() && Small(|before.ring.buffer|, op)
    requires content + before.accepted == before.popped + before.ring.Contents()
    ensures match op
      case Push(data) =>
        var r := Pushed(before.ring, data);
        && |r.buffer| == |before.ring.buffer| && r.Linked()
        && content + (before.accepted + Accepted(before.ring, data)) == before.popped + r.Contents()
      case Pop(size) =>
        var r := Popped(before.ring, size);
        && |r.buffer| == |before.ring.buffer| && r.Linked()
        && content + before.accepted
           == before.popped + before.ring.Contents()[..Min(before.ring.available, size)] + r.Contents()
  {
    match op
    case Push(data) =>
      PushAppends(before.ring, data);
      PushSize(before.ring, data);
      hide Pushed, Accepted;
      Regroup(content, before.accepted, Accepted(before.ring, data), before.popped, before.ring.Contents());
    case Pop(size) =>
      PopTakes(before.ring, size);
      SplitAt(before.popped, before.ring.Contents(), Min(before.ring.available, size));
  }

  lemma PushSize(r: Ring, data: Bytes)
    requires r.Shaped() && |data| < |r.buffer|
    ensures |Pushed(r, data).buffer| == |r.buffer|
  {}

  lemma SplitAt(p: Bytes, s: Bytes, k: nat)
    requires k <= |s|
    ensures p + s == p + s[..k] + s[k..]
  {
    assert s == s[..k] + s[k..];
  }

  lemma Regroup(a: Bytes, b: Bytes, c: Bytes, p: Bytes, q: Bytes)
    requires a + b == p + q
    ensures a + (b + c) == p + (q + c)
  {
    assert a + (b + c) == a + b + c;
    assert p + (q + c) == p + q + c;
  }

  /** A push of the capacity or more replaces the content, and leaves the head in place only if it is a
      single byte. */
  lemma BulkPush(r: Ring, data: Bytes)
    requires r.Shaped() && |data| >= |r.buffer|
    ensures Pushed(r, data).Contents() == data
    ensures Pushed(r, data).Linked() <==> |data| == 1
  {
    var n := |data|;
    SlotRound(0, 0, n);
    forall i: nat | i < n
      ensures Slot(0, i, n) == i
    {
      ModUnique(i, n, 0, i);
    }
  }

  /** After it, once everything is popped, the next byte pushed is not the next byte popped. */
  lemma BulkPushMisplaces(r: Ring, data: Bytes, x: char)
    requires r.Shaped() && |data| >= |r.buffer| && |data| >= 2
    ensures var ran := Run(r, [Push(data)] + [Pop(|data|)] + [Push([x])]);
      ran.popped == data && ran.ring.Contents() == [data[0]]
  {
    var n := |data|;
    assert [] + [Push(data)] == [Push(data)];
    RunNext(r, [], Push(data));
    RunNext(r, [Push(data)], Pop(n));
    RunNext(r, [Push(data)] + [Pop(n)], Push([x]));
    BulkPush(r, data);
    BulkPopped(r, data);
    HeadShort(data, x);
    hide Run, Pushed, Popped, Slot;
    assert data[..n] == data && [] + data == data;
  }

  lemma BulkPopped(r: Ring, data: Bytes)
    requires r.Shaped() && |data| >= |r.buffer|
    ensures Pushed(r, data).available == |data| && Popped(Pushed(r, data), |data|) == Ring(data, |data| - 1, 0, 0)
  {
    SlotRound(0, 0, |data|);
    ModUnique(0, |data|, 0, 0);
  }

  /** A byte pushed on an empty ring whose head is at the last slot. */
  lemma HeadShort(data: Bytes, x: char)
    requires |data| >= 2
    ensures Pushed(Ring(data, |data| - 1, 0, 0), [x]).Contents() == [data[0]]
  {
    var n := |data|;
    ModUnique(n - 1, n, 0, n - 1);
    ModUnique(0, n, 0, 0);
    assert Put(data, n - 1, [x]) == data[n - 1 := x];
  }

  // ----- The ring in memory -----

  class Buffer {
    var buffer: array<char>
    var head: nat
    var tail: nat
    var available: nat

    ghost function Value(): Ring
      reads this, buffer
    {
      Ring(buffer[..], head, tail, available)
    }

    constructor (capacity: nat)
      requires capacity > 0
      ensures fresh(buffer) && Value().Shaped() && Value().Linked()
      ensures buffer.Length == capacity && Value().Contents() == []
    {
      buffer := new char[capacity];
      head, tail, available := 0, 0, 0;
      ModUnique(0, capacity, 0, 0);
    }

    method Push(data: Bytes) returns (count: nat)
      requires Value().Shaped()
      modifies this, buffer
      ensures Value() == Pushed(old(Value()), data) && count == |Accepted(old(Value()), data)|
      ensures buffer == old(buffer) || fresh(buffer)
    {
      if |data| > buffer.Length {
        buffer := new char[|data|](i requires 0 <= i < |data| => data[i]);
        tail, head, available := 0, |data| - 1, |data|;
        return |data|;
      }
      if |data| == buffer.Length {
        tail, head, available := 0, |data| - 1, |data|;
        forall i | 0 <= i < |data| {
          buffer[i] := data[i];
        }
        return |data|;
      }
      count := Append(data);
    }

    /** Pushes byte by byte, as many as there is room for. */
    method Append(data: Bytes) returns (count: nat)
      requires Value().Shaped() && |data| < buffer.Length
      modifies this`head, this`available, buffer
      ensures Value() == Pushed(old(Value()), data) && count == |Accepted(old(Value()), data)|
    {
      ghost var r := Value();
      count := Min(buffer.Length - available, |data|);
      for i := 0 to count
        invariant available == r.available
        invariant head == Slot(r.head, i, buffer.Length)
        invariant buffer[..] == Put(r.buffer, r.head, data[..i])
      {
        assert data[..i + 1][..i] == data[..i];
        SlotAdd(r.head, i, 1, buffer.Length);
        buffer[head] := data[i];
        head := (head + 1) % buffer.Length;
      }
      available := Min(available + count, buffer.Length);
    }

    method Pop(out: array<char>, size: nat) returns (count: nat)
      requires Value().Shaped() && size <= buffer.Length && size <= out.Length && out != buffer
      modifies this`tail, this`available, out
      ensures Value() == Popped(old(Value()), size) && count == Min(old(available), size)
      ensures out[..] == old(Value().Contents()[..Min(available, size)]) + old(out[..])[count..]
    {
      hide Slot;
      count := Min(available, size);
      ghost var contents := Value().Contents();
      SlotHere(tail, buffer.Length);
      for i := 0 to count
        invariant tail == Slot(old(tail), i, buffer.Length) && available == old(available)
        invariant buffer[..] == old(buffer[..])
        invariant out[..i] == contents[..i] && out[i..] == old(out[..])[i..]
      {
        NextIs(old(tail), i, buffer.Length);
        assert contents[i] == buffer[tail];
        out[i] := buffer[tail];
        tail := (tail + 1) % buffer.Length;
      }
      available := available - count;
      assert out[..] == out[..count] + out[count..];
    }

    function GetFreeSize(): (n: nat)
      requires available <= buffer.Length
      reads this`buffer, this`available
      ensures n + available == buffer.Length
    {
      buffer.Length - available
    }
  }
}
