/** The alarm manager on the heap: a sorted list of alarms, a list of alarms to call, and the alarm
    device. */
module AlarmManager {
  import opened ListHead
  import opened AlarmQueue

  /** An alarm with the list links embedded in it; the list heads have a meaningless one. */
  type Entry = Node<Alarm>

  function Items(ns: seq<Entry>): (s: seq<Alarm>)
    ensures |s| == |ns|
  {
    seq(|ns|, i requires 0 <= i < |ns| => ns[i].item)
  }

  function Swapped<A>(c: seq<A>, k: nat): seq<A>
    requires k + 1 < |c|
  {
    c[k := c[k + 1]][k + 1 := c[k]]
  }

  // ----- Sorted insertion -----

  lemma SwappedRing(c: seq<Entry>, k: nat)
    requires 0 < k && k + 1 < |c| && Distinct(c)
    requires forall i :: 0 <= i < |c| && i != k - 1 && i != k && i != k + 1 ==> Linked(c[i], c[After(i, |c|)])
    requires Linked(c[k - 1], c[k + 1]) && Linked(c[k + 1], c[k]) && Linked(c[k], c[After(k + 1, |c|)])
    ensures Ring(Swapped(c, k))
  {
    hide Linked;
    var d := Swapped(c, k);
    assert Distinct(d);
    forall i | 0 <= i < |d|
      ensures Linked(d[i], d[After(i, |d|)])
    {
      if i != k - 1 && i != k && i != k + 1 {
        assert Linked(c[i], c[After(i, |c|)]);
      }
    }
  }

  /** Exchanges the entry `pos` with the one behind it by writing six pointers. */
  method SwapWithNext(pos: Entry, posNext: Entry, ghost c: seq<Entry>, ghost k: nat)
    requires Ring(c) && 0 < k && k + 1 < |c| && pos == c[k] && posNext == c[k + 1]
    modifies c
    ensures Ring(Swapped(c, k))
  {
    ghost var n := |c|;
    assert Linked(c[k - 1], c[After(k - 1, n)]) && Linked(c[k], c[After(k, n)]) && Linked(c[k + 1], c[After(k + 1, n)]);
    assert forall i :: 0 <= i < n && i != k - 1 && i != k && i != k + 1 ==>
      Linked(c[i], c[After(i, n)]) && c[i] != c[k - 1] && c[i] != c[k] && c[i] != c[k + 1]
      && c[After(i, n)] != c[k] && c[After(i, n)] != c[k + 1] && c[After(i, n)] != c[After(k + 1, n)];
    posNext.prev := pos.prev;
    posNext.next.prev := pos;
    pos.next := posNext.next;
    posNext.next := pos;
    pos.prev.next := posNext;
    pos.prev := posNext;
    SwappedRing(c, k);
  }

  /** The list with the new node `x` at place `q` among the sorted others `s`. */
  function WithAt(head: Entry, s: seq<Entry>, q: nat, x: Entry): seq<Entry>
    requires q <= |s|
  {
    [head] + Inserted(s, q, x)
  }

  /** With everything but `x` in order, the only neighbours out of order are `x` and a later alarm in
      front of it. */
  lemma OnlyInversion(head: Entry, s: seq<Entry>, q: nat, x: Entry, j: nat)
    requires Sorted(Items(s)) && Place(Items(s), x.item.when) <= q <= |s| && 0 < j <= |s|
    ensures var d := WithAt(head, s, q, x);
      d[j].item.when > d[j + 1].item.when <==> j == q && q > Place(Items(s), x.item.when)
  {
    var t, w := Items(s), x.item.when;
    PlaceSplits(t, w);
    var d := WithAt(head, s, q, x);
    assert forall i :: 0 <= i < |s| ==> t[i] == s[i].item;
    assert d[j] == if j - 1 < q then s[j - 1] else if j - 1 == q then x else s[j - 2];
    assert d[j + 1] == if j < q then s[j] else if j == q then x else s[j - 1];
  }

  lemma SwapMoves(head: Entry, s: seq<Entry>, q: nat, x: Entry)
    requires 0 < q <= |s|
    ensures Swapped(WithAt(head, s, q, x), q) == WithAt(head, s, q - 1, x)
    ensures WithAt(head, s, q, x)[q + 1] == x
  {}

  lemma SameNodes(head: Entry, s: seq<Entry>, q: nat, r: nat, x: Entry)
    requires q <= |s| && r <= |s|
    ensures forall y :: y in WithAt(head, s, q, x) <==> y in WithAt(head, s, r, x)
  {
    assert forall k {:trigger WithAt(head, s, k, x)} :: k == q || k == r ==>
      forall y :: y in WithAt(head, s, k, x) <==> y == head || y == x || y in s by {
      MembersOf(head, s, q, x);
      MembersOf(head, s, r, x);
    }
  }

  lemma MembersOf(head: Entry, s: seq<Entry>, q: nat, x: Entry)
    requires q <= |s|
    ensures forall y :: y in WithAt(head, s, q, x) <==> y == head || y == x || y in s
  {
    assert s == s[..q] + s[q..];
  }

  /** One pass over the list. The new node moves one place to the left, until it is in its place; the
      comparison skipped after a swap would not have found anything. */
  method BubblePass(head: Entry, ghost s: seq<Entry>, ghost q: nat, ghost x: Entry)
    requires Sorted(Items(s)) && Place(Items(s), x.item.when) <= q <= |s|
    requires Ring(WithAt(head, s, q, x))
    modifies WithAt(head, s, q, x)
    ensures Ring(WithAt(head, s, if q > Place(Items(s), x.item.when) then q - 1 else q, x))
  {
    hide Place, Items, Sorted;
    ghost var p := Place(Items(s), x.item.when);
    ghost var r, d := q, WithAt(head, s, q, x);
    ghost var j := 1;
    assert Linked(d[0], d[After(0, |d|)]);
    var pos := head.next;
    while pos != head
      invariant p <= r <= |s| && d == WithAt(head, s, r, x) && Ring(d)
      invariant 1 <= j <= |d| && pos == d[if j < |d| then j else 0]
      invariant r == q || (r == q - 1 && q > p && j > q)
      invariant r == q && q > p ==> j <= q
      decreases |d| - j
    {
      SameNodes(head, s, q, r, x);
      assert Linked(d[j], d[After(j, |d|)]);
      var posNext := pos.next;
      if posNext != head {
        OnlyInversion(head, s, r, x, j);
        if pos.item.when > posNext.item.when {
          SwapWithNext(pos, posNext, d, j);
          SwapMoves(head, s, r, x);
          r := r - 1;
          j := j + 1;
          d := WithAt(head, s, r, x);
        }
      }
      assert Linked(d[j], d[After(j, |d|)]);
      pos := pos.next;
      j := j + 1;
    }
  }

  /** The place of the first alarm due at the same time as the new one. */
  method FindIndex(head: Entry, when: nat, ghost ns: seq<Entry>) returns (index: nat)
    requires Ring([head] + ns)
    ensures index <= |ns| && forall i :: 0 <= i < index ==> ns[i].item.when != when
    ensures index < |ns| ==> ns[index].item.when == when
  {
    ghost var d := [head] + ns;
    index := 0;
    assert Linked(d[0], d[After(0, |d|)]);
    var pos := head.next;
    while pos != head
      invariant index <= |ns| && pos == d[After(index, |d|)]
      invariant forall i :: 0 <= i < index ==> ns[i].item.when != when
      decreases |ns| - index
    {
      if pos.item.when == when {
        break;
      }
      assert Linked(d[index + 1], d[After(index + 1, |d|)]);
      index := index + 1;
      pos := pos.next;
    }
  }

  /** As many passes as the list has entries bring the new last node to its place. */
  method SortLast(alarm: Entry, head: Entry, size: nat, ghost ns: seq<Entry>)
    requires Sorted(Items(ns)) && size == |ns| + 1 && Ring(WithAt(head, ns, |ns|, alarm))
    modifies WithAt(head, ns, |ns|, alarm)
    ensures Ring(WithAt(head, ns, Place(Items(ns), alarm.item.when), alarm))
  {
    ghost var q := |ns|;
    ghost var p := Place(Items(ns), alarm.item.when);
    var i := size;
    while i > 0
      invariant p <= q <= |ns| && (q == p || q + 1 == i)
      invariant Ring(WithAt(head, ns, q, alarm))
    {
      SameNodes(head, ns, q, |ns|, alarm);
      ghost var d := WithAt(head, ns, q, alarm);
      assert forall k :: 0 <= k < |d| ==> d[k] in d;
      BubblePass(head, ns, q, alarm);
      q := if q > p then q - 1 else q;
      i := i - 1;
    }
  }

  /** Adds `alarm` to the sorted list: appends it, makes as many passes as the list has entries, and looks
      up its index. */
  method AddAlarmLocked(alarm: Entry, head: Entry, ghost ns: seq<Entry>) returns (index: nat)
    requires Ring([head] + ns) && Sorted(Items(ns)) && alarm !in [head] + ns
    modifies [head] + ns, alarm
    ensures Ring(WithAt(head, ns, Place(Items(ns), alarm.item.when), alarm))
    ensures var r := InsertSorted(Items(ns), alarm.item);
      index < |r| && r[index].when == alarm.item.when && forall i :: 0 <= i < index ==> r[i].when < alarm.item.when
  {
    hide Linked, Distinct, Sorted, Items, Place, InsertSorted;
    ListAddTail(alarm, head, [head] + ns);
    assert [head] + ns + [alarm] == WithAt(head, ns, |ns|, alarm);
    var size := GetListSize(head, WithAt(head, ns, |ns|, alarm));
    SortLast(alarm, head, size, ns);
    ghost var p := Place(Items(ns), alarm.item.when);
    index := FindIndex(head, alarm.item.when, Inserted(ns, p, alarm));
    IndexRight(ns, alarm, index);
  }

  lemma IndexRight(ns: seq<Entry>, x: Entry, index: nat)
    requires Sorted(Items(ns))
    requires var r := Inserted(ns, Place(Items(ns), x.item.when), x);
      && index <= |r| && (forall i :: 0 <= i < index ==> r[i].item.when != x.item.when)
      && (index < |r| ==> r[index].item.when == x.item.when)
    ensures var r := InsertSorted(Items(ns), x.item);
      index < |r| && r[index].when == x.item.when && forall i :: 0 <= i < index ==> r[i].when < x.item.when
  {
    var p := Place(Items(ns), x.item.when);
    var r := Inserted(ns, p, x);
    ItemsInserted(ns, p, x);
    InsertKeepsOrder(Items(ns), x.item);
    assert r[p] == x;
    assert forall i :: 0 <= i < |r| ==> Items(r)[i] == r[i].item;
  }

  lemma ItemsInserted(ns: seq<Entry>, k: nat, x: Entry)
    requires k <= |ns|
    ensures Items(Inserted(ns, k, x)) == Inserted(Items(ns), k, x.item)
  {}

  // ----- Removal -----

  lemma NotHead(head: Entry, ns: seq<Entry>)
    requires Distinct([head] + ns)
    ensures head !in ns && forall i :: 0 <= i < |ns| ==> ns[i] != head
  {
    var d := [head] + ns;
    assert forall i :: 0 <= i < |ns| ==> ns[i] == d[i + 1] != d[0];
  }

  /** The alarms before the `j`-th have been looked at and `kept` are left of them. */
  ghost predicate Sifted(listener: int, head: Entry, ns: seq<Entry>, kept: seq<Entry>, j: nat)
    reads [head] + kept + if j <= |ns| then ns[j..] else []
  {
    && j <= |ns| && Ring([head] + kept + ns[j..]) && (forall y :: y in kept ==> y in ns)
    && Items(kept) == Without(Items(ns[..j]), listener)
  }

  /** One round of the removal loop: deletes the alarm if it is the listener's. */
  method RemoveIf(pos: Entry, listener: int, head: Entry, ghost ns: seq<Entry>, ghost kept: seq<Entry>, ghost j: nat)
    returns (next: Entry, ghost kept': seq<Entry>)
    requires j < |ns| && Sifted(listener, head, ns, kept, j) && pos == ns[j]
    modifies [head] + ns
    ensures Sifted(listener, head, ns, kept', j + 1)
    ensures next == if j + 1 < |ns| then ns[j + 1] else head
  {
    ghost var d := [head] + kept + ns[j..];
    assert Ring(d);
    SiftItems(listener, ns, kept, j);
    hide Without, Items, Linked, Distinct, Sifted;
    DropFirst(head, kept, ns, j);
    StillThere(head, ns, kept, j);
    next := NextOf(pos, d, |kept| + 1);
    kept' := kept;
    if pos.item.listener == listener {
      ListDel(pos, d, |kept| + 1);
    } else {
      kept' := kept + [ns[j]];
    }
    assert Ring([head] + kept' + ns[j + 1..]);
    SiftedIf(listener, head, ns, kept', j + 1);
  }

  method NextOf(pos: Entry, ghost d: seq<Entry>, ghost k: nat) returns (next: Entry)
    requires Ring(d) && k < |d| && pos == d[k]
    ensures next == d[After(k, |d|)]
  {
    assert Linked(d[k], d[After(k, |d|)]);
    next := pos.next;
  }

  lemma DropFirst(head: Entry, kept: seq<Entry>, ns: seq<Entry>, j: nat)
    requires j < |ns|
    ensures var d := [head] + kept + ns[j..];
      && d[|kept| + 1] == ns[j] && d[After(|kept| + 1, |d|)] == (if j + 1 < |ns| then ns[j + 1] else head)
      && Removed(d, |kept| + 1) == [head] + kept + ns[j + 1..]
      && d == [head] + (kept + [ns[j]]) + ns[j + 1..]
  {}

  lemma SiftItems(listener: int, ns: seq<Entry>, kept: seq<Entry>, j: nat)
    requires j < |ns| && Items(kept) == Without(Items(ns[..j]), listener)
    ensures Without(Items(ns[..j + 1]), listener) ==
            Items(if ns[j].item.listener == listener then kept else kept + [ns[j]])
  {
    assert Items(ns[..j + 1])[..j] == Items(ns[..j]);
    assert Items(ns[..j + 1])[j] == ns[j].item;
    assert Items(kept + [ns[j]]) == Items(kept) + [ns[j].item];
  }

  /** Takes the alarms of `listener` off the list. */
  method RemoveAlarmLocked(listener: int, head: Entry, ghost ns: seq<Entry>) returns (ghost kept: seq<Entry>)
    requires Ring([head] + ns)
    modifies [head] + ns
    ensures Ring([head] + kept) && (forall y :: y in kept ==> y in ns)
    ensures Items(kept) == Without(Items(ns), listener)
  {
    ghost var j := 0;
    kept := [];
    SiftedNone(listener, head, ns);
    NotHead(head, ns);
    hide Items, Without, Linked, Distinct;
    var empty := ListEmpty(head, [head] + ns);
    if !empty {
      var pos := NextOf(head, [head] + ns, 0);
      hide Sifted, Ring;
      while pos != head
        invariant j <= |ns| && Sifted(listener, head, ns, kept, j)
        invariant pos == if j < |ns| then ns[j] else head
        decreases |ns| - j
      {
        pos, kept := RemoveIf(pos, listener, head, ns, kept, j);
        j := j + 1;
      }
    }
    SiftedAll(listener, head, ns, kept);
  }

  lemma SiftedIf(listener: int, head: Entry, ns: seq<Entry>, kept: seq<Entry>, j: nat)
    requires j <= |ns| && Ring([head] + kept + ns[j..]) && (forall y :: y in kept ==> y in ns)
    requires Items(kept) == Without(Items(ns[..j]), listener)
    ensures Sifted(listener, head, ns, kept, j)
  {}

  lemma SiftedNone(listener: int, head: Entry, ns: seq<Entry>)
    requires Ring([head] + ns)
    ensures Sifted(listener, head, ns, [], 0)
  {
    assert [head] + [] + ns[0..] == [head] + ns;
  }

  lemma SiftedAll(listener: int, head: Entry, ns: seq<Entry>, kept: seq<Entry>)
    requires Sifted(listener, head, ns, kept, |ns|)
    ensures Ring([head] + kept) && (forall y :: y in kept ==> y in ns)
    ensures Items(kept) == Without(Items(ns), listener)
  {
    assert ns[..|ns|] == ns && [head] + kept + ns[|ns|..] == [head] + kept;
  }

  lemma StillThere(head: Entry, ns: seq<Entry>, kept: seq<Entry>, j: nat)
    requires j <= |ns| && forall y :: y in kept ==> y in ns
    ensures var d := [head] + kept + ns[j..]; forall k :: 0 <= k < |d| ==> d[k] in [head] + ns
  {
    var d, all := [head] + kept + ns[j..], [head] + ns;
    forall k | 0 <= k < |d|
      ensures d[k] in all
    {
      if k == 0 {
        assert d[k] == all[0];
      } else if k <= |kept| {
        assert d[k] == kept[k - 1] && kept[k - 1] in ns;
      } else {
        assert d[k] == all[k - |kept| + j];
      }
    }
  }

  // ----- The manager -----

  datatype Device = Unarmed | Armed(at: int)

  class Manager {
    const alarmList: Entry
    const triggerList: Entry
    ghost var alarms: seq<Entry>
    ghost var triggered: seq<Entry>
    var device: Device

    ghost function Repr(): set<Entry>
      reads this`alarms, this`triggered
    {
      {alarmList, triggerList} + (set n | n in alarms) + set n | n in triggered
    }

    /** Two well-formed lists without a common node; the alarms in order, one per listener. */
    ghost predicate Valid()
      reads this`alarms, this`triggered, Repr()
    {
      && Ring([alarmList] + alarms) && Ring([triggerList] + triggered)
      && Apart([alarmList] + alarms, [triggerList] + triggered)
      && Ordered(Items(alarms))
    }

    constructor ()
      ensures Valid() && fresh(Repr()) && alarms == [] && triggered == [] && device == Unarmed
    {
      alarmList := new Node<Alarm>(Alarm(0, 0));
      triggerList := new Node<Alarm>(Alarm(0, 0));
      alarms, triggered, device := [], [], Unarmed;
      new;
      InitListHead(alarmList);
      InitListHead(triggerList);
      assert [alarmList] + alarms == [alarmList] && [triggerList] + triggered == [triggerList];
    }

    /** Arms the device; the seconds pass through a 32-bit int. */
    method SetLocked(when: nat)
      modifies this`device
      ensures device == Armed(ArmTime(when))
    {
      var seconds := Wrap32(when / 1000);
      var nanoseconds := (when % 1000) * 1000 * 1000;
      device := Armed(seconds * 1000 + nanoseconds / 1000000);
    }

    /** Removes the listener's old alarm and adds the new one in its place. */
    method Replace(alarm: Entry) returns (index: nat)
      requires Valid() && alarm !in Repr()
      modifies this`alarms, Repr(), alarm
      ensures Valid() && Repr() <= old(Repr()) + {alarm}
      ensures Items(alarms) == SetAlarm(old(Items(alarms)), alarm.item)
      ensures index < |alarms| && Items(alarms)[index].when == alarm.item.when
      ensures forall i :: 0 <= i < index ==> Items(alarms)[i].when < alarm.item.when
    {
      ghost var ts := [triggerList] + triggered;
      assert forall k :: 0 <= k < |ts| ==> ts[k] != alarm;
      ghost var kept := RemoveAlarmLocked(alarm.item.listener, alarmList, alarms);
      FewerApart(alarmList, kept, alarms, ts);
      SetItems(Items(alarms), kept, alarm);
      hide Without, Place, Sorted, Ordered, Distinct, Linked, Items, InsertSorted, SetAlarm;
      index := AddAlarmLocked(alarm, alarmList, kept);
      assert Ring(ts);
      hide Ring;
      ghost var p := Place(Items(kept), alarm.item.when);
      InsertedApart(alarmList, kept, p, alarm, ts);
      alarms := Inserted(kept, p, alarm);
    }

    method SetRepeat(when: nat, listener: int)
      requires Valid() && listener != 0
      modifies this, Repr()
      ensures Valid() && fresh(Repr() - old(Repr())) && triggered == old(triggered)
      ensures var a := Alarm(when, listener);
        && Items(alarms) == SetAlarm(old(Items(alarms)), a)
        && device == if Items(alarms)[0].when == when then Armed(ArmTime(when)) else old(device)
    {
      var alarm := new Node<Alarm>(Alarm(when, listener));
      var index := Replace(alarm);
      if index == 0 {
        SetLocked(when);
      }
    }

    static lemma SetItems(s: seq<Alarm>, kept: seq<Entry>, x: Entry)
      requires Ordered(s) && Items(kept) == Without(s, x.item.listener)
      ensures Sorted(Items(kept)) && InsertSorted(Items(kept), x.item) == SetAlarm(s, x.item)
      ensures Place(Items(kept), x.item.when) <= |kept|
      ensures Items(Inserted(kept, Place(Items(kept), x.item.when), x)) == SetAlarm(s, x.item)
      ensures Ordered(SetAlarm(s, x.item))
    {
      WithoutKeepsOrder(s, x.item.listener);
      SetKeepsOrder(s, x.item);
      ItemsInserted(kept, Place(Items(kept), x.item.when), x);
    }

    static lemma FewerApart(head: Entry, kept: seq<Entry>, ns: seq<Entry>, ts: seq<Entry>)
      requires Apart([head] + ns, ts) && forall y :: y in kept ==> y in ns
      ensures Apart([head] + kept, ts)
    {
      ApartMembers([head] + ns, ts);
      ApartMembers([head] + kept, ts);
    }

    static lemma InsertedApart(head: Entry, s: seq<Entry>, q: nat, x: Entry, ts: seq<Entry>)
      requires q <= |s| && Apart([head] + s, ts) && forall k :: 0 <= k < |ts| ==> ts[k] != x
      ensures Apart(WithAt(head, s, q, x), ts)
      ensures forall y :: y in Inserted(s, q, x) ==> y == x || y in s
    {
      var d := WithAt(head, s, q, x);
      assert forall i :: 0 <= i < |d| ==>
        d[i] == if i == 0 then head else if i <= q then s[i - 1] else if i == q + 1 then x else s[i - 2];
      assert forall i :: 0 <= i < |s| ==> ([head] + s)[i + 1] == s[i];
      assert ([head] + s)[0] == head;
    }

    method Cancel(listener: int)
      requires Valid()
      modifies this, Repr()
      ensures Valid() && Repr() <= old(Repr()) && triggered == old(triggered) && device == old(device)
      ensures Items(alarms) == Without(old(Items(alarms)), listener)
    {
      WithoutKeepsOrder(Items(alarms), listener);
      hide Without, Ordered, Distinct, Linked;
      ghost var kept := RemoveAlarmLocked(listener, alarmList, alarms);
      FewerApart(alarmList, kept, alarms, [triggerList] + triggered);
      alarms := kept;
    }

    // ----- Firing -----

    /** Throws away the first entry of the trigger list. */
    method DropTriggered(pos: Entry) returns (next: Entry)
      requires Valid() && triggered != [] && pos == triggered[0]
      modifies this`triggered, [triggerList] + triggered
      ensures Valid() && triggered == old(triggered)[1..] && Repr() <= old(Repr())
      ensures next == if triggered != [] then triggered[0] else triggerList
    {
      ghost var d, cs := [triggerList] + triggered, [alarmList] + alarms;
      assert d[1] == triggered[0];
      next := NextOf(pos, d, 1);
      ListDel(pos, d, 1);
      assert Removed(d, 1) == [triggerList] + triggered[1..];
      triggered := triggered[1..];
      assert Ring(cs);
      assert Apart(cs, Removed(d, 1));
    }

    method ClearTriggered()
      requires Valid()
      modifies this`triggered, [triggerList] + triggered
      ensures Valid() && triggered == [] && Repr() <= old(Repr())
    {
      ghost var all, j := [triggerList] + triggered, 0;
      var pos := NextOf(triggerList, all, 0);
      NotHead(triggerList, triggered);
      while pos != triggerList
        invariant Valid() && Repr() <= old(Repr())
        invariant j <= |old(triggered)| && triggered == old(triggered)[j..] && triggerList !in triggered
        invariant pos == if triggered != [] then triggered[0] else triggerList
        decreases |triggered|
      {
        hide Ring, Distinct, Apart, Ordered;
        assert all[0] == triggerList && forall k :: 0 <= k < |triggered| ==> triggered[k] == all[k + 1 + j];
        ghost var d := [triggerList] + triggered;
        assert forall k :: 0 <= k < |d| ==> d[k] in all;
        pos := DropTriggered(pos);
        j := j + 1;
      }
    }

    /** Adds `x` to the end of the list `t` and takes the first entry off the list `a`. */
    static method MoveFirst(pos: Entry, x: Entry, a: Entry, t: Entry, ghost ns: seq<Entry>, ghost ts: seq<Entry>)
      returns (next: Entry)
      requires Ring([a] + ns) && Ring([t] + ts) && ns != [] && pos == ns[0]
      requires Apart([a] + ns, [t] + ts + [x]) && x !in [t] + ts
      modifies [a] + ns, [t] + ts, x
      ensures Ring([a] + ns[1..]) && Ring([t] + (ts + [x]))
      ensures next == if |ns| > 1 then ns[1] else a
    {
      ghost var c, d, e := [a] + ns, [t] + ts, [t] + (ts + [x]);
      assert c[1] == ns[0] && e == d + [x];
      assert forall j :: 0 <= j < |d| ==> (d + [x])[j] == d[j];
      assert (d + [x])[|d|] == x;
      assert forall i, j :: 0 <= i < |c| && 0 <= j < |d| ==> c[i] != d[j] && c[i] != x;
      next := NextOf(pos, c, 1);
      hide Linked, Distinct;
      ListAddTail(x, t, d);
      assert Ring(c);
      ListDel(pos, c, 1);
      assert Removed(c, 1) == [a] + ns[1..];
      assert Ring(e);
    }

    /** Moves the first alarm to the trigger list, as a new record. */
    method FireFirst(pos: Entry) returns (next: Entry)
      requires Valid() && alarms != [] && pos == alarms[0]
      modifies this`alarms, this`triggered, Repr()
      ensures Valid() && fresh(Repr() - old(Repr()))
      ensures alarms == old(alarms)[1..] && Items(triggered) == old(Items(triggered)) + [old(alarms)[0].item]
      ensures next == if alarms != [] then alarms[0] else alarmList
    {
      var triggeredAlarm := new Node<Alarm>(pos.item);
      FireItems(alarms, triggered, triggeredAlarm);
      FireApart(alarmList, alarms, triggerList, triggered, triggeredAlarm);
      hide Linked, Distinct, Ordered, Items, Ring, Apart;
      next := MoveFirst(pos, triggeredAlarm, alarmList, triggerList, alarms, triggered);
      alarms := alarms[1..];
      triggered := triggered + [triggeredAlarm];
    }

    static lemma FireItems(ns: seq<Entry>, ts: seq<Entry>, x: Entry)
      requires ns != [] && x.item == ns[0].item && Ordered(Items(ns))
      ensures Ordered(Items(ns[1..])) && Items(ts + [x]) == Items(ts) + [ns[0].item]
    {
      DropKeepsOrder(Items(ns));
      assert Items(ns)[1..] == Items(ns[1..]);
    }

    static lemma FireApart(a: Entry, ns: seq<Entry>, t: Entry, ts: seq<Entry>, x: Entry)
      requires ns != [] && Apart([a] + ns, [t] + ts) && forall k :: 0 <= k < |[a] + ns| ==> ([a] + ns)[k] != x
      ensures Apart([a] + ns, [t] + ts + [x])
      ensures Apart([a] + ns[1..], [t] + (ts + [x]))
    {
      var c, d := [a] + ns, [t] + ts;
      assert forall i :: 0 <= i < |ns| ==> ([a] + ns[1..])[i] == if i == 0 then c[0] else c[i + 1];
      assert forall i :: 0 <= i < |ts| + 2 ==> ([t] + (ts + [x]))[i] == if i <= |ts| then d[i] else x;
      assert [t] + ts + [x] == [t] + (ts + [x]);
    }

    /** Moves alarms to the trigger list, stopping at the first one that is not due yet. */
    method FireDue(now: nat)
      requires Valid() && triggered == []
      modifies this`alarms, this`triggered, Repr()
      ensures Valid() && fresh(Repr() - old(Repr()))
      ensures Items(triggered) == Due(old(Items(alarms)), now) && Items(alarms) == Later(old(Items(alarms)), now)
    {
      ghost var all, j := Items(alarms), 0;
      assert all[0..] == all && all[..0] == [];
      NotHead(alarmList, alarms);
      var pos := NextOf(alarmList, [alarmList] + alarms, 0);
      hide Distinct, Apart, Ordered, Place;
      while pos != alarmList
        invariant Valid() && fresh(Repr() - old(Repr()))
        invariant j <= |all| && Items(triggered) == all[..j] && Items(alarms) == all[j..]
        invariant forall i :: 0 <= i < j ==> all[i].when <= now
        invariant alarmList !in alarms && pos == if alarms != [] then alarms[0] else alarmList
        decreases |alarms|
      {
        if pos.item.when > now {
          break;
        }
        NextItem(alarms, all, j);
        hide Ring, Items;
        pos := FireFirst(pos);
        j := j + 1;
      }
      PlaceIs(all, now, j);
    }

    static lemma NextItem(ns: seq<Entry>, all: seq<Alarm>, j: nat)
      requires ns != [] && j <= |all| && Items(ns) == all[j..]
      ensures j < |all| && ns[0].item == all[j] && Items(ns[1..]) == all[j + 1..] && all[..j] + [all[j]] == all[..j + 1]
    {
      assert Items(ns)[0] == ns[0].item;
      assert Items(ns[1..]) == Items(ns)[1..];
    }

    /** Fires what is due and arms the device for what is then the first alarm. */
    method TriggerAlarmLocked(now: nat)
      requires Valid()
      modifies this, Repr()
      ensures Valid() && fresh(Repr() - old(Repr()))
      ensures Items(triggered) == Due(old(Items(alarms)), now) && Items(alarms) == Later(old(Items(alarms)), now)
      ensures device == if alarms != [] then Armed(ArmTime(Items(alarms)[0].when)) else old(device)
    {
      hide Distinct, Linked, Ordered, Apart, Due, Later, ArmTime;
      ClearTriggered();
      FireDue(now);
      var size := GetListSize(alarmList, [alarmList] + alarms);
      if size > 0 {
        var alarm := NextOf(alarmList, [alarmList] + alarms, 0);
        SetLocked(alarm.item.when);
      }
    }
  }
}
