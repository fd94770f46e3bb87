/** The intrusive circular doubly linked list. A ring is given by the sequence of its nodes in order;
    a list is a ring with the list head as its first node. */
module ListHead {

  /** A list_head with the structure it is embedded in; a bare list head has a meaningless one. */
  class Node<T> {
    var next: Node?<T>
    var prev: Node?<T>
    const item: T

    constructor (item: T)
      ensures this.item == item
    {
      this.item := item;
      next, prev := null, null;
    }
  }

  function After(i: int, n: int): int {
    if i + 1 < n then i + 1 else 0
  }

  predicate Distinct<T>(c: seq<Node<T>>) {
    forall i, j :: 0 <= i < j < |c| ==> c[i] != c[j]
  }

  ghost predicate Linked<T>(a: Node<T>, b: Node<T>)
    reads a, b
  {
    a.next == b && b.prev == a
  }

  /** The nodes of `c` form a ring in this order. */
  ghost predicate Ring<T>(c: seq<Node<T>>)
    reads c
  {
    |c| >= 1 && Distinct(c) && forall i :: 0 <= i < |c| ==> Linked(c[i], c[After(i, |c|)])
  }

  function Inserted<A>(c: seq<A>, k: int, x: A): seq<A>
    requires 0 <= k <= |c|
  {
    c[..k] + [x] + c[k..]
  }

  function Removed<A>(c: seq<A>, k: int): seq<A>
    requires 0 <= k < |c|
  {
    c[..k] + c[k + 1..]
  }

  method InitListHead<T>(list: Node<T>)
    modifies list
    ensures Ring([list])
  {
    list.next := list;
    list.prev := list;
  }

  /** All consecutive nodes of the ring `c` are linked, save for the pair at `k` and, if `last` is not the
      end of the ring, what lies behind it. */
  ghost predicate LinkedBut<T>(c: seq<Node<T>>, k: nat, last: nat)
    requires last <= |c|
    reads c
  {
    forall i :: 0 <= i < last && i != k ==> Linked(c[i], c[After(i, |c|)])
  }

  lemma InsertedRing<T>(c: seq<Node<T>>, k: nat, x: Node<T>)
    requires k < |c| && Distinct(c) && x !in c && LinkedBut(c, k, |c|)
    requires Linked(c[k], x) && Linked(x, c[After(k, |c|)])
    ensures Ring(Inserted(c, k + 1, x))
  {
    hide Linked;
    var d, n := Inserted(c, k + 1, x), |c|;
    forall i | 0 <= i < |d|
      ensures Linked(d[i], d[After(i, |d|)])
    {
      if i < k {
        assert Linked(c[i], c[After(i, n)]);
      } else if i > k + 1 {
        assert Linked(c[i - 1], c[After(i - 1, n)]);
      }
    }
  }

  /** Inserts `x` between the consecutive nodes `prev` and `next`. */
  method ListAddBetween<T>(x: Node<T>, prev: Node<T>, next: Node<T>, ghost c: seq<Node<T>>, ghost k: nat)
    requires Ring(c) && x !in c && k < |c| && prev == c[k] && next == c[After(k, |c|)]
    modifies c, x
    ensures Ring(Inserted(c, k + 1, x))
  {
    ghost var n := |c|;
    assert forall i :: 0 <= i < n && i != k ==>
      Linked(c[i], c[After(i, n)]) && c[i] != c[k] && c[After(i, n)] != c[After(k, n)];
    next.prev := x;
    x.next := next;
    x.prev := prev;
    prev.next := x;
    InsertedRing(c, k, x);
  }

  method ListAdd<T>(x: Node<T>, head: Node<T>, ghost c: seq<Node<T>>)
    requires Ring(c) && x !in c && head == c[0]
    modifies c, x
    ensures Ring(Inserted(c, 1, x))
  {
    assert Linked(c[0], c[After(0, |c|)]);
    ListAddBetween(x, head, head.next, c, 0);
  }

  method ListAddTail<T>(x: Node<T>, head: Node<T>, ghost c: seq<Node<T>>)
    requires Ring(c) && x !in c && head == c[0]
    modifies c, x
    ensures Ring(c + [x])
  {
    assert Linked(c[|c| - 1], c[After(|c| - 1, |c|)]);
    ListAddBetween(x, head.prev, head, c, |c| - 1);
    assert Inserted(c, |c|, x) == c + [x];
  }

  /** Makes the neighbours of an entry point at each other; the entry keeps its own pointers. */
  method ListDelEntry<T>(entry: Node<T>, ghost c: seq<Node<T>>, ghost k: nat)
    requires Ring(c) && 0 < k < |c| && entry == c[k]
    modifies c
    ensures Ring(Removed(c, k))
  {
    ghost var d, n := Removed(c, k), |c|;
    assert Linked(c[k - 1], c[After(k - 1, n)]) && Linked(c[k], c[After(k, n)]);
    assert forall i :: 0 <= i < n && i != k && i != k - 1 ==>
      Linked(c[i], c[After(i, n)]) && c[i] != c[k - 1] && c[i] != c[k]
      && c[After(i, n)] != c[k] && c[After(i, n)] != c[After(k, n)];
    var prev, next := entry.prev, entry.next;
    next.prev := prev;
    prev.next := next;
    forall i | 0 <= i < |d|
      ensures Linked(d[i], d[After(i, |d|)])
    {
      if i < k - 1 {
        assert Linked(c[i], c[After(i, n)]);
      } else if i >= k {
        assert Linked(c[i + 1], c[After(i + 1, n)]);
      }
    }
  }

  /** Takes the entry out of its list; its own pointers are poisoned. */
  method ListDel<T>(entry: Node<T>, ghost c: seq<Node<T>>, ghost k: nat)
    requires Ring(c) && 0 < k < |c| && entry == c[k]
    modifies c
    ensures Ring(Removed(c, k)) && entry.next == null && entry.prev == null
  {
    ghost var d := Removed(c, k);
    assert forall i :: 0 <= i < |d| ==> d[i] != entry;
    ListDelEntry(entry, c, k);
    assert forall i :: 0 <= i < |d| ==> Linked(d[i], d[After(i, |d|)]);
    entry.next := null;
    entry.prev := null;
    assert forall i :: 0 <= i < |d| ==> Linked(d[i], d[After(i, |d|)]);
  }

  method ListEmpty<T>(head: Node<T>, ghost c: seq<Node<T>>) returns (r: bool)
    requires Ring(c) && head == c[0]
    ensures r == (|c| == 1)
  {
    assert Linked(c[0], c[After(0, |c|)]);
    r := head.next == head;
  }

  method ListIsSingular<T>(head: Node<T>, ghost c: seq<Node<T>>) returns (r: bool)
    requires Ring(c) && head == c[0]
    ensures r == (|c| == 2)
  {
    assert Linked(c[0], c[After(0, |c|)]) && Linked(c[|c| - 1], c[After(|c| - 1, |c|)]);
    var empty := ListEmpty(head, c);
    r := !empty && head.next == head.prev;
  }

  method GetListSize<T>(list: Node<T>, ghost c: seq<Node<T>>) returns (count: nat)
    requires Ring(c) && list == c[0]
    ensures count == |c| - 1
  {
    count := 0;
    assert Linked(c[0], c[After(0, |c|)]);
    var pos := list.next;
    while pos != list
      invariant count < |c| && pos == c[After(count, |c|)]
      decreases |c| - count
    {
      assert Linked(c[count + 1], c[After(count + 1, |c|)]);
      pos := pos.next;
      count := count + 1;
    }
  }

  // ----- Cutting and splicing -----

  predicate Apart<T>(a: seq<Node<T>>, c: seq<Node<T>>) {
    forall i, j :: 0 <= i < |a| && 0 <= j < |c| ==> a[i] != c[j]
  }

  /** Moves the entries up to `entry` from the list `head` to the head `list`. */
  method CutLinks<T>(list: Node<T>, head: Node<T>, entry: Node<T>, ghost c: seq<Node<T>>, ghost k: nat)
    requires Ring(c) && head == c[0] && 0 < k < |c| && entry == c[k] && list !in c
    modifies c, list
    ensures Ring([list] + c[1..k + 1]) && Ring([head] + c[k + 1..])
  {
    ghost var n := |c|;
    assert Linked(c[0], c[After(0, n)]) && Linked(c[k], c[After(k, n)]);
    assert forall i :: 0 < i < n && i != k ==>
      Linked(c[i], c[After(i, n)]) && c[i] != c[0] && c[i] != c[k]
      && c[After(i, n)] != c[After(k, n)] && c[After(i, n)] != c[1];
    CutDistinct(list, c, k);
    hide Distinct;
    var newFirst := entry.next;
    list.next := head.next;
    list.next.prev := list;
    list.prev := entry;
    entry.next := list;
    head.next := newFirst;
    newFirst.prev := head;
    CutRings(list, c, k);
  }

  lemma CutRings<T>(list: Node<T>, c: seq<Node<T>>, k: nat)
    requires 0 < k < |c| && Distinct([list] + c[1..k + 1]) && Distinct([c[0]] + c[k + 1..])
    requires forall i :: 0 < i < |c| && i != k ==> Linked(c[i], c[After(i, |c|)])
    requires Linked(list, c[1]) && Linked(c[k], list) && Linked(c[0], c[After(k, |c|)])
    ensures Ring([list] + c[1..k + 1]) && Ring([c[0]] + c[k + 1..])
  {
    hide Linked;
    var a, b := [list] + c[1..k + 1], [c[0]] + c[k + 1..];
    forall i | 0 <= i < |a|
      ensures Linked(a[i], a[After(i, |a|)])
    {
      if 0 < i < k { assert Linked(c[i], c[After(i, |c|)]); }
    }
    forall i | 0 <= i < |b|
      ensures Linked(b[i], b[After(i, |b|)])
    {
      if i > 0 {
        assert b[i] == c[k + i] && b[After(i, |b|)] == c[After(k + i, |c|)];
        assert Linked(c[k + i], c[After(k + i, |c|)]);
      }
    }
  }

  /** Cuts the list after `entry`, the node with index `k`. From an empty list nothing is cut, and `list`
      is not even initialised: both results are lists exactly if there was something to cut or `list` was
      an empty list already. */
  method ListCutPosition<T>(list: Node<T>, head: Node<T>, entry: Node<T>, ghost c: seq<Node<T>>, ghost k: nat)
    requires Ring(c) && head == c[0] && k < |c| && entry == c[k] && list !in c
    modifies c, list
    ensures Ring([head] + c[k + 1..])
    ensures Ring([list] + c[1..k + 1]) <==> |c| > 1 || old(Ring([list]))
  {
    var empty := ListEmpty(head, c);
    if empty {
      assert c == [head] + c[k + 1..] && [list] + c[1..k + 1] == [list];
      return;
    }
    var singular := ListIsSingular(head, c);
    assert Linked(c[0], c[After(0, |c|)]);
    if singular && head.next != entry && head != entry {
      assert false;
    }
    if entry == head {
      assert c == [head] + c[k + 1..] && [list] + c[1..k + 1] == [list];
      assert forall i :: 0 <= i < |c| ==> Linked(c[i], c[After(i, |c|)]);
      InitListHead(list);
      assert Ring(c);
    } else {
      CutLinks(list, head, entry, c, k);
    }
  }

  lemma ApartMembers<T>(a: seq<Node<T>>, c: seq<Node<T>>)
    ensures Apart(a, c) <==> forall y :: y in a ==> y !in c
  {
    if Apart(a, c) {
      forall y | y in a
        ensures y !in c
      {
        var i :| 0 <= i < |a| && a[i] == y;
      }
    }
    assert forall i, j :: 0 <= i < |a| && 0 <= j < |c| ==> a[i] in a && c[j] in c;
  }

  lemma SpliceDistinct<T>(a: seq<Node<T>>, c: seq<Node<T>>, k: nat)
    requires Distinct(a) && Distinct(c) && Apart(a, c) && |a| >= 1 && k < |c|
    ensures Distinct(c[..k + 1] + a[1..] + c[k + 1..])
  {}

  lemma CutDistinct<T>(list: Node<T>, c: seq<Node<T>>, k: nat)
    requires Distinct(c) && list !in c && 0 < k < |c|
    ensures Distinct([list] + c[1..k + 1]) && Distinct([c[0]] + c[k + 1..])
  {}

  lemma SplicedRing<T>(a: seq<Node<T>>, c: seq<Node<T>>, k: nat)
    requires |a| > 1 && k < |c| && Distinct(c[..k + 1] + a[1..] + c[k + 1..])
    requires LinkedBut(c, k, |c|) && LinkedBut(a, 0, |a| - 1)
    requires Linked(c[k], a[1]) && Linked(a[|a| - 1], c[After(k, |c|)])
    ensures Ring(c[..k + 1] + a[1..] + c[k + 1..])
  {
    var n, m, d := |c|, |a|, c[..k + 1] + a[1..] + c[k + 1..];
    hide Linked;
    forall i | 0 <= i < |d|
      ensures Linked(d[i], d[After(i, |d|)])
    {
      if i < k {
        assert Linked(c[i], c[After(i, n)]);
      } else if k < i < k + m - 1 {
        assert d[i] == a[i - k] && d[i + 1] == a[i - k + 1];
        assert Linked(a[i - k], a[After(i - k, m)]);
      } else if i > k + m - 1 {
        assert d[i] == c[i - m + 1] && d[After(i, |d|)] == c[After(i - m + 1, n)];
        assert Linked(c[i - m + 1], c[After(i - m + 1, n)]);
      }
    }
  }

  /** Puts the entries of the list `a` between the consecutive nodes `prev` and `next` of the ring `c`. */
  method SpliceLinks<T>(list: Node<T>, prev: Node<T>, next: Node<T>, ghost a: seq<Node<T>>,
      ghost c: seq<Node<T>>, ghost k: nat)
    requires Ring(a) && Ring(c) && |a| > 1 && list == a[0] && Apart(a, c)
    requires k < |c| && prev == c[k] && next == c[After(k, |c|)]
    modifies a[1..], c
    ensures Ring(c[..k + 1] + a[1..] + c[k + 1..])
  {
    ghost var n, m := |c|, |a|;
    SpliceDistinct(a, c, k);
    assert Linked(a[0], a[After(0, m)]) && Linked(a[m - 1], a[After(m - 1, m)]) && Linked(c[k], c[After(k, n)]);
    assert forall i :: 0 <= i < n && i != k ==>
      Linked(c[i], c[After(i, n)]) && c[i] != c[k] && c[After(i, n)] != c[After(k, n)]
      && c[i] != a[m - 1] && c[After(i, n)] != a[1];
    assert forall i :: 0 <= i < m - 1 && i != 0 ==>
      Linked(a[i], a[After(i, m)]) && a[i] != c[k] && a[i] != a[m - 1]
      && a[After(i, m)] != c[After(k, n)] && a[After(i, m)] != a[1];
    hide Distinct, Apart;
    var first, last := list.next, list.prev;
    first.prev := prev;
    prev.next := first;
    last.next := next;
    next.prev := last;
    SplicedRing(a, c, k);
  }

  method ListSplice<T>(list: Node<T>, head: Node<T>, ghost a: seq<Node<T>>, ghost c: seq<Node<T>>)
    requires Ring(a) && Ring(c) && list == a[0] && head == c[0] && Apart(a, c)
    modifies a[1..], c
    ensures Ring([head] + a[1..] + c[1..])
  {
    var empty := ListEmpty(list, a);
    if !empty {
      assert Linked(c[0], c[After(0, |c|)]);
      SpliceLinks(list, head, head.next, a, c, 0);
      assert c[..1] == [head];
    } else {
      assert c == [head] + a[1..] + c[1..];
    }
  }

  method ListSpliceTailInit<T>(list: Node<T>, head: Node<T>, ghost a: seq<Node<T>>, ghost c: seq<Node<T>>)
    requires Ring(a) && Ring(c) && list == a[0] && head == c[0] && Apart(a, c)
    modifies a, c
    ensures Ring([list]) && Ring(c + a[1..])
  {
    var empty := ListEmpty(list, a);
    if !empty {
      assert Linked(c[|c| - 1], c[After(|c| - 1, |c|)]);
      SpliceLinks(list, head.prev, head, a, c, |c| - 1);
      ghost var d := c + a[1..];
      assert c[..|c|] + a[1..] + c[|c|..] == d;
      assert list !in d;
      assert forall i :: 0 <= i < |d| ==> Linked(d[i], d[After(i, |d|)]);
      InitListHead(list);
      assert forall i :: 0 <= i < |d| ==> Linked(d[i], d[After(i, |d|)]);
    } else {
      assert c == c + a[1..] && a == [list];
    }
  }

  /** Cutting off a prefix and splicing it back restores the list. */
  method CutAndSplice<T>(list: Node<T>, head: Node<T>, entry: Node<T>, ghost c: seq<Node<T>>, ghost k: nat)
    requires Ring(c) && head == c[0] && k < |c| && entry == c[k] && list !in c
    requires |c| > 1 || Ring([list])
    modifies c, list
    ensures Ring(c)
  {
    ListCutPosition(list, head, entry, c, k);
    ghost var a, b := [list] + c[1..k + 1], [head] + c[k + 1..];
    ListSplice(list, head, a, b);
    assert [head] + a[1..] + b[1..] == c;
  }

  // ----- Rotation -----

  /** The list `c` with its first entry moved to the end. */
  function Rotated<A>(c: seq<A>): seq<A>
    requires |c| >= 1
  {
    if |c| == 1 then c else [c[0]] + c[2..] + [c[1]]
  }

  /** Moves an entry to the end of the list `e`, its own or another one. */
  method ListMoveTail<T>(list: Node<T>, head: Node<T>, ghost c: seq<Node<T>>, ghost k: nat, ghost e: seq<Node<T>>)
    requires Ring(c) && 0 < k < |c| && list == c[k] && Ring(e) && head == e[0] && (e == c || Apart(c, e))
    modifies c, e
    ensures if e == c then Ring(Removed(c, k) + [list]) else Ring(Removed(c, k)) && Ring(e + [list])
  {
    ghost var d := Removed(c, k);
    assert forall i :: 0 <= i < |d| ==> d[i] != list;
    ghost var target := if e == c then d else e;
    ListDelEntry(list, c, k);
    assert Ring(target) && list !in target && head == target[0];
    ListAddTail(list, head, target);
    assert e != c ==> Ring(d);
  }

  lemma RotatedIs<A>(c: seq<A>)
    requires |c| > 1
    ensures Removed(c, 1) + [c[1]] == Rotated(c)
  {}

  lemma RotatedMore<A>(c: seq<A>, i: nat)
    requires |c| >= 1 && i + 1 < |c|
    ensures Rotated([c[0]] + c[1 + i..] + c[1..1 + i]) == [c[0]] + c[2 + i..] + c[1..2 + i]
  {
    var u, v, x := c[2 + i..], c[1..1 + i], c[1 + i];
    assert c[1 + i..] == [x] + u && c[1..2 + i] == v + [x];
    var d := [c[0]] + ([x] + u) + v;
    assert |d| > 1 && d[1] == x && d[2..] == u + v;
    assert [c[0]] + (u + v) + [x] == [c[0]] + u + (v + [x]);
  }

  method ListRotateLeft<T>(head: Node<T>, ghost c: seq<Node<T>>)
    requires Ring(c) && head == c[0]
    modifies c
    ensures Ring(Rotated(c))
  {
    var empty := ListEmpty(head, c);
    if !empty {
      assert Linked(c[0], c[After(0, |c|)]);
      var first := head.next;
      RotatedIs(c);
      hide Rotated;
      ListMoveTail(first, head, c, 1, c);
    }
  }

  /** As many rotations as there are entries are none. */
  method RotateAround<T>(head: Node<T>, ghost c: seq<Node<T>>)
    requires Ring(c) && head == c[0]
    modifies c
    ensures Ring(c)
  {
    var n := GetListSize(head, c);
    ghost var d := c;
    assert c == [c[0]] + c[1..] + [];
    for i := 0 to n
      invariant d == [c[0]] + c[1 + i..] + c[1..1 + i] && Ring(d)
    {
      RotatedMore(c, i);
      hide Rotated;
      ListRotateLeft(head, d);
      d := Rotated(d);
    }
    assert d == c;
  }
}
