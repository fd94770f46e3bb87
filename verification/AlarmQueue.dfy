/** The alarm queue as a value: what setting, cancelling and firing do to the sequence of alarms. */
module AlarmQueue {
  import opened ListHead

  datatype Alarm = Alarm(when: nat, listener: int)

  predicate Sorted(s: seq<Alarm>) {
    forall i, j :: 0 <= i < j < |s| ==> s[i].when <= s[j].when
  }

  predicate DistinctListeners(s: seq<Alarm>) {
    forall i, j :: 0 <= i < j < |s| ==> s[i].listener != s[j].listener
  }

  predicate Ordered(s: seq<Alarm>) {
    Sorted(s) && DistinctListeners(s)
  }

  /** How many leading alarms are due at `when` or earlier. */
  function Place(s: seq<Alarm>, when: nat): (p: nat)
    ensures p <= |s|
  {
    if s == [] || s[0].when > when then 0 else 1 + Place(s[1..], when)
  }

  function InsertSorted(s: seq<Alarm>, a: Alarm): seq<Alarm> {
    Inserted(s, Place(s, a.when), a)
  }

  function Without(s: seq<Alarm>, listener: int): seq<Alarm> {
    if s == [] then []
    else Without(s[..|s| - 1], listener) + if s[|s| - 1].listener == listener then [] else [s[|s| - 1]]
  }

  /** Set replaces the alarm of the listener, if any. */
  function SetAlarm(s: seq<Alarm>, a: Alarm): seq<Alarm> {
    InsertSorted(Without(s, a.listener), a)
  }

  function Due(s: seq<Alarm>, now: nat): seq<Alarm> {
    s[..Place(s, now)]
  }

  function Later(s: seq<Alarm>, now: nat): seq<Alarm> {
    s[Place(s, now)..]
  }

  lemma {:induction false} PlaceSplits(s: seq<Alarm>, when: nat)
    requires Sorted(s)
    ensures forall i :: 0 <= i < Place(s, when) ==> s[i].when <= when
    ensures forall i :: Place(s, when) <= i < |s| ==> s[i].when > when
  {
    if s != [] && s[0].when <= when {
      PlaceSplits(s[1..], when);
      assert forall i :: 1 <= i < |s| ==> s[i] == s[1..][i - 1];
    }
  }

  lemma {:induction false} PlaceIs(s: seq<Alarm>, when: nat, p: nat)
    requires p <= |s| && (forall i :: 0 <= i < p ==> s[i].when <= when) && (p < |s| ==> s[p].when > when)
    ensures Place(s, when) == p
  {
    if p > 0 {
      PlaceIs(s[1..], when, p - 1);
    }
  }

  /** Inserting keeps the order, and the new alarm goes behind its equals and before all later ones. */
  lemma InsertKeepsOrder(s: seq<Alarm>, a: Alarm)
    requires Sorted(s)
    ensures Sorted(InsertSorted(s, a))
    ensures var p := Place(s, a.when); forall i :: 0 <= i < |s| ==> (s[i].when <= a.when <==> i < p)
  {
    PlaceSplits(s, a.when);
    InsertAtKeepsSorted(s, Place(s, a.when), a);
  }

  lemma InsertAtKeepsSorted(s: seq<Alarm>, k: nat, a: Alarm)
    requires k <= |s| && Sorted(s)
    requires forall i :: 0 <= i < k ==> s[i].when <= a.when
    requires forall i :: k <= i < |s| ==> a.when <= s[i].when
    ensures Sorted(Inserted(s, k, a))
  {
    var r := Inserted(s, k, a);
    assert forall i :: 0 <= i < |r| ==> r[i] == if i < k then s[i] else if i == k then a else s[i - 1];
  }

  // ----- Cancelling -----

  lemma {:induction false} WithoutMembers(s: seq<Alarm>, listener: int)
    ensures forall a :: a in Without(s, listener) <==> a in s && a.listener != listener
    ensures |Without(s, listener)| <= |s|
  {
    if s != [] {
      WithoutMembers(s[..|s| - 1], listener);
      assert s == s[..|s| - 1] + [s[|s| - 1]];
    }
  }

  lemma AppendKeepsOrder(s: seq<Alarm>, x: Alarm)
    requires Ordered(s) && forall i :: 0 <= i < |s| ==> s[i].when <= x.when && s[i].listener != x.listener
    ensures Ordered(s + [x])
  {}

  lemma {:induction false} WithoutKeepsOrder(s: seq<Alarm>, listener: int)
    requires Ordered(s)
    ensures Ordered(Without(s, listener))
  {
    if s != [] {
      var t, x := s[..|s| - 1], s[|s| - 1];
      var w := Without(t, listener);
      assert Without(s, listener) == w + if x.listener == listener then [] else [x];
      hide Without;
      WithoutKeepsOrder(t, listener);
      WithoutMembers(t, listener);
      forall i | 0 <= i < |w|
        ensures w[i].when <= x.when && w[i].listener != x.listener
      {
        assert w[i] in t;
      }
      AppendKeepsOrder(w, x);
      assert w + [] == w;
      hide Ordered;
    }
  }

  lemma DropKeepsOrder(s: seq<Alarm>)
    requires Ordered(s) && s != []
    ensures Ordered(s[1..])
  {}

  lemma SetKeepsOrder(s: seq<Alarm>, a: Alarm)
    requires Ordered(s)
    ensures Ordered(SetAlarm(s, a))
  {
    var w := Without(s, a.listener);
    WithoutKeepsOrder(s, a.listener);
    WithoutMembers(s, a.listener);
    InsertKeepsOrder(w, a);
    assert forall i :: 0 <= i < |w| ==> w[i].listener != a.listener by {
      assert forall i :: 0 <= i < |w| ==> w[i] in w;
    }
    InsertKeepsDistinct(w, Place(w, a.when), a);
  }

  lemma InsertKeepsDistinct(s: seq<Alarm>, k: nat, a: Alarm)
    requires k <= |s| && DistinctListeners(s) && forall i :: 0 <= i < |s| ==> s[i].listener != a.listener
    ensures DistinctListeners(Inserted(s, k, a))
  {
    var r := Inserted(s, k, a);
    assert forall i :: 0 <= i < |r| ==> r[i] == if i < k then s[i] else if i == k then a else s[i - 1];
  }

  // ----- The queue is a map from listeners to times -----

  ghost predicate Maps(s: seq<Alarm>, m: map<int, nat>) {
    && (forall a :: a in s ==> a.listener in m && m[a.listener] == a.when)
    && (forall l :: l in m ==> Alarm(m[l], l) in s)
  }

  /** Set is map update. */
  lemma SetIsUpdate(s: seq<Alarm>, a: Alarm, m: map<int, nat>)
    requires Maps(s, m)
    ensures Maps(SetAlarm(s, a), m[a.listener := a.when])
  {
    WithoutMembers(s, a.listener);
    var w := Without(s, a.listener);
    InsertedMembers(w, Place(w, a.when), a);
    hide Without, Place, Inserted;
    MapsUpdated(s, w, SetAlarm(s, a), a, m);
  }

  lemma MapsUpdated(s: seq<Alarm>, w: seq<Alarm>, r: seq<Alarm>, a: Alarm, m: map<int, nat>)
    requires Maps(s, m)
    requires forall x :: x in w <==> x in s && x.listener != a.listener
    requires forall x :: x in r <==> x in w || x == a
    ensures Maps(r, m[a.listener := a.when])
  {
    var m' := m[a.listener := a.when];
    forall l | l in m'
      ensures Alarm(m'[l], l) in r
    {
      if l == a.listener {
        assert Alarm(m'[l], l) == a;
      } else {
        assert Alarm(m[l], l) in s;
      }
    }
  }

  /** Cancel is map removal. */
  lemma CancelIsRemoval(s: seq<Alarm>, listener: int, m: map<int, nat>)
    requires Maps(s, m)
    ensures Maps(Without(s, listener), m - {listener})
  {
    WithoutMembers(s, listener);
  }

  lemma InsertedMembers(s: seq<Alarm>, k: nat, a: Alarm)
    requires k <= |s|
    ensures forall x :: x in Inserted(s, k, a) <==> x in s || x == a
    ensures multiset(Inserted(s, k, a)) == multiset(s) + multiset{a}
  {
    assert s == s[..k] + s[k..];
  }

  // ----- Firing -----

  /** Firing takes out exactly the alarms that are due, in ascending order, and keeps exactly the others,
      still in order. */
  lemma FiringExact(s: seq<Alarm>, now: nat)
    requires Ordered(s)
    ensures Due(s, now) + Later(s, now) == s
    ensures forall a :: a in Due(s, now) <==> a in s && a.when <= now
    ensures forall a :: a in Later(s, now) <==> a in s && a.when > now
    ensures Ordered(Due(s, now)) && Ordered(Later(s, now))
  {
    PlaceSplits(s, now);
    var p := Place(s, now);
    assert s == s[..p] + s[p..];
  }

  // ----- The alarm device -----

  function Wrap32(x: int): (r: int)
    ensures -0x8000_0000 <= r < 0x8000_0000
  {
    (x + 0x8000_0000) % 0x1_0000_0000 - 0x8000_0000
  }

  /** The time in milliseconds the device is armed for: the seconds pass through a 32-bit int. */
  function ArmTime(when: nat): int {
    Wrap32(when / 1000) * 1000 + when % 1000
  }

  /** Truncation can only make the device go off too early. */
  lemma ArmedNoLater(when: nat)
    ensures ArmTime(when) <= when
    ensures ArmTime(when) == when <==> when / 1000 < 0x8000_0000
  {}
}
