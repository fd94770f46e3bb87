/** The alarm service over whole runs: clients setting and cancelling alarms, the alarm device going
    off, and the service thread waiting, firing and calling listeners with the lock released. Each
    event is one section under the lock, or a step outside it. */
module AlarmRuns {
  import opened ListHead
  import opened AlarmQueue
  import opened AlarmManager

  /** A listener call, the clock reading that fired it, and which firing that was. */
  datatype Fired = Fired(alarm: Alarm, now: nat, round: nat)

  /** Waiting: in the wait for the device. Woken: the wait has returned. Calling: alarms still to be
      called back. */
  datatype Thread = Waiting | Woken | Calling(todo: seq<Alarm>, now: nat)

  datatype State = State(
    alarms: seq<Alarm>, device: Device, pending: bool, clock: nat, thread: Thread,
    // history, for stating properties only
    requested: multiset<Alarm>, dropped: multiset<Alarm>, fired: seq<Fired>, round: nat)

  datatype Event =
    | Set(a: Alarm)
    | Cancel(listener: int)
    | Clock(now: nat)         // the clock moves, or is set, to any value
    | GoOff                   // the device reaches its time
    | WaitReturns             // woken by the device, or by an error
    | Trigger
    | CallListener
    | CallsDone

  predicate Init(s: State) {
    && s.alarms == [] && s.device == Unarmed && !s.pending && s.thread == Waiting
    && s.requested == multiset{} && s.dropped == multiset{} && s.fired == [] && s.round == 0
  }

  predicate Enabled(s: State, e: Event) {
    match e
    case Set(a) => a.listener != 0
    case Cancel(_) => true
    case Clock(_) => true
    case GoOff => s.device.Armed? && s.device.at <= s.clock
    case WaitReturns => s.thread.Waiting?
    case Trigger => s.thread.Woken?
    case CallListener => s.thread.Calling? && s.thread.todo != []
    case CallsDone => s.thread.Calling? && s.thread.todo == []
  }

  function ArmFor(alarms: seq<Alarm>, device: Device): Device {
    if alarms != [] then Armed(ArmTime(alarms[0].when)) else device
  }

  function Next(s: State, e: Event): State
    requires Enabled(s, e)
  {
    match e
    case Set(a) =>
      var alarms := SetAlarm(s.alarms, a);
      s.(alarms := alarms,
         device := if alarms[0].when == a.when then Armed(ArmTime(a.when)) else s.device,
         requested := s.requested + multiset{a},
         dropped := s.dropped + (multiset(s.alarms) - multiset(Without(s.alarms, a.listener))))
    case Cancel(listener) =>
      s.(alarms := Without(s.alarms, listener),
         dropped := s.dropped + (multiset(s.alarms) - multiset(Without(s.alarms, listener))))
    case Clock(now) => s.(clock := now)
    case GoOff => s.(device := Unarmed, pending := true)
    case WaitReturns => s.(thread := Woken, pending := false)
    case Trigger =>
      s.(alarms := Later(s.alarms, s.clock),
         device := ArmFor(Later(s.alarms, s.clock), s.device),
         thread := Calling(Due(s.alarms, s.clock), s.clock),
         round := s.round + 1)
    case CallListener =>
      s.(thread := s.thread.(todo := s.thread.todo[1..]),
         fired := s.fired + [Fired(s.thread.todo[0], s.thread.now, s.round)])
    case CallsDone => s.(thread := Waiting)
  }

  predicate Run(states: seq<State>, events: seq<Event>) {
    && |states| == |events| + 1
    && Init(states[0])
    && forall k :: 0 <= k < |events| ==> Enabled(states[k], events[k]) && states[k + 1] == Next(states[k], events[k])
  }

  // ----- Invariants -----

  /** While an alarm is set, a wakeup is on its way: the device is armed for a time no later than the
      first alarm's, or has gone off, or the thread is about to look at the list. */
  predicate WakeupDue(s: State) {
    s.alarms != [] ==>
      s.pending || s.thread.Woken? || (s.device.Armed? && s.device.at <= s.alarms[0].when)
  }

  function Todo(t: Thread): seq<Alarm> {
    if t.Calling? then t.todo else []
  }

  function Alarms(fired: seq<Fired>): seq<Alarm> {
    seq(|fired|, i requires 0 <= i < |fired| => fired[i].alarm)
  }

  /** Each alarm set is in one place: in the list, about to be called, called, or dropped. */
  predicate Conserved(s: State) {
    s.requested == multiset(s.alarms) + multiset(Todo(s.thread)) + multiset(Alarms(s.fired)) + s.dropped
  }

  predicate NeverEarly(s: State) {
    && (s.thread.Calling? ==> forall a :: a in s.thread.todo ==> a.when <= s.thread.now)
    && forall i :: 0 <= i < |s.fired| ==> s.fired[i].alarm.when <= s.fired[i].now
  }

  /** The calls of one firing are made in the order of their times, and firings one after the other. */
  predicate Ascending(fired: seq<Fired>) {
    forall i, j :: 0 <= i < j < |fired| ==>
      fired[i].round < fired[j].round
      || (fired[i].round == fired[j].round && fired[i].alarm.when <= fired[j].alarm.when)
  }

  predicate InTurn(s: State) {
    && Ascending(s.fired) && (forall i :: 0 <= i < |s.fired| ==> s.fired[i].round <= s.round)
    && (s.thread.Calling? ==>
          && Sorted(s.thread.todo)
          && forall i, k :: 0 <= i < |s.fired| && 0 <= k < |s.thread.todo| && s.fired[i].round == s.round ==>
               s.fired[i].alarm.when <= s.thread.todo[k].when)
  }

  predicate Inv(s: State) {
    Ordered(s.alarms) && WakeupDue(s) && Conserved(s) && NeverEarly(s) && InTurn(s)
  }

  lemma SetHead(s: seq<Alarm>, a: Alarm)
    requires Ordered(s)
    ensures var r := SetAlarm(s, a);
      r != [] && r[0].when <= a.when && (r[0].when != a.when ==> s != [] && s[0].when <= r[0].when)
  {
    var w := Without(s, a.listener);
    WithoutMembers(s, a.listener);
    WithoutKeepsOrder(s, a.listener);
    PlaceSplits(w, a.when);
    if Place(w, a.when) > 0 {
      FirstIsLeast(s, w[0]);
    }
  }

  lemma FirstIsLeast(s: seq<Alarm>, a: Alarm)
    requires Ordered(s) && a in s
    ensures s[0].when <= a.when
  {}

  lemma KeepsWakeup(s: State, e: Event)
    requires Ordered(s.alarms) && WakeupDue(s) && Enabled(s, e)
    ensures WakeupDue(Next(s, e))
  {
    match e {
      case Set(a) =>
        SetHead(s.alarms, a);
        ArmedNoLater(a.when);
      case Cancel(listener) =>
        WithoutMembers(s.alarms, listener);
        var w := Without(s.alarms, listener);
        if w != [] {
          FirstIsLeast(s.alarms, w[0]);
        }
      case Trigger =>
        var later := Later(s.alarms, s.clock);
        if later != [] {
          ArmedNoLater(later[0].when);
        }
      case _ =>
    }
  }

  lemma KeepsOrdered(s: State, e: Event)
    requires Ordered(s.alarms) && Enabled(s, e)
    ensures Ordered(Next(s, e).alarms)
  {
    match e {
      case Set(a) => SetKeepsOrder(s.alarms, a);
      case Cancel(listener) => WithoutKeepsOrder(s.alarms, listener);
      case Trigger => FiringExact(s.alarms, s.clock);
      case _ =>
    }
  }

  lemma {:induction false} WithoutFewer(s: seq<Alarm>, listener: int)
    ensures multiset(Without(s, listener)) <= multiset(s)
  {
    if s != [] {
      WithoutFewer(s[..|s| - 1], listener);
      assert s == s[..|s| - 1] + [s[|s| - 1]];
    }
  }

  lemma Shuffle(a: multiset<Alarm>, w: multiset<Alarm>, x: multiset<Alarm>, t: multiset<Alarm>,
      f: multiset<Alarm>, d: multiset<Alarm>)
    requires w <= a
    ensures (a + t + f + d) + x == (w + x) + t + f + (d + (a - w))
  {}

  lemma SetConserves(s: State, a: Alarm)
    requires Conserved(s) && Enabled(s, Set(a))
    ensures Conserved(Next(s, Set(a)))
  {
    var w := Without(s.alarms, a.listener);
    WithoutFewer(s.alarms, a.listener);
    InsertedMembers(w, Place(w, a.when), a);
    hide Without, Place, Alarms;
    Shuffle(multiset(s.alarms), multiset(w), multiset{a}, multiset(Todo(s.thread)),
      multiset(Alarms(s.fired)), s.dropped);
  }

  lemma CancelConserves(s: State, listener: int)
    requires Conserved(s)
    ensures Conserved(Next(s, Cancel(listener)))
  {
    var w := Without(s.alarms, listener);
    WithoutFewer(s.alarms, listener);
    hide Without, Alarms;
    Shuffle(multiset(s.alarms), multiset(w), multiset{}, multiset(Todo(s.thread)),
      multiset(Alarms(s.fired)), s.dropped);
  }

  lemma TriggerConserves(s: State)
    requires Conserved(s) && Enabled(s, Trigger)
    ensures Conserved(Next(s, Trigger))
  {
    hide Place, Alarms;
    var due, later := Due(s.alarms, s.clock), Later(s.alarms, s.clock);
    assert s.alarms == due + later;
    assert multiset(s.alarms) == multiset(due) + multiset(later);
    assert multiset(Todo(s.thread)) == multiset{};
  }

  lemma KeepsConserved(s: State, e: Event)
    requires Conserved(s) && Enabled(s, e)
    ensures Conserved(Next(s, e))
  {
    match e {
      case Set(a) => SetConserves(s, a);
      case Cancel(listener) => CancelConserves(s, listener);
      case Trigger => TriggerConserves(s);
      case CallListener => CallConserves(s);
      case CallsDone =>
      case _ =>
    }
  }

  lemma CallConserves(s: State)
    requires Conserved(s) && Enabled(s, CallListener)
    ensures Conserved(Next(s, CallListener))
  {
    var t, a := s.thread.todo, s.thread.todo[0];
    var s' := Next(s, CallListener);
    assert t == [a] + t[1..];
    assert multiset(t) == multiset{a} + multiset(t[1..]);
    assert Alarms(s'.fired) == Alarms(s.fired) + [a];
  }

  lemma KeepsNeverEarly(s: State, e: Event)
    requires Ordered(s.alarms) && NeverEarly(s) && Enabled(s, e)
    ensures NeverEarly(Next(s, e))
  {
    if e.Trigger? {
      FiringExact(s.alarms, s.clock);
    }
  }

  lemma KeepsInTurn(s: State, e: Event)
    requires Ordered(s.alarms) && InTurn(s) && Enabled(s, e)
    ensures InTurn(Next(s, e))
  {
    if e.Trigger? {
      FiringExact(s.alarms, s.clock);
    }
  }

  lemma InvKept(s: State, e: Event)
    requires Inv(s) && Enabled(s, e)
    ensures Inv(Next(s, e))
  {
    KeepsWakeup(s, e);
    KeepsOrdered(s, e);
    KeepsConserved(s, e);
    KeepsNeverEarly(s, e);
    KeepsInTurn(s, e);
    hide Ordered, WakeupDue, Conserved, NeverEarly, InTurn;
  }

  lemma {:induction false} RunInv(states: seq<State>, events: seq<Event>, k: nat)
    requires Run(states, events) && k < |states|
    ensures Inv(states[k])
  {
    if k > 0 {
      RunInv(states, events, k - 1);
      InvKept(states[k - 1], events[k - 1]);
    }
  }

  // ----- Main results, for every state of every run -----

  /** The list is in order with one alarm per listener, and while it is not empty a wakeup is on its way
      in time for the first alarm, whatever was cancelled or replaced meanwhile. */
  lemma WakeupInTime(states: seq<State>, events: seq<Event>, k: nat)
    requires Run(states, events) && k < |states|
    ensures Ordered(states[k].alarms) && WakeupDue(states[k])
  {
    RunInv(states, events, k);
  }

  /** No alarm fires before its time, and none more often than it was set. */
  lemma FiresOnceAndNeverEarly(states: seq<State>, events: seq<Event>, k: nat, a: Alarm)
    requires Run(states, events) && k < |states|
    ensures multiset(Alarms(states[k].fired))[a] + multiset(states[k].alarms)[a] <= states[k].requested[a]
    ensures forall i :: 0 <= i < |states[k].fired| ==> states[k].fired[i].alarm.when <= states[k].fired[i].now
  {
    RunInv(states, events, k);
  }

  /** The listeners of one firing are called in the order of their alarms' times, before those of the next. */
  lemma CalledInOrder(states: seq<State>, events: seq<Event>, k: nat)
    requires Run(states, events) && k < |states|
    ensures Ascending(states[k].fired)
  {
    RunInv(states, events, k);
  }

  /** Every alarm ever set is still in the list, about to be called, has been called, or was cancelled or
      replaced. */
  lemma NoAlarmLost(states: seq<State>, events: seq<Event>, k: nat)
    requires Run(states, events) && k < |states|
    ensures var s := states[k];
      s.requested == multiset(s.alarms) + multiset(Todo(s.thread)) + multiset(Alarms(s.fired)) + s.dropped
  {
    RunInv(states, events, k);
  }

  // ----- The list refines a map -----

  /** What an event does to the map from listeners to times. */
  function MapNext(m: map<int, nat>, s: State, e: Event): map<int, nat> {
    match e
    case Set(a) => m[a.listener := a.when]
    case Cancel(listener) => m - {listener}
    case Trigger => map l | l in m && m[l] > s.clock :: m[l]
    case _ => m
  }

  function MapAfter(states: seq<State>, events: seq<Event>, k: nat): map<int, nat>
    requires k <= |events| && |states| == |events| + 1
  {
    if k == 0 then map[] else MapNext(MapAfter(states, events, k - 1), states[k - 1], events[k - 1])
  }

  lemma MapsKept(m: map<int, nat>, s: State, e: Event)
    requires Ordered(s.alarms) && Maps(s.alarms, m) && Enabled(s, e)
    ensures Maps(Next(s, e).alarms, MapNext(m, s, e))
  {
    match e {
      case Set(a) => SetIsUpdate(s.alarms, a, m);
      case Cancel(listener) => CancelIsRemoval(s.alarms, listener, m);
      case Trigger => FiringExact(s.alarms, s.clock);
      case _ =>
    }
  }

  /** After any run the list holds exactly the map that setting, cancelling and firing make. */
  lemma {:induction false} ListRefinesMap(states: seq<State>, events: seq<Event>, k: nat)
    requires Run(states, events) && k < |states|
    ensures Maps(states[k].alarms, MapAfter(states, events, k))
  {
    if k > 0 {
      ListRefinesMap(states, events, k - 1);
      RunInv(states, events, k - 1);
      MapsKept(MapAfter(states, events, k - 1), states[k - 1], events[k - 1]);
    }
  }
}
