/** The thread pool as a system of interleaved steps: any number of workers and of client threads
    calling the pool's operations, one mutex, one condition variable with spurious wakeups. A step is
    one source statement, or a call's way in or out. */
module ThreadPool {

  /** A queued thread_work, identified by the address it was allocated at. */
  type Work = int

  datatype Owner = Free | ByWorker(i: nat) | ByClient(c: nat)

  /** Where a worker is in thread_routine. */
  datatype WorkerPc =
    | Locking            // about to lock the queue
    | Testing            // the while condition
    | ExitTest           // testing the exit flag
    | Sleeping           // in pthread_cond_wait, the mutex released
    | Waking             // woken, to get the mutex back
    | Taking             // list_first_entry_or_null and list_del
    | Took(w: Work)      // the entry is off the list, not yet off the count
    | Unlocking(w: Work)
    | UnlockingEmpty     // the branch for an empty list
    | Running(w: Work)   // the routine
    | Notifying(w: Work) // the async callback
    | Freeing(w: Work)
    | UnlockingExit
    | Exited

  datatype Flagging = Start | Stop | Destroy

  datatype Operation = Add(w: Work) | Change(f: Flagging)

  /** The statements of thread_pool_add_work under the mutex. */
  datatype AddLine = Link | Count | Signal

  /** The statements of start, stop and destroy under the mutex; only destroy sets the exit flag. */
  datatype FlagLine = StopFlag | ExitFlag | Broadcast

  /** Where a client is in an operation of the pool. */
  datatype ClientPc =
    | Outside
    | DestroyTest             // the test of the exit flag, without the mutex
    | AtLock(op: Operation)
    | InAdd(w: Work, add: AddLine)
    | InFlags(f: Flagging, line: FlagLine)
    | AtUnlock(op: Operation)
    | Joining(n: nat)         // threads n - 1, ..., 0 still to be joined
    | Draining
    | Destroyed

  datatype State = State(
    workers: seq<WorkerPc>, clients: seq<ClientPc>, owner: Owner,
    stop: bool, exit: bool, queue: seq<Work>, size: nat, freed: bool,
    // history, for stating properties only
    added: seq<Work>, taken: seq<Work>, ran: seq<Work>, notified: seq<Work>, finished: multiset<Work>,
    drained: seq<Work>, asked: map<nat, Operation>)

  datatype Event =
    | WorkerStep(i: nat)
    | SpuriousWake(i: nat)
    | Call(c: nat, op: Operation)
    | ClientStep(c: nat, woken: set<nat>)

  // ----- Workers -----

  predicate WorkerHolds(pc: WorkerPc) {
    pc.Testing? || pc.ExitTest? || pc.Taking? || pc.Took? || pc.Unlocking? || pc.UnlockingEmpty? || pc.UnlockingExit?
  }

  predicate WorkerEnabled(s: State, i: nat) {
    && i < |s.workers|
    && !s.workers[i].Sleeping? && !s.workers[i].Exited?
    && (s.workers[i].Locking? || s.workers[i].Waking? ==> s.owner.Free?)
  }

  /** Where worker `i` goes from its statement. */
  function WorkerGoes(s: State, i: nat): WorkerPc
    requires WorkerEnabled(s, i)
  {
    match s.workers[i]
    case Locking => Testing
    case Testing => if s.stop || s.size == 0 then ExitTest else Taking
    case ExitTest => if s.exit then UnlockingExit else Sleeping
    case Waking => Testing
    case Taking => if s.queue != [] then Took(s.queue[0]) else UnlockingEmpty
    case Took(w) => Unlocking(w)
    case Unlocking(w) => Running(w)
    case UnlockingEmpty => Locking
    case Running(w) => Notifying(w)
    case Notifying(w) => Freeing(w)
    case Freeing(_) => Locking
    case UnlockingExit => Exited
  }

  /** The next statement of worker `i`. The counter is an unsigned 32-bit word. */
  function WorkerNext(s: State, i: nat): State
    requires WorkerEnabled(s, i)
  {
    var t := Set(s, i, WorkerGoes(s, i));
    match s.workers[i]
    case Locking => t.(owner := ByWorker(i))
    case ExitTest => if s.exit then t else t.(owner := Free)
    case Waking => t.(owner := ByWorker(i))
    case Taking => if s.queue != [] then t.(queue := s.queue[1..], taken := s.taken + [s.queue[0]]) else t
    case Took(_) => t.(size := if s.size == 0 then 0xFFFF_FFFF else s.size - 1)
    case Unlocking(_) => t.(owner := Free)
    case UnlockingEmpty => t.(owner := Free)
    case Running(w) => t.(ran := s.ran + [w])
    case Notifying(w) => t.(notified := s.notified + [w])
    case Freeing(w) => t.(finished := s.finished + multiset{w})
    case UnlockingExit => t.(owner := Free)
    case _ => t
  }

  function Set(s: State, i: nat, pc: WorkerPc): State
    requires i < |s.workers|
  {
    s.(workers := s.workers[i := pc])
  }

  function Wake(ws: seq<WorkerPc>, woken: set<nat>): (r: seq<WorkerPc>)
    ensures |r| == |ws|
  {
    seq(|ws|, i requires 0 <= i < |ws| => if i in woken && ws[i].Sleeping? then Waking else ws[i])
  }

  /** pthread_cond_signal wakes at least one sleeper if there is one. */
  predicate Signalled(ws: seq<WorkerPc>, woken: set<nat>) {
    (exists i :: 0 <= i < |ws| && ws[i].Sleeping?) ==> exists i :: 0 <= i < |ws| && ws[i].Sleeping? && i in woken
  }

  predicate BroadcastTo(ws: seq<WorkerPc>, woken: set<nat>) {
    forall i :: 0 <= i < |ws| && ws[i].Sleeping? ==> i in woken
  }

  // ----- Clients -----

  predicate ClientHolds(pc: ClientPc) {
    pc.InAdd? || pc.InFlags? || pc.AtUnlock?
  }

  predicate InDestroy(pc: ClientPc) {
    || pc.DestroyTest? || pc.Joining? || pc.Draining?
    || pc == AtLock(Change(Destroy)) || pc == AtUnlock(Change(Destroy))
    || (pc.InFlags? && pc.f.Destroy?)
  }

  /** What the callers owe: nobody uses the pool once it is being drained or freed, and two threads do
      not destroy it at the same time. */
  predicate CallEnabled(s: State, c: nat, op: Operation) {
    && c < |s.clients| && s.clients[c].Outside? && !s.freed
    && (forall j :: 0 <= j < |s.clients| ==> !s.clients[j].Draining?)
    && (op == Change(Destroy) ==> forall j :: 0 <= j < |s.clients| ==> !InDestroy(s.clients[j]))
  }

  function Put(s: State, c: nat, pc: ClientPc): State
    requires c < |s.clients|
  {
    s.(clients := s.clients[c := pc])
  }

  function CallNext(s: State, c: nat, op: Operation): State
    requires CallEnabled(s, c, op)
  {
    Put(s, c, if op == Change(Destroy) then DestroyTest else AtLock(op)).(asked := s.asked[c := op])
  }

  predicate OthersOutside(s: State, c: nat) {
    forall j :: 0 <= j < |s.clients| && j != c ==> s.clients[j].Outside?
  }

  predicate ClientEnabled(s: State, c: nat, woken: set<nat>) {
    && c < |s.clients|
    && match s.clients[c]
       case Outside => false
       case Destroyed => false
       case AtLock(_) => s.owner.Free?
       case InAdd(_, line) => line.Signal? && !s.stop ==> Signalled(s.workers, woken)
       case InFlags(_, line) => line.Broadcast? ==> BroadcastTo(s.workers, woken)
       case Joining(n) => if n == 0 then OthersOutside(s, c) else n <= |s.workers| && s.workers[n - 1].Exited?
       case _ => true
  }

  /** Where client `c` goes from its statement. */
  function ClientGoes(s: State, c: nat): ClientPc
    requires c < |s.clients|
  {
    match s.clients[c]
    case DestroyTest => if s.exit then Outside else AtLock(Change(Destroy))
    case AtLock(op) => if op.Add? then InAdd(op.w, Link) else InFlags(op.f, StopFlag)
    case InAdd(w, Link) => InAdd(w, Count)
    case InAdd(w, Count) => InAdd(w, Signal)
    case InAdd(w, Signal) => AtUnlock(Add(w))
    case InFlags(f, StopFlag) => InFlags(f, if f.Destroy? then ExitFlag else Broadcast)
    case InFlags(f, ExitFlag) => InFlags(f, Broadcast)
    case InFlags(f, Broadcast) => AtUnlock(Change(f))
    case AtUnlock(op) => if op == Change(Destroy) then Joining(|s.workers|) else Outside
    case Joining(n) => if n == 0 then Draining else Joining(n - 1)
    case Draining => if s.queue != [] then Draining else Destroyed
    case pc => pc
  }

  function AddEffect(t: State, w: Work, line: AddLine, woken: set<nat>): State {
    match line
    case Link => t.(queue := t.queue + [w], added := t.added + [w])
    case Count => t.(size := t.size + 1)
    case Signal => t.(workers := if t.stop then t.workers else Wake(t.workers, woken))
  }

  function FlagEffect(t: State, f: Flagging, line: FlagLine, woken: set<nat>): State {
    match line
    case StopFlag => t.(stop := !f.Start?)
    case ExitFlag => t.(exit := true)
    case Broadcast => t.(workers := Wake(t.workers, woken))
  }

  function DrainEffect(t: State): State {
    if t.queue != [] then
      t.(queue := t.queue[1..], drained := t.drained + [t.queue[0]],
         size := if t.size == 0 then 0xFFFF_FFFF else t.size - 1)
    else t.(freed := true)
  }

  /** The next statement of client `c`; `woken` are the threads a signal or broadcast wakes. */
  function ClientNext(s: State, c: nat, woken: set<nat>): State
    requires ClientEnabled(s, c, woken)
  {
    var t := Put(s, c, ClientGoes(s, c));
    match s.clients[c]
    case AtLock(_) => t.(owner := ByClient(c))
    case InAdd(w, line) => AddEffect(t, w, line, woken)
    case InFlags(f, line) => FlagEffect(t, f, line, woken)
    case AtUnlock(_) => t.(owner := Free)
    case Draining => DrainEffect(t)
    case _ => t
  }

  // ----- Runs -----

  predicate Init(s: State) {
    && (forall i :: 0 <= i < |s.workers| ==> s.workers[i].Locking?)
    && (forall c :: 0 <= c < |s.clients| ==> s.clients[c].Outside?)
    && s.owner.Free? && s.stop && !s.exit && s.queue == [] && s.size == 0 && !s.freed
    && s.added == [] && s.taken == [] && s.ran == [] && s.notified == []
    && s.finished == multiset{} && s.drained == []
  }

  predicate Enabled(s: State, e: Event) {
    match e
    case WorkerStep(i) => WorkerEnabled(s, i)
    case SpuriousWake(i) => i < |s.workers| && s.workers[i].Sleeping?
    case Call(c, op) => CallEnabled(s, c, op)
    case ClientStep(c, woken) => ClientEnabled(s, c, woken)
  }

  function Next(s: State, e: Event): State
    requires Enabled(s, e)
  {
    match e
    case WorkerStep(i) => WorkerNext(s, i)
    case SpuriousWake(i) => Set(s, i, Waking)
    case Call(c, op) => CallNext(s, c, op)
    case ClientStep(c, woken) => ClientNext(s, c, woken)
  }

  /** Each state follows from the one before by an enabled event. */
  predicate Stepwise(states: seq<State>, events: seq<Event>) {
    && |states| == |events| + 1
    && forall k :: 0 <= k < |events| ==> Enabled(states[k], events[k]) && states[k + 1] == Next(states[k], events[k])
  }

  /** The states of a run. */
  predicate Run(states: seq<State>, events: seq<Event>) {
    Stepwise(states, events) && Init(states[0])
  }

  // ----- Invariants -----

  /** The mutex excludes: whoever is in a critical section owns it, and the owner is in one. */
  predicate Locks(s: State) {
    && (forall i :: 0 <= i < |s.workers| && WorkerHolds(s.workers[i]) ==> s.owner == ByWorker(i))
    && (forall c :: 0 <= c < |s.clients| && ClientHolds(s.clients[c]) ==> s.owner == ByClient(c))
    && (s.owner.ByWorker? ==> s.owner.i < |s.workers| && WorkerHolds(s.workers[s.owner.i]))
    && (s.owner.ByClient? ==> s.owner.c < |s.clients| && ClientHolds(s.clients[s.owner.c]))
  }

  predicate OwnerTook(s: State) {
    s.owner.ByWorker? && s.owner.i < |s.workers| && s.workers[s.owner.i].Took?
  }

  /** Where the client owning the mutex is. */
  function OwnerPc(s: State): ClientPc {
    if s.owner.ByClient? && s.owner.c < |s.clients| then s.clients[s.owner.c] else Outside
  }

  /** A work is on the list and its signal has not been sent. */
  predicate SignalDue(s: State) {
    OwnerPc(s).InAdd? && !OwnerPc(s).add.Link?
  }

  predicate CountDue(s: State) {
    OwnerPc(s).InAdd? && OwnerPc(s).add.Count?
  }

  predicate BroadcastDue(s: State, f: Flagging) {
    OwnerPc(s) == InFlags(f, Broadcast)
  }

  /** The counter is the length of the list, except between the two writes of an operation. */
  predicate Counted(s: State) {
    if CountDue(s) then s.size + 1 == |s.queue|
    else if OwnerTook(s) then s.size == |s.queue| + 1
    else s.size == |s.queue|
  }

  /** What a worker knows from the tests it has passed while holding the mutex. */
  predicate Guarded(s: State) {
    forall i :: 0 <= i < |s.workers| ==>
      && !s.workers[i].UnlockingEmpty?
      && (s.workers[i].ExitTest? ==> s.stop || s.size == 0)
      && (s.workers[i].Taking? ==> !s.stop && s.size > 0)
      && (s.workers[i].UnlockingExit? || s.workers[i].Exited? ==> s.exit)
  }

  predicate AllExited(s: State) {
    forall i :: 0 <= i < |s.workers| ==> s.workers[i].Exited?
  }

  /** How far a destruction has come. */
  predicate Shutdown(s: State, c: nat)
    requires c < |s.clients|
  {
    match s.clients[c]
    case InFlags(f, line) => (line.ExitFlag? ==> f.Destroy?) && (f.Destroy? && line.Broadcast? ==> s.exit)
    case AtUnlock(op) => op == Change(Destroy) ==> s.exit
    case Joining(n) => s.exit && forall i :: n <= i < |s.workers| ==> s.workers[i].Exited?
    case Draining => s.exit && AllExited(s) && OthersOutside(s, c) && s.owner.Free? && !s.freed
    case _ => true
  }

  predicate NobodyInside(s: State) {
    forall c :: 0 <= c < |s.clients| ==> s.clients[c].Outside? || s.clients[c].Destroyed?
  }

  predicate Drained(s: State) {
    && (forall c :: 0 <= c < |s.clients| ==> Shutdown(s, c))
    && (s.drained != [] || s.freed ==> AllExited(s) && s.exit)
    && (s.freed ==> s.queue == [] && s.owner.Free? && NobodyInside(s))
  }

  predicate Asleep(s: State) {
    exists i :: 0 <= i < |s.workers| && s.workers[i].Sleeping?
  }

  /** Once the exit flag is set and its broadcast is out, nobody sleeps. */
  predicate Roused(s: State) {
    s.exit && !BroadcastDue(s, Destroy) ==> !Asleep(s)
  }

  /** Not asleep, not carrying a work and not on the way out. */
  predicate IsAwake(pc: WorkerPc) {
    pc.Locking? || pc.Testing? || pc.ExitTest? || pc.Waking? || pc.Taking? || pc.UnlockingEmpty?
  }

  function Awake(ws: seq<WorkerPc>): nat {
    if ws == [] then 0 else Awake(ws[..|ws| - 1]) + if IsAwake(ws[|ws| - 1]) then 1 else 0
  }

  /** No wakeup is lost: while the pool is running and somebody sleeps, every queued work has an
      awake worker to take it, up to the one whose signal is still to come. */
  predicate Conserved(s: State) {
    !s.stop && !s.exit && Asleep(s) && !BroadcastDue(s, Start) ==>
      |s.queue| <= Awake(s.workers) + if SignalDue(s) then 1 else 0
  }

  /** What a work goes through after it was added: off the list, its routine run, its callback called. */
  datatype Phase = Dequeued | Executed | Announced

  /** The work a worker has in hand, if it is through the phase. */
  function Load(pc: WorkerPc, p: Phase): multiset<Work> {
    match pc
    case Took(w) => if p.Dequeued? then multiset{w} else multiset{}
    case Unlocking(w) => if p.Dequeued? then multiset{w} else multiset{}
    case Running(w) => if p.Dequeued? then multiset{w} else multiset{}
    case Notifying(w) => if p.Announced? then multiset{} else multiset{w}
    case Freeing(w) => multiset{w}
    case _ => multiset{}
  }

  /** The works the workers have in hand that are through the phase. */
  function Carried(ws: seq<WorkerPc>, p: Phase): multiset<Work> {
    if ws == [] then multiset{} else Carried(ws[..|ws| - 1], p) + Load(ws[|ws| - 1], p)
  }

  /** The works that have been through the phase, in order. */
  function History(s: State, p: Phase): seq<Work> {
    match p
    case Dequeued => s.taken
    case Executed => s.ran
    case Announced => s.notified
  }

  /** Works leave the list in the order they were added, and none is lost or doubled. */
  predicate Ordered(s: State) {
    s.added == s.taken + s.drained + s.queue
  }

  /** Every work that has been through the phase has been so once, and is in one worker's hands or finished. */
  predicate HandedAt(s: State, p: Phase) {
    multiset(History(s, p)) == Carried(s.workers, p) + s.finished
  }

  predicate Handed(s: State) {
    HandedAt(s, Dequeued) && HandedAt(s, Executed) && HandedAt(s, Announced)
  }

  /** The work added last. */
  predicate JustAdded(s: State, w: Work) {
    s.added != [] && s.added[|s.added| - 1] == w
  }

  /** What an operation is for has happened: under the mutex it stays so. */
  predicate Effected(s: State, op: Operation) {
    match op
    case Add(w) => JustAdded(s, w)
    case Change(Start) => !s.stop
    case Change(Stop) => s.stop
    case Change(Destroy) => s.stop
  }

  /** The client is carrying out the operation it was called for, and what it has done so far is there. */
  predicate Doing(s: State, c: nat)
    requires c < |s.clients|
  {
    match s.clients[c]
    case Outside => true
    case Destroyed => true
    case AtLock(op) => c in s.asked && s.asked[c] == op
    case InAdd(w, line) => c in s.asked && s.asked[c] == Add(w) && (!line.Link? ==> JustAdded(s, w))
    case InFlags(f, line) => c in s.asked && s.asked[c] == Change(f) && (!line.StopFlag? ==> Effected(s, Change(f)))
    case AtUnlock(op) => c in s.asked && s.asked[c] == op && Effected(s, op)
    case _ => c in s.asked && s.asked[c] == Change(Destroy)
  }

  predicate Obedient(s: State) {
    forall c :: 0 <= c < |s.clients| ==> Doing(s, c)
  }

  predicate Inv(s: State) {
    && Locks(s) && Counted(s) && Guarded(s) && Drained(s) && Roused(s) && Conserved(s) && Ordered(s) && Handed(s)
    && Obedient(s)
  }

  lemma InitInv(s: State)
    requires Init(s)
    ensures Inv(s)
  {
    NothingCarried(s.workers, Dequeued);
    NothingCarried(s.workers, Executed);
    NothingCarried(s.workers, Announced);
  }

  lemma {:induction false} NothingCarried(ws: seq<WorkerPc>, p: Phase)
    requires forall i :: 0 <= i < |ws| ==> Load(ws[i], p) == multiset{}
    ensures Carried(ws, p) == multiset{}
  {
    if ws != [] {
      NothingCarried(ws[..|ws| - 1], p);
    }
  }

  lemma {:induction false} AwakeUpdate(ws: seq<WorkerPc>, i: nat, pc: WorkerPc)
    requires i < |ws|
    ensures Awake(ws[i := pc]) + (if IsAwake(ws[i]) then 1 else 0) == Awake(ws) + if IsAwake(pc) then 1 else 0
  {
    var n := |ws| - 1;
    if i == n {
      assert ws[i := pc][..n] == ws[..n];
    } else {
      assert ws[i := pc][..n] == ws[..n][i := pc];
      AwakeUpdate(ws[..n], i, pc);
    }
  }

  lemma Alongside(a: multiset<Work>, x: multiset<Work>, b: multiset<Work>, y: multiset<Work>, l: multiset<Work>)
    requires a + x == b + y
    ensures (a + l) + x == (b + l) + y
  {
    assert (a + l) + x == (a + x) + l && (b + l) + y == (b + y) + l;
  }

  lemma {:induction false} CarriedUpdate(ws: seq<WorkerPc>, i: nat, pc: WorkerPc, p: Phase)
    requires i < |ws|
    ensures Carried(ws[i := pc], p) + Load(ws[i], p) == Carried(ws, p) + Load(pc, p)
  {
    hide Load;
    var n := |ws| - 1;
    if i == n {
      assert ws[i := pc][..n] == ws[..n];
      assert (Carried(ws[..n], p) + Load(pc, p)) + Load(ws[n], p)
          == (Carried(ws[..n], p) + Load(ws[n], p)) + Load(pc, p);
    } else {
      assert ws[i := pc][..n] == ws[..n][i := pc];
      CarriedUpdate(ws[..n], i, pc, p);
      Alongside(Carried(ws[..n][i := pc], p), Load(ws[i], p), Carried(ws[..n], p), Load(pc, p), Load(ws[n], p));
    }
  }

  lemma CarriedSame(ws: seq<WorkerPc>, i: nat, pc: WorkerPc, p: Phase)
    requires i < |ws| && Load(ws[i], p) == Load(pc, p)
    ensures Carried(ws[i := pc], p) == Carried(ws, p)
  {
    CarriedUpdate(ws, i, pc, p);
    var a, b, l := Carried(ws[i := pc], p), Carried(ws, p), Load(pc, p);
    assert a == (a + l) - l && b == (b + l) - l;
  }

  lemma CarriedMore(ws: seq<WorkerPc>, i: nat, pc: WorkerPc, p: Phase)
    requires i < |ws| && Load(ws[i], p) == multiset{}
    ensures Carried(ws[i := pc], p) == Carried(ws, p) + Load(pc, p)
  {
    CarriedUpdate(ws, i, pc, p);
    assert Carried(ws[i := pc], p) + multiset{} == Carried(ws[i := pc], p);
  }

  lemma CarriedLess(ws: seq<WorkerPc>, i: nat, pc: WorkerPc, p: Phase)
    requires i < |ws| && Load(pc, p) == multiset{}
    ensures Carried(ws, p) == Carried(ws[i := pc], p) + Load(ws[i], p)
  {
    CarriedUpdate(ws, i, pc, p);
    assert Carried(ws, p) + multiset{} == Carried(ws, p);
  }

  lemma WakePrefix(ws: seq<WorkerPc>, woken: set<nat>)
    requires ws != []
    ensures var n, v := |ws| - 1, Wake(ws, woken);
      && v[..n] == Wake(ws[..n], woken)
      && v[n] == if n in woken && ws[n].Sleeping? then Waking else ws[n]
  {}

  lemma {:induction false} WakeCarries(ws: seq<WorkerPc>, woken: set<nat>, p: Phase)
    ensures Carried(Wake(ws, woken), p) == Carried(ws, p)
  {
    if ws != [] {
      WakePrefix(ws, woken);
      WakeCarries(ws[..|ws| - 1], woken, p);
      hide Wake;
    }
  }

  lemma {:induction false} WakeCounts(ws: seq<WorkerPc>, woken: set<nat>)
    ensures Awake(Wake(ws, woken)) >= Awake(ws)
  {
    if ws != [] {
      WakePrefix(ws, woken);
      WakeCounts(ws[..|ws| - 1], woken);
      hide Wake;
    }
  }

  lemma {:induction false} WakeOne(ws: seq<WorkerPc>, woken: set<nat>, i: nat)
    requires i < |ws| && ws[i].Sleeping? && i in woken
    ensures Awake(Wake(ws, woken)) > Awake(ws)
  {
    var n := |ws| - 1;
    WakePrefix(ws, woken);
    hide Wake;
    if i < n {
      WakeOne(ws[..n], woken, i);
    } else {
      WakeCounts(ws[..n], woken);
    }
  }

  // ----- Workers keep the invariants -----

  lemma WorkerLocks(s: State, s': State, i: nat, pc: WorkerPc)
    requires Locks(s) && i < |s.workers| && s'.workers == s.workers[i := pc] && s'.clients == s.clients
    requires if WorkerHolds(s.workers[i]) then s'.owner == (if WorkerHolds(pc) then s.owner else Free)
             else if WorkerHolds(pc) then s.owner.Free? && s'.owner == ByWorker(i)
             else s'.owner == s.owner
    ensures Locks(s')
  {}

  /** What a worker's step leaves alone. */
  lemma WorkerChanges(s: State, i: nat)
    requires WorkerEnabled(s, i)
    ensures var s', pc := WorkerNext(s, i), s.workers[i];
      && s'.workers == s.workers[i := WorkerGoes(s, i)] && s'.clients == s.clients
      && s'.stop == s.stop && s'.exit == s.exit && s'.freed == s.freed
      && s'.added == s.added && s'.drained == s.drained && s'.asked == s.asked
      && (!pc.Taking? ==> s'.queue == s.queue && s'.taken == s.taken)
      && (!pc.Took? ==> s'.size == s.size)
      && (!pc.Running? ==> s'.ran == s.ran)
      && (!pc.Notifying? ==> s'.notified == s.notified)
      && (!pc.Freeing? ==> s'.finished == s.finished)
  {
    WorkerChangesWorkers(s, i);
    WorkerChangesWork(s, i);
    WorkerChangesHistory(s, i);
    hide WorkerGoes, WorkerNext;
  }

  lemma WorkerChangesWorkers(s: State, i: nat)
    requires WorkerEnabled(s, i)
    ensures var s' := WorkerNext(s, i);
      && s'.workers == s.workers[i := WorkerGoes(s, i)] && s'.clients == s.clients
      && s'.stop == s.stop && s'.exit == s.exit && s'.freed == s.freed
  {
    hide WorkerGoes;
    match s.workers[i] {
      case Locking =>
      case Testing =>
      case ExitTest =>
      case Waking =>
      case Taking =>
      case Took(_) =>
      case Unlocking(_) =>
      case Running(_) =>
      case Notifying(_) =>
      case Freeing(_) =>
      case _ =>
    }
  }

  lemma WorkerChangesHistory(s: State, i: nat)
    requires WorkerEnabled(s, i)
    ensures var s', pc := WorkerNext(s, i), s.workers[i];
      && s'.added == s.added && s'.drained == s.drained && s'.asked == s.asked
      && (!pc.Running? ==> s'.ran == s.ran)
      && (!pc.Notifying? ==> s'.notified == s.notified)
  {
    hide WorkerGoes;
    match s.workers[i] {
      case Locking =>
      case Testing =>
      case ExitTest =>
      case Waking =>
      case Taking =>
      case Took(_) =>
      case Unlocking(_) =>
      case Running(_) =>
      case Notifying(_) =>
      case Freeing(_) =>
      case _ =>
    }
  }

  lemma WorkerChangesWork(s: State, i: nat)
    requires WorkerEnabled(s, i)
    ensures var s', pc := WorkerNext(s, i), s.workers[i];
      && (!pc.Taking? ==> s'.queue == s.queue && s'.taken == s.taken)
      && (!pc.Took? ==> s'.size == s.size)
      && (!pc.Freeing? ==> s'.finished == s.finished)
  {
    hide WorkerGoes;
    match s.workers[i] {
      case Locking =>
      case Testing =>
      case ExitTest =>
      case Waking =>
      case Taking =>
      case Took(_) =>
      case Unlocking(_) =>
      case Running(_) =>
      case Notifying(_) =>
      case Freeing(_) =>
      case _ =>
    }
  }

  lemma WorkerKeepsLocks(s: State, i: nat)
    requires Locks(s) && WorkerEnabled(s, i)
    ensures Locks(WorkerNext(s, i))
  {
    hide Locks;
    WorkerLocks(s, WorkerNext(s, i), i, WorkerGoes(s, i));
    match s.workers[i] {
      case Locking =>
      case Testing =>
      case ExitTest =>
      case Waking =>
      case Taking =>
      case Took(_) =>
      case Unlocking(_) =>
      case Running(_) =>
      case Notifying(_) =>
      case Freeing(_) =>
      case _ =>
    }
  }

  lemma WorkerOwns(s: State, i: nat)
    requires Locks(s) && i < |s.workers|
    ensures WorkerHolds(s.workers[i]) <==> s.owner == ByWorker(i)
  {}

  lemma WorkerKeepsCounted(s: State, i: nat)
    requires Locks(s) && Counted(s) && Guarded(s) && WorkerEnabled(s, i)
    ensures Counted(WorkerNext(s, i))
  {
    WorkerOwns(s, i);
    assert s.workers[i].Taking? ==> s.size > 0;
    hide Locks, Guarded;
    WorkerChanges(s, i);
    match s.workers[i] {
      case Locking =>
      case Testing =>
      case ExitTest =>
      case Waking =>
      case Taking =>
      case Took(_) =>
      case Unlocking(_) =>
      case Running(_) =>
      case Notifying(_) =>
      case Freeing(_) =>
      case _ =>
    }
  }

  lemma WorkerKeepsGuarded(s: State, i: nat)
    requires Locks(s) && Counted(s) && Guarded(s) && WorkerEnabled(s, i)
    ensures Guarded(WorkerNext(s, i))
  {
    assert WorkerHolds(s.workers[i]) ==>
      forall j :: 0 <= j < |s.workers| && j != i ==> !WorkerHolds(s.workers[j]);
    hide Locks;
    match s.workers[i] {
      case Locking =>
      case Testing =>
      case ExitTest =>
      case Waking =>
      case Taking =>
      case Took(_) =>
      case Unlocking(_) =>
      case Running(_) =>
      case Notifying(_) =>
      case Freeing(_) =>
      case _ =>
    }
  }

  lemma WorkerKeepsDrained(s: State, i: nat)
    requires Drained(s) && WorkerEnabled(s, i)
    ensures Drained(WorkerNext(s, i))
  {
    assert !AllExited(s);
    forall c | 0 <= c < |s.clients|
      ensures Shutdown(WorkerNext(s, i), c)
    {
      assert Shutdown(s, c);
    }
  }

  lemma WorkerKeepsRoused(s: State, i: nat)
    requires Locks(s) && Roused(s) && WorkerEnabled(s, i)
    ensures Roused(WorkerNext(s, i))
  {
    match s.workers[i] {
      case Locking =>
      case Testing =>
      case ExitTest =>
      case Waking =>
      case Taking =>
      case Took(_) =>
      case Unlocking(_) =>
      case Running(_) =>
      case Notifying(_) =>
      case Freeing(_) =>
      case _ =>
    }
  }

  lemma WorkerKeepsConserved(s: State, i: nat)
    requires Locks(s) && Counted(s) && Guarded(s) && Conserved(s) && WorkerEnabled(s, i)
    ensures Conserved(WorkerNext(s, i))
  {
    hide Awake;
    AwakeUpdate(s.workers, i, WorkerGoes(s, i));
    match s.workers[i] {
      case Locking =>
      case Testing =>
      case ExitTest =>
      case Waking =>
      case Taking =>
      case Took(_) =>
      case Unlocking(_) =>
      case Running(_) =>
      case Notifying(_) =>
      case Freeing(_) =>
      case _ =>
    }
  }

  lemma WorkerKeepsOrdered(s: State, i: nat)
    requires Drained(s) && Ordered(s) && WorkerEnabled(s, i)
    ensures Ordered(WorkerNext(s, i))
  {
    assert !AllExited(s);
    assert s.drained == [];
    hide Drained, AllExited;
    if s.workers[i].Taking? && s.queue != [] {
      assert s.taken + [] + s.queue == (s.taken + [s.queue[0]]) + [] + s.queue[1..];
    }
  }

  /** A work comes through the phase. */
  lemma HandsMore(s: State, s': State, i: nat, pc: WorkerPc, w: Work, p: Phase)
    requires HandedAt(s, p) && i < |s.workers| && Load(s.workers[i], p) == multiset{} && Load(pc, p) == multiset{w}
    requires s'.workers == s.workers[i := pc] && s'.finished == s.finished
    requires History(s', p) == History(s, p) + [w]
    ensures HandedAt(s', p)
  {
    hide Carried, Load, History;
    CarriedMore(s.workers, i, pc, p);
    assert multiset(History(s, p) + [w]) == multiset(History(s, p)) + multiset{w};
  }

  lemma FreeingHands(s: State, i: nat, p: Phase)
    requires HandedAt(s, p) && WorkerEnabled(s, i) && s.workers[i].Freeing?
    ensures HandedAt(WorkerNext(s, i), p)
  {
    hide Carried;
    CarriedLess(s.workers, i, Locking, p);
  }

  lemma HandsSame(s: State, s': State, i: nat, pc: WorkerPc, p: Phase)
    requires HandedAt(s, p) && i < |s.workers| && Load(s.workers[i], p) == Load(pc, p)
    requires s'.workers == s.workers[i := pc] && History(s', p) == History(s, p) && s'.finished == s.finished
    ensures HandedAt(s', p)
  {
    hide Load, History;
    CarriedSame(s.workers, i, pc, p);
  }

  /** The statement that brings a work through the phase. */
  predicate Enters(s: State, i: nat, p: Phase)
    requires i < |s.workers|
  {
    match s.workers[i]
    case Taking => p.Dequeued? && s.queue != []
    case Running(_) => p.Executed?
    case Notifying(_) => p.Announced?
    case _ => false
  }

  lemma WorkerEnters(s: State, i: nat, p: Phase)
    requires HandedAt(s, p) && WorkerEnabled(s, i) && Enters(s, i, p)
    ensures HandedAt(WorkerNext(s, i), p)
  {
    var s', pc := WorkerNext(s, i), WorkerGoes(s, i);
    hide HandedAt, Carried;
    match s.workers[i] {
      case Taking => HandsMore(s, s', i, pc, s.queue[0], p);
      case Running(w) => HandsMore(s, s', i, pc, w, p);
      case Notifying(w) => HandsMore(s, s', i, pc, w, p);
    }
  }

  lemma WorkerKeepsHandedAt(s: State, i: nat, p: Phase)
    requires HandedAt(s, p) && WorkerEnabled(s, i)
    ensures HandedAt(WorkerNext(s, i), p)
  {
    hide HandedAt, Carried, WorkerNext, WorkerGoes, Load, History, Enters;
    if Enters(s, i, p) {
      WorkerEnters(s, i, p);
    } else if s.workers[i].Freeing? {
      FreeingHands(s, i, p);
    } else {
      SameLoad(s, i, p);
      WorkerChanges(s, i);
      SameHistory(s, i, p);
      HandsSame(s, WorkerNext(s, i), i, WorkerGoes(s, i), p);
    }
  }

  lemma WorkerKeepsHanded(s: State, i: nat)
    requires Handed(s) && WorkerEnabled(s, i)
    ensures Handed(WorkerNext(s, i))
  {
    hide HandedAt, WorkerNext;
    WorkerKeepsHandedAt(s, i, Dequeued);
    WorkerKeepsHandedAt(s, i, Executed);
    WorkerKeepsHandedAt(s, i, Announced);
  }

  lemma SameHistory(s: State, i: nat, p: Phase)
    requires WorkerEnabled(s, i) && !Enters(s, i, p)
    ensures History(WorkerNext(s, i), p) == History(s, p)
  {
    match s.workers[i] {
      case Taking =>
      case Running(_) =>
      case Notifying(_) =>
      case _ => WorkerChanges(s, i); hide WorkerNext, WorkerGoes;
    }
  }

  lemma SameLoad(s: State, i: nat, p: Phase)
    requires WorkerEnabled(s, i) && !Enters(s, i, p) && !s.workers[i].Freeing?
    ensures Load(WorkerGoes(s, i), p) == Load(s.workers[i], p)
  {
    match s.workers[i] {
      case Locking =>
      case Testing =>
      case ExitTest =>
      case Waking =>
      case Taking =>
      case Took(_) =>
      case Unlocking(_) =>
      case Running(_) =>
      case Notifying(_) =>
      case _ =>
    }
  }

  lemma WorkerKeepsObedient(s: State, i: nat)
    requires Obedient(s) && WorkerEnabled(s, i)
    ensures Obedient(WorkerNext(s, i))
  {
    WorkerChanges(s, i);
    hide WorkerNext, WorkerGoes;
    forall c | 0 <= c < |s.clients|
      ensures Doing(WorkerNext(s, i), c)
    {
      assert Doing(s, c);
    }
  }

  // ----- Spurious wakeups and calls keep the invariants -----

  lemma SpuriousKeeps(s: State, i: nat)
    requires Inv(s) && Enabled(s, SpuriousWake(i))
    ensures Inv(Set(s, i, Waking))
  {
    hide Locks, Counted, Guarded, Drained, Roused, Conserved, Ordered, Handed, Obedient, Set;
    SpuriousKeepsLocks(s, i);
    SpuriousKeepsDrained(s, i);
    SpuriousKeepsConserved(s, i);
    SpuriousKeepsGuarded(s, i);
    SpuriousKeepsHanded(s, i);
    SpuriousKeepsObedient(s, i);
    SpuriousKeepsRest(s, i);
  }

  lemma SpuriousKeepsLocks(s: State, i: nat)
    requires Locks(s) && Enabled(s, SpuriousWake(i))
    ensures Locks(Set(s, i, Waking))
  {
    WorkerLocks(s, Set(s, i, Waking), i, Waking);
  }

  lemma SpuriousKeepsRest(s: State, i: nat)
    requires Locks(s) && Enabled(s, SpuriousWake(i))
    ensures Counted(s) ==> Counted(Set(s, i, Waking))
    ensures Roused(s) ==> Roused(Set(s, i, Waking))
    ensures Ordered(s) ==> Ordered(Set(s, i, Waking))
  {}

  lemma SpuriousKeepsHanded(s: State, i: nat)
    requires Handed(s) && Enabled(s, SpuriousWake(i))
    ensures Handed(Set(s, i, Waking))
  {
    hide HandedAt;
    HandsSame(s, Set(s, i, Waking), i, Waking, Dequeued);
    HandsSame(s, Set(s, i, Waking), i, Waking, Executed);
    HandsSame(s, Set(s, i, Waking), i, Waking, Announced);
  }

  lemma SpuriousKeepsObedient(s: State, i: nat)
    requires Obedient(s) && Enabled(s, SpuriousWake(i))
    ensures Obedient(Set(s, i, Waking))
  {
    forall c | 0 <= c < |s.clients|
      ensures Doing(Set(s, i, Waking), c)
    {
      assert Doing(s, c);
    }
  }

  lemma SpuriousKeepsGuarded(s: State, i: nat)
    requires Guarded(s) && Enabled(s, SpuriousWake(i))
    ensures Guarded(Set(s, i, Waking))
  {}

  lemma SpuriousKeepsConserved(s: State, i: nat)
    requires Conserved(s) && Enabled(s, SpuriousWake(i))
    ensures Conserved(Set(s, i, Waking))
  {
    hide Awake;
    AwakeUpdate(s.workers, i, Waking);
  }

  lemma SpuriousKeepsDrained(s: State, i: nat)
    requires Drained(s) && Enabled(s, SpuriousWake(i))
    ensures Drained(Set(s, i, Waking))
  {
    assert !AllExited(s);
    forall c | 0 <= c < |s.clients|
      ensures Shutdown(Set(s, i, Waking), c)
    {
      assert Shutdown(s, c);
    }
  }

  lemma CallKeeps(s: State, c: nat, op: Operation)
    requires Inv(s) && CallEnabled(s, c, op)
    ensures Inv(CallNext(s, c, op))
  {
    hide Locks, Counted, Guarded, Drained, Roused, Conserved, Ordered, Handed, Obedient, CallNext, CallEnabled;
    CallKeepsLocks(s, c, op);
    CallKeepsDrained(s, c, op);
    CallKeepsObedient(s, c, op);
    CallKeepsHanded(s, c, op);
    CallKeepsRest(s, c, op);
  }

  lemma CallKeepsRest(s: State, c: nat, op: Operation)
    requires Locks(s) && CallEnabled(s, c, op)
    ensures Counted(s) ==> Counted(CallNext(s, c, op))
    ensures Guarded(s) ==> Guarded(CallNext(s, c, op))
    ensures Roused(s) ==> Roused(CallNext(s, c, op))
    ensures Conserved(s) ==> Conserved(CallNext(s, c, op))
    ensures Ordered(s) ==> Ordered(CallNext(s, c, op))
  {
    hide Awake;
  }

  lemma CallKeepsLocks(s: State, c: nat, op: Operation)
    requires Locks(s) && CallEnabled(s, c, op)
    ensures Locks(CallNext(s, c, op))
  {}

  lemma CallKeepsHanded(s: State, c: nat, op: Operation)
    requires Handed(s) && CallEnabled(s, c, op)
    ensures Handed(CallNext(s, c, op))
  {
    hide Carried;
  }

  lemma CallKeepsDrained(s: State, c: nat, op: Operation)
    requires Drained(s) && CallEnabled(s, c, op)
    ensures Drained(CallNext(s, c, op))
  {
    forall c' | 0 <= c' < |s.clients|
      ensures Shutdown(CallNext(s, c, op), c')
    {
      assert Shutdown(s, c');
    }
  }

  lemma CallKeepsObedient(s: State, c: nat, op: Operation)
    requires Obedient(s) && CallEnabled(s, c, op)
    ensures Obedient(CallNext(s, c, op))
  {
    forall c' | 0 <= c' < |s.clients|
      ensures Doing(CallNext(s, c, op), c')
    {
      assert Doing(s, c');
    }
  }

  // ----- Clients keep the invariants -----

  lemma WakeHolds(ws: seq<WorkerPc>, woken: set<nat>)
    ensures forall i :: 0 <= i < |ws| ==> WorkerHolds(Wake(ws, woken)[i]) == WorkerHolds(ws[i])
  {}

  lemma ClientLocks(s: State, s': State, c: nat, pc: ClientPc)
    requires Locks(s) && c < |s.clients| && s'.clients == s.clients[c := pc] && |s'.workers| == |s.workers|
    requires forall i :: 0 <= i < |s.workers| ==> WorkerHolds(s'.workers[i]) == WorkerHolds(s.workers[i])
    requires if ClientHolds(s.clients[c]) then s'.owner == (if ClientHolds(pc) then s.owner else Free)
             else if ClientHolds(pc) then s.owner.Free? && s'.owner == ByClient(c)
             else s'.owner == s.owner
    ensures Locks(s')
  {}

  lemma ClientChanges(s: State, c: nat, woken: set<nat>)
    requires ClientEnabled(s, c, woken)
    ensures var s' := ClientNext(s, c, woken);
      && s'.clients == s.clients[c := ClientGoes(s, c)]
      && (s'.workers == s.workers || s'.workers == Wake(s.workers, woken))
  {
    hide ClientGoes, Wake, Signalled, BroadcastTo, OthersOutside;
    match s.clients[c] {
      case AtLock(_) =>
      case InAdd(_, _) =>
      case InFlags(_, _) =>
      case AtUnlock(_) =>
      case Joining(_) =>
      case Draining =>
      case _ =>
    }
  }

  predicate SameHistories(s: State, t: State) {
    t.taken == s.taken && t.ran == s.ran && t.notified == s.notified && t.finished == s.finished && t.asked == s.asked
  }

  lemma EffectsOnHistory(t: State, w: Work, a: AddLine, f: Flagging, line: FlagLine, woken: set<nat>)
    ensures SameHistories(t, AddEffect(t, w, a, woken))
    ensures SameHistories(t, FlagEffect(t, f, line, woken))
    ensures SameHistories(t, DrainEffect(t))
  {
    hide Wake;
  }

  lemma ClientChangesHistory(s: State, c: nat, woken: set<nat>)
    requires ClientEnabled(s, c, woken)
    ensures SameHistories(s, ClientNext(s, c, woken))
  {
    var t := Put(s, c, ClientGoes(s, c));
    hide ClientGoes, AddEffect, FlagEffect, DrainEffect, Signalled, BroadcastTo, OthersOutside;
    match s.clients[c] {
      case AtLock(_) =>
      case InAdd(w, line) => EffectsOnHistory(t, w, line, Start, StopFlag, woken);
      case InFlags(f, line) => EffectsOnHistory(t, 0, Link, f, line, woken);
      case AtUnlock(_) =>
      case Joining(_) =>
      case Draining => EffectsOnHistory(t, 0, Link, Start, StopFlag, woken);
      case _ =>
    }
  }

  /** Only the client that owns the mutex adds works and sets the flag. */
  lemma ClientWrites(s: State, c: nat, woken: set<nat>)
    requires ClientEnabled(s, c, woken) && !ClientHolds(s.clients[c])
    ensures var s' := ClientNext(s, c, woken); s'.stop == s.stop && s'.added == s.added
  {
    hide ClientGoes, Wake, Signalled, BroadcastTo, OthersOutside;
    match s.clients[c] {
      case AtLock(_) =>
      case InAdd(_, _) =>
      case InFlags(_, _) =>
      case AtUnlock(_) =>
      case Joining(_) =>
      case Draining =>
      case _ =>
    }
  }

  lemma HolderOwns(s: State, c: nat)
    requires Locks(s) && c < |s.clients|
    ensures ClientHolds(s.clients[c]) <==> s.owner == ByClient(c)
    ensures ClientHolds(s.clients[c]) ==> forall i :: 0 <= i < |s.workers| ==> !WorkerHolds(s.workers[i])
  {}

  lemma ClientKeepsLocks(s: State, c: nat, woken: set<nat>)
    requires Locks(s) && ClientEnabled(s, c, woken)
    ensures Locks(ClientNext(s, c, woken))
  {
    hide Locks, WorkerHolds, Wake, Signalled, BroadcastTo, OthersOutside;
    WakeHolds(s.workers, woken);
    HolderOwns(s, c);
    var s' := ClientNext(s, c, woken);
    ClientChanges(s, c, woken);
    ClientLocks(s, s', c, ClientGoes(s, c));
  }

  lemma ClientKeepsCounted(s: State, c: nat, woken: set<nat>)
    requires Locks(s) && Counted(s) && Drained(s) && ClientEnabled(s, c, woken)
    ensures Counted(ClientNext(s, c, woken))
  {
    assert Shutdown(s, c);
    HolderOwns(s, c);
    hide Wake;
  }

  lemma ClientKeepsGuarded(s: State, c: nat, woken: set<nat>)
    requires Locks(s) && Guarded(s) && Drained(s) && ClientEnabled(s, c, woken)
    ensures Guarded(ClientNext(s, c, woken))
  {
    assert Shutdown(s, c);
    HolderOwns(s, c);
  }

  lemma NobodyOwns(s: State, c: nat)
    requires Locks(s) && c < |s.clients| && !ClientHolds(s.clients[c]) && OthersOutside(s, c) && AllExited(s)
    ensures s.owner.Free?
  {}

  lemma OwnShutdown(s: State, c: nat, woken: set<nat>)
    requires ClientEnabled(s, c, woken) && Shutdown(s, c) && Locks(s) && !s.freed
    ensures Shutdown(ClientNext(s, c, woken), c)
  {
    if s.clients[c] == Joining(0) {
      NobodyOwns(s, c);
    }
    hide Locks, Wake, Signalled, BroadcastTo;
    match s.clients[c] {
      case AtLock(_) =>
      case InAdd(_, _) =>
      case InFlags(_, _) =>
      case AtUnlock(_) =>
      case Joining(_) =>
      case Draining =>
      case _ =>
    }
  }

  lemma WakeExited(ws: seq<WorkerPc>, woken: set<nat>)
    ensures forall i :: 0 <= i < |ws| ==> Wake(ws, woken)[i].Exited? == ws[i].Exited?
  {}

  lemma ExitStays(s: State, c: nat, woken: set<nat>)
    requires ClientEnabled(s, c, woken)
    ensures s.exit ==> ClientNext(s, c, woken).exit
  {
    hide ClientGoes, Wake, Signalled, BroadcastTo, OthersOutside;
    match s.clients[c] {
      case InAdd(_, _) =>
      case InFlags(_, _) =>
      case Draining =>
      case _ =>
    }
  }

  lemma OtherShutdown(s: State, c: nat, woken: set<nat>, c': nat)
    requires ClientEnabled(s, c, woken) && c' < |s.clients| && c' != c && Shutdown(s, c')
    ensures Shutdown(ClientNext(s, c, woken), c')
  {
    assert !s.clients[c'].Draining?;
    ClientChanges(s, c, woken);
    ExitStays(s, c, woken);
    WakeExited(s.workers, woken);
    hide ClientNext, ClientEnabled, ClientGoes, Wake;
  }

  lemma ClientKeepsShutdown(s: State, c: nat, woken: set<nat>, c': nat)
    requires ClientEnabled(s, c, woken) && c' < |s.clients| && Shutdown(s, c) && Shutdown(s, c')
    requires Locks(s) && !s.freed
    ensures Shutdown(ClientNext(s, c, woken), c')
  {
    hide Shutdown, Locks;
    if c' == c {
      OwnShutdown(s, c, woken);
    } else {
      OtherShutdown(s, c, woken, c');
    }
  }

  lemma ClientKeepsDrained(s: State, c: nat, woken: set<nat>)
    requires Locks(s) && Drained(s) && ClientEnabled(s, c, woken)
    ensures Drained(ClientNext(s, c, woken))
  {
    assert Shutdown(s, c);
    assert !NobodyInside(s);
    forall c' | 0 <= c' < |s.clients|
      ensures Shutdown(ClientNext(s, c, woken), c')
    {
      assert Shutdown(s, c');
      ClientKeepsShutdown(s, c, woken, c');
    }
    hide Locks, Shutdown;
  }

  lemma BroadcastRouses(ws: seq<WorkerPc>, woken: set<nat>)
    requires BroadcastTo(ws, woken)
    ensures forall i :: 0 <= i < |ws| ==> !Wake(ws, woken)[i].Sleeping?
  {}

  lemma ClientKeepsRoused(s: State, c: nat, woken: set<nat>)
    requires Locks(s) && Drained(s) && Roused(s) && ClientEnabled(s, c, woken)
    ensures Roused(ClientNext(s, c, woken))
  {
    HolderOwns(s, c);
    assert Shutdown(s, c);
    if s.clients[c].InFlags? && s.clients[c].line.Broadcast? {
      BroadcastRouses(s.workers, woken);
    }
    hide Locks;
  }

  lemma SignalAwakes(s: State, woken: set<nat>)
    requires Signalled(s.workers, woken) && Asleep(s)
    ensures Awake(Wake(s.workers, woken)) > Awake(s.workers)
  {
    var i :| 0 <= i < |s.workers| && s.workers[i].Sleeping? && i in woken;
    WakeOne(s.workers, woken, i);
  }

  lemma SignalConserves(s: State, c: nat, woken: set<nat>)
    requires Locks(s) && Conserved(s) && ClientEnabled(s, c, woken)
    requires s.clients[c].InAdd? && s.clients[c].add.Signal?
    ensures Conserved(ClientNext(s, c, woken))
  {
    HolderOwns(s, c);
    if !s.stop && Asleep(s) {
      SignalAwakes(s, woken);
    }
    hide Awake, Locks, Signalled;
  }

  lemma ClientKeepsConserved(s: State, c: nat, woken: set<nat>)
    requires Locks(s) && Conserved(s) && Drained(s) && ClientEnabled(s, c, woken)
    ensures Conserved(ClientNext(s, c, woken))
  {
    if s.clients[c].InAdd? && s.clients[c].add.Signal? {
      SignalConserves(s, c, woken);
    } else if s.clients[c].InFlags? && s.clients[c].line.Broadcast? {
      BroadcastRouses(s.workers, woken);
    } else {
      assert Shutdown(s, c);
      HolderOwns(s, c);
      hide Awake, Locks, Wake, Drained;
    }
  }

  lemma ClientKeepsOrdered(s: State, c: nat, woken: set<nat>)
    requires Ordered(s) && ClientEnabled(s, c, woken)
    ensures Ordered(ClientNext(s, c, woken))
  {
    hide Wake, Signalled, BroadcastTo, OthersOutside;
    if s.clients[c].Draining? {
      if s.queue != [] {
        assert s.taken + s.drained + s.queue == s.taken + (s.drained + [s.queue[0]]) + s.queue[1..];
      }
    } else if s.clients[c].InAdd? {
      var w := s.clients[c].w;
      assert s.taken + s.drained + s.queue + [w] == s.taken + s.drained + (s.queue + [w]);
    }
  }

  lemma ClientKeepsHandedAt(s: State, c: nat, woken: set<nat>, p: Phase)
    requires HandedAt(s, p) && ClientEnabled(s, c, woken)
    ensures HandedAt(ClientNext(s, c, woken), p)
  {
    hide Carried, Wake, ClientNext, ClientGoes, Signalled, BroadcastTo, OthersOutside;
    WakeCarries(s.workers, woken, p);
    ClientChanges(s, c, woken);
    ClientChangesHistory(s, c, woken);
  }

  lemma ClientKeepsHanded(s: State, c: nat, woken: set<nat>)
    requires Handed(s) && ClientEnabled(s, c, woken)
    ensures Handed(ClientNext(s, c, woken))
  {
    hide HandedAt, ClientNext;
    ClientKeepsHandedAt(s, c, woken, Dequeued);
    ClientKeepsHandedAt(s, c, woken, Executed);
    ClientKeepsHandedAt(s, c, woken, Announced);
  }

  lemma DoingAdd(s: State, c: nat, woken: set<nat>)
    requires ClientEnabled(s, c, woken) && Doing(s, c) && s.clients[c].InAdd?
    ensures Doing(ClientNext(s, c, woken), c)
  {
    hide Wake, Signalled;
    match s.clients[c].add {
      case Link =>
      case Count =>
      case Signal =>
    }
  }

  lemma DoingFlags(s: State, c: nat, woken: set<nat>)
    requires ClientEnabled(s, c, woken) && Doing(s, c) && s.clients[c].InFlags?
    ensures Doing(ClientNext(s, c, woken), c)
  {
    hide Wake, BroadcastTo;
    match s.clients[c].line {
      case StopFlag =>
      case ExitFlag =>
      case Broadcast =>
    }
  }

  lemma DoingOther(s: State, c: nat, woken: set<nat>)
    requires ClientEnabled(s, c, woken) && Doing(s, c) && !s.clients[c].InAdd? && !s.clients[c].InFlags?
    ensures Doing(ClientNext(s, c, woken), c)
  {
    hide OthersOutside, JustAdded;
    match s.clients[c] {
      case AtLock(_) =>
      case AtUnlock(_) =>
      case Joining(_) =>
      case Draining =>
      case _ =>
    }
  }

  lemma OwnDoing(s: State, c: nat, woken: set<nat>)
    requires ClientEnabled(s, c, woken) && Doing(s, c)
    ensures Doing(ClientNext(s, c, woken), c)
  {
    hide Doing, ClientNext;
    if s.clients[c].InAdd? {
      DoingAdd(s, c, woken);
    } else if s.clients[c].InFlags? {
      DoingFlags(s, c, woken);
    } else {
      DoingOther(s, c, woken);
    }
  }

  /** Others do not get in the way of a client that owns the mutex. */
  lemma OtherDoing(s: State, c: nat, woken: set<nat>, c': nat)
    requires Locks(s) && ClientEnabled(s, c, woken) && c' < |s.clients| && c' != c && Doing(s, c')
    ensures Doing(ClientNext(s, c, woken), c')
  {
    HolderOwns(s, c);
    HolderOwns(s, c');
    hide Locks, ClientNext, ClientGoes, ClientEnabled, Wake;
    ClientChanges(s, c, woken);
    ClientChangesHistory(s, c, woken);
    if !ClientHolds(s.clients[c]) {
      ClientWrites(s, c, woken);
    }
  }

  lemma ClientKeepsObedient(s: State, c: nat, woken: set<nat>)
    requires Locks(s) && Obedient(s) && ClientEnabled(s, c, woken)
    ensures Obedient(ClientNext(s, c, woken))
  {
    ClientChanges(s, c, woken);
    hide ClientNext, ClientGoes, ClientEnabled, Locks, Doing;
    forall c' | 0 <= c' < |s.clients|
      ensures Doing(ClientNext(s, c, woken), c')
    {
      assert Doing(s, c');
      if c' == c {
        OwnDoing(s, c, woken);
      } else {
        OtherDoing(s, c, woken, c');
      }
    }
  }

  lemma InvKept(s: State, e: Event)
    requires Inv(s) && Enabled(s, e)
    ensures Inv(Next(s, e))
  {
    match e {
      case WorkerStep(i) =>
        WorkerKeepsLocks(s, i);
        WorkerKeepsCounted(s, i);
        WorkerKeepsGuarded(s, i);
        WorkerKeepsDrained(s, i);
        WorkerKeepsRoused(s, i);
        WorkerKeepsConserved(s, i);
        WorkerKeepsOrdered(s, i);
        WorkerKeepsHanded(s, i);
        WorkerKeepsObedient(s, i);
      case SpuriousWake(i) => SpuriousKeeps(s, i);
      case Call(c, op) => CallKeeps(s, c, op);
      case ClientStep(c, woken) =>
        ClientKeepsLocks(s, c, woken);
        ClientKeepsCounted(s, c, woken);
        ClientKeepsGuarded(s, c, woken);
        ClientKeepsDrained(s, c, woken);
        ClientKeepsRoused(s, c, woken);
        ClientKeepsConserved(s, c, woken);
        ClientKeepsOrdered(s, c, woken);
        ClientKeepsHanded(s, c, woken);
        ClientKeepsObedient(s, c, woken);
    }
  }

  lemma {:induction false} RunInv(states: seq<State>, events: seq<Event>, k: nat)
    requires Run(states, events) && k < |states|
    ensures Inv(states[k])
  {
    if k == 0 {
      InitInv(states[0]);
    } else {
      RunInv(states, events, k - 1);
      InvKept(states[k - 1], events[k - 1]);
    }
  }

  // ----- Main results, for every state of every run -----

  predicate Reached(states: seq<State>, events: seq<Event>, s: State) {
    Run(states, events) && s in states
  }

  lemma ReachedInv(states: seq<State>, events: seq<Event>, s: State)
    requires Reached(states, events, s)
    ensures Inv(s)
  {
    var k :| 0 <= k < |states| && states[k] == s;
    RunInv(states, events, k);
  }

  /** No lost wakeup: whenever the pool is running and anybody sleeps, the queue is no longer than the awake
      workers with nothing in hand, up to a work whose signal is still to come, and unless start is about to
      wake everybody. With the mutex free neither is the case, and the counter tells the length. */
  lemma NoLostWakeup(states: seq<State>, events: seq<Event>, s: State)
    requires Reached(states, events, s) && !s.stop && !s.exit && Asleep(s)
    ensures !BroadcastDue(s, Start) ==> |s.queue| <= Awake(s.workers) + if SignalDue(s) then 1 else 0
    ensures s.owner.Free? ==> s.size == |s.queue| <= Awake(s.workers)
  {
    ReachedInv(states, events, s);
  }

  /** Once destroy has let go of the mutex, no worker is asleep, ever. */
  lemma NobodySleepsAfterExit(states: seq<State>, events: seq<Event>, s: State)
    requires Reached(states, events, s) && s.exit && !BroadcastDue(s, Destroy)
    ensures !Asleep(s)
  {
    ReachedInv(states, events, s);
  }

  /** Each added work is in exactly one place: on the list, in one worker's hands, finished, or freed by
      destroy. Works are dequeued in the order they were added. */
  lemma ExactlyOnceInOrder(states: seq<State>, events: seq<Event>, s: State)
    requires Reached(states, events, s)
    ensures multiset(s.added) == multiset(s.queue) + Carried(s.workers, Dequeued) + s.finished + multiset(s.drained)
    ensures s.taken <= s.added
    ensures s.drained == [] ==> s.added == s.taken + s.queue
  {
    ReachedInv(states, events, s);
    hide Reached, Carried, Locks, Counted, Guarded, Drained, Roused, Conserved;
    Partition(s.added, s.taken, s.drained, s.queue);
  }

  lemma Partition(a: seq<Work>, t: seq<Work>, d: seq<Work>, q: seq<Work>)
    requires a == t + d + q
    ensures multiset(a) == multiset(t) + multiset(d) + multiset(q) && t <= a && (d == [] ==> a == t + q)
  {}

  /** The routine of every work taken off the list runs once, and then its callback, before it is freed: at any
      moment the works that have run are those finished and those whose callback or release is due. */
  lemma EachRunOnce(states: seq<State>, events: seq<Event>, s: State)
    requires Reached(states, events, s)
    ensures multiset(s.ran) == Carried(s.workers, Executed) + s.finished
    ensures multiset(s.notified) == Carried(s.workers, Announced) + s.finished
    ensures multiset(s.notified) <= multiset(s.ran) <= multiset(s.taken)
    ensures forall w :: multiset(s.added)[w] == 1 && w in s.finished ==>
      multiset(s.ran)[w] == multiset(s.notified)[w] == 1 && w !in s.drained
  {
    hide *;
    ReachedInv(states, events, s);
    ReachedHands(states, events, s);
    ExactlyOnceInOrder(states, events, s);
    PhasesShrink(s.workers);
    OnceEach(s.added, s.taken, s.ran, s.notified, s.drained, s.queue, s.finished,
      Carried(s.workers, Dequeued), Carried(s.workers, Executed), Carried(s.workers, Announced));
  }

  lemma ReachedHands(states: seq<State>, events: seq<Event>, s: State)
    requires Reached(states, events, s)
    ensures multiset(s.taken) == Carried(s.workers, Dequeued) + s.finished
    ensures multiset(s.ran) == Carried(s.workers, Executed) + s.finished
    ensures multiset(s.notified) == Carried(s.workers, Announced) + s.finished
  {
    ReachedInv(states, events, s);
    hide Reached, Carried, Locks, Counted, Guarded, Drained, Roused, Conserved, Obedient, Ordered;
  }

  lemma OnceEach(added: seq<Work>, taken: seq<Work>, ran: seq<Work>, notified: seq<Work>, drained: seq<Work>,
      queue: seq<Work>, finished: multiset<Work>, d: multiset<Work>, e: multiset<Work>, a: multiset<Work>)
    requires multiset(added) == multiset(queue) + d + finished + multiset(drained)
    requires multiset(taken) == d + finished && multiset(ran) == e + finished && multiset(notified) == a + finished
    requires a <= e <= d
    ensures multiset(notified) <= multiset(ran) <= multiset(taken)
    ensures forall w :: multiset(added)[w] == 1 && w in finished ==>
      multiset(ran)[w] == multiset(notified)[w] == 1 && w !in drained
  {
    forall w | multiset(added)[w] == 1 && w in finished
      ensures multiset(ran)[w] == multiset(notified)[w] == 1 && w !in drained
    {
      assert multiset(added)[w] == multiset(queue)[w] + d[w] + finished[w] + multiset(drained)[w];
      assert d[w] == 0 && finished[w] == 1;
      assert multiset(drained)[w] == 0;
    }
  }

  lemma {:induction false} PhasesShrink(ws: seq<WorkerPc>)
    ensures Carried(ws, Announced) <= Carried(ws, Executed) <= Carried(ws, Dequeued)
  {
    if ws != [] {
      PhasesShrink(ws[..|ws| - 1]);
    }
  }

  /** When an operation lets go of the mutex it is the one that was called, and has done what it is for: the
      work is the last one added, the pool is started, stopped, or stopped for good. */
  lemma OperationsTakeEffect(states: seq<State>, events: seq<Event>, s: State, c: nat)
    requires Reached(states, events, s) && c < |s.clients| && s.clients[c].AtUnlock?
    ensures c in s.asked && s.asked[c] == s.clients[c].op
    ensures match s.clients[c].op
      case Add(w) => s.added != [] && s.added[|s.added| - 1] == w
      case Change(Start) => !s.stop
      case Change(Stop) => s.stop
      case Change(Destroy) => s.stop && s.exit
  {
    ReachedInv(states, events, s);
    assert Doing(s, c) && Shutdown(s, c);
  }

  /** An operation returns only after that, or, if it is a destruction, because another one came first; and one
      that is carried out ends with the pool drained and freed. */
  lemma ReturnsWhenDone(states: seq<State>, events: seq<Event>, k: nat, c: nat)
    requires Run(states, events) && k < |events| && c < |states[k].clients|
    requires !states[k].clients[c].Outside? && !states[k].clients[c].Destroyed?
    ensures c < |states[k + 1].clients|
    ensures states[k + 1].clients[c].Outside? ==>
      c in states[k].asked && var op := states[k].asked[c];
      if op == Change(Destroy) then states[k].exit else states[k].clients[c] == AtUnlock(op) && Effected(states[k], op)
    ensures states[k + 1].clients[c].Destroyed? ==>
      c in states[k].asked && states[k].asked[c] == Change(Destroy) && states[k + 1].freed
  {
    RunInv(states, events, k);
    var s := states[k];
    assert Doing(s, c);
    Follows(states, events, k);
    hide Inv, Run, Effected, Doing, ClientNext, ClientEnabled, ClientGoes, WorkerNext;
    match events[k] {
      case WorkerStep(i) => WorkerChanges(s, i);
      case SpuriousWake(_) =>
      case Call(_, _) =>
      case ClientStep(c', woken) =>
        ClientChanges(s, c', woken);
        if c' == c {
          ClientReturns(s, c, woken);
        }
    }
  }

  lemma ClientReturns(s: State, c: nat, woken: set<nat>)
    requires ClientEnabled(s, c, woken) && Doing(s, c)
    ensures ClientGoes(s, c).Outside? ==>
      c in s.asked && var op := s.asked[c];
      if op == Change(Destroy) then s.exit else s.clients[c] == AtUnlock(op) && Effected(s, op)
    ensures ClientGoes(s, c).Destroyed? ==>
      c in s.asked && s.asked[c] == Change(Destroy) && ClientNext(s, c, woken).freed
  {
    hide Effected, Wake, Signalled, BroadcastTo, OthersOutside, AddEffect, FlagEffect;
    match s.clients[c] {
      case AtLock(_) =>
      case InAdd(_, _) =>
      case InFlags(_, _) =>
      case AtUnlock(_) =>
      case Joining(_) =>
      case Draining =>
      case _ =>
    }
  }

  lemma Follows(states: seq<State>, events: seq<Event>, k: nat)
    requires Run(states, events) && k < |events|
    ensures |states| == |events| + 1 && Enabled(states[k], events[k]) && states[k + 1] == Next(states[k], events[k])
  {}

  /** A stopped pool takes no work off the list. */
  lemma StoppedTakesNothing(states: seq<State>, events: seq<Event>, k: nat)
    requires Run(states, events) && k < |events| && states[k].stop
    ensures states[k + 1].taken == states[k].taken
  {
    RunInv(states, events, k);
    var s := states[k];
    match events[k] {
      case WorkerStep(i) =>
        assert Guarded(s);
        assert !s.workers[i].Taking?;
        WorkerChanges(s, i);
      case ClientStep(c, woken) => ClientChangesHistory(s, c, woken);
      case _ =>
    }
  }

  /** The counter is right whenever the mutex is free, and the branch for an empty list is dead. */
  lemma CounterRight(states: seq<State>, events: seq<Event>, s: State, i: nat)
    requires Reached(states, events, s) && i < |s.workers|
    ensures s.owner.Free? ==> s.size == |s.queue|
    ensures !s.workers[i].UnlockingEmpty?
    ensures s.workers[i].Taking? ==> s.queue != []
  {
    ReachedInv(states, events, s);
  }

  /** When destroy has returned, all workers are gone, every work ever added was finished or freed, and those
      finished are those whose routine and callback have run. */
  lemma AfterDestroy(states: seq<State>, events: seq<Event>, s: State)
    requires Reached(states, events, s) && s.freed
    ensures AllExited(s) && s.queue == [] && Carried(s.workers, Dequeued) == multiset{}
    ensures multiset(s.added) == s.finished + multiset(s.drained)
    ensures multiset(s.ran) == multiset(s.notified) == s.finished
  {
    hide *;
    ReachedFreed(states, events, s);
    ExactlyOnceInOrder(states, events, s);
    ReachedHands(states, events, s);
    NoneCarried(s, Dequeued);
    NoneCarried(s, Executed);
    NoneCarried(s, Announced);
  }

  lemma ReachedFreed(states: seq<State>, events: seq<Event>, s: State)
    requires Reached(states, events, s) && s.freed
    ensures AllExited(s) && s.queue == []
  {
    ReachedInv(states, events, s);
    hide Reached, Locks, Counted, Guarded, Roused, Conserved, Ordered, Handed, Obedient;
  }

  lemma NoneCarried(s: State, p: Phase)
    requires AllExited(s)
    ensures Carried(s.workers, p) == multiset{}
  {
    NothingCarried(s.workers, p);
  }

  /** At most one thread is in a critical section. */
  lemma MutualExclusion(states: seq<State>, events: seq<Event>, s: State, i: nat, j: nat, c: nat)
    requires Reached(states, events, s) && i < |s.workers| && j < |s.workers| && c < |s.clients|
    ensures WorkerHolds(s.workers[i]) && WorkerHolds(s.workers[j]) ==> i == j
    ensures !(WorkerHolds(s.workers[i]) && ClientHolds(s.clients[c]))
  {
    ReachedInv(states, events, s);
  }

  // ----- Shutdown -----

  function Everybody(n: nat): (r: set<nat>)
    ensures forall i :: 0 <= i < n ==> i in r
  {
    if n == 0 then {} else Everybody(n - 1) + {n - 1}
  }

  /** The system cannot get stuck on the way down: either the owner of the mutex can go on, or every
      worker that is not gone can. */
  lemma ShutdownGoesOn(states: seq<State>, events: seq<Event>, s: State, i: nat)
    requires Reached(states, events, s) && s.exit && i < |s.workers| && !s.workers[i].Exited?
    ensures match s.owner
            case Free => WorkerEnabled(s, i)
            case ByWorker(j) => WorkerEnabled(s, j)
            case ByClient(c) => exists woken :: ClientEnabled(s, c, woken)
  {
    ReachedInv(states, events, s);
    match s.owner {
      case ByClient(c) =>
        var all := Everybody(|s.workers|);
        assert BroadcastTo(s.workers, all);
        assert Signalled(s.workers, all) by {
          if Asleep(s) {
            var k :| 0 <= k < |s.workers| && s.workers[k].Sleeping?;
            assert k in all;
          }
        }
        assert ClientEnabled(s, c, all);
      case _ =>
    }
  }

  function Rank(pc: WorkerPc): nat {
    match pc
    case Exited => 0
    case UnlockingExit => 1
    case ExitTest => 2
    case Taking => 2
    case Testing => 3
    case Locking => 4
    case Waking => 4
    case UnlockingEmpty => 5
    case Sleeping => 5
    case Freeing(_) => 5
    case Notifying(_) => 6
    case Running(_) => 7
    case Unlocking(_) => 8
    case Took(_) => 9
  }

  function Ranks(ws: seq<WorkerPc>): nat {
    if ws == [] then 0 else Ranks(ws[..|ws| - 1]) + Rank(ws[|ws| - 1])
  }

  lemma {:induction false} RanksUpdate(ws: seq<WorkerPc>, i: nat, pc: WorkerPc)
    requires i < |ws|
    ensures Ranks(ws[i := pc]) + Rank(ws[i]) == Ranks(ws) + Rank(pc)
  {
    var n := |ws| - 1;
    if i == n {
      assert ws[i := pc][..n] == ws[..n];
    } else {
      assert ws[i := pc][..n] == ws[..n][i := pc];
      RanksUpdate(ws[..n], i, pc);
    }
  }

  /** What is left to do on the way down. */
  function Remaining(s: State): nat {
    10 * |s.queue| + Ranks(s.workers)
  }

  lemma ShutdownAdvances(s: State, i: nat)
    requires Inv(s) && s.exit && WorkerEnabled(s, i)
    ensures Remaining(WorkerNext(s, i)) < Remaining(s)
  {
    assert s.workers[i].Taking? ==> s.queue != [];
    hide Ranks, Inv, Locks, Drained, Conserved, Ordered, Handed, Roused;
    WorkerChanges(s, i);
    RanksUpdate(s.workers, i, WorkerGoes(s, i));
    RankFalls(s, i);
  }

  lemma RankFalls(s: State, i: nat)
    requires WorkerEnabled(s, i) && s.exit && (s.workers[i].Taking? ==> s.queue != [])
    ensures Rank(WorkerGoes(s, i)) < Rank(s.workers[i]) + if s.workers[i].Taking? then 10 else 0
  {
    match s.workers[i] {
      case Locking =>
      case Testing =>
      case ExitTest =>
      case Waking =>
      case Taking =>
      case Took(_) =>
      case Unlocking(_) =>
      case Running(_) =>
      case Notifying(_) =>
      case Freeing(_) =>
      case _ =>
    }
  }

  /** How many of the events are steps of workers. */
  function WorkerSteps(events: seq<Event>): nat {
    if events == [] then 0
    else WorkerSteps(events[..|events| - 1]) + if events[|events| - 1].WorkerStep? then 1 else 0
  }

  /** That many steps: as many as there are places among the events where a worker takes one. */
  lemma {:induction false} StepsCounted(events: seq<Event>)
    ensures WorkerSteps(events) == |set k | 0 <= k < |events| && events[k].WorkerStep?|
  {
    if events != [] {
      var n := |events| - 1;
      var before := set k | 0 <= k < n && events[..n][k].WorkerStep?;
      StepsCounted(events[..n]);
      var all := set k | 0 <= k < |events| && events[k].WorkerStep?;
      assert all == before + if events[n].WorkerStep? then {n} else {};
    }
  }

  lemma {:induction false} WakeRanks(ws: seq<WorkerPc>, woken: set<nat>)
    ensures Ranks(Wake(ws, woken)) <= Ranks(ws)
  {
    if ws != [] {
      WakePrefix(ws, woken);
      WakeRanks(ws[..|ws| - 1], woken);
      hide Wake;
    }
  }

  /** A client makes more work for the workers only by adding one. */
  lemma ClientRemaining(s: State, c: nat, woken: set<nat>)
    requires ClientEnabled(s, c, woken)
    ensures Remaining(ClientNext(s, c, woken)) + 10 * |s.added| <= Remaining(s) + 10 * |ClientNext(s, c, woken).added|
    ensures s.exit ==> ClientNext(s, c, woken).exit
  {
    WakeRanks(s.workers, woken);
    hide Ranks, Wake;
    match s.clients[c] {
      case InAdd(w, line) =>
      case InFlags(f, line) =>
      case Draining =>
      case _ =>
    }
  }

  lemma EventRemaining(s: State, e: Event)
    requires Inv(s) && s.exit && Enabled(s, e)
    ensures Next(s, e).exit
    ensures Remaining(Next(s, e)) + (if e.WorkerStep? then 1 else 0) + 10 * |s.added|
         <= Remaining(s) + 10 * |Next(s, e).added|
  {
    match e {
      case WorkerStep(i) =>
        ShutdownAdvances(s, i);
        WorkerChanges(s, i);
      case SpuriousWake(i) => RanksUpdate(s.workers, i, Waking);
      case Call(_, _) =>
      case ClientStep(c, woken) => ClientRemaining(s, c, woken);
    }
  }

  lemma StepwisePrefix(states: seq<State>, events: seq<Event>)
    requires Stepwise(states, events) && events != []
    ensures var n := |events| - 1;
      && Stepwise(states[..n + 1], events[..n]) && states[..n + 1][n] == states[n]
      && Enabled(states[n], events[n]) && states[n + 1] == Next(states[n], events[n])
  {
    hide Enabled, Next;
  }

  /** Once the exit flag is set, over every interleaving with clients and spurious wakeups: each worker step
      uses up what is left to do, which only adding a work increases, by ten. So the workers can take only so
      many steps unless works keep being added. */
  lemma {:induction false} ShutdownEnds(states: seq<State>, events: seq<Event>)
    requires Stepwise(states, events) && Inv(states[0]) && states[0].exit
    ensures Inv(states[|events|]) && states[|events|].exit
    ensures WorkerSteps(events) + Remaining(states[|events|]) + 10 * |states[0].added|
         <= Remaining(states[0]) + 10 * |states[|events|].added|
    decreases |events|
  {
    if events != [] {
      var n := |events| - 1;
      StepwisePrefix(states, events);
      ShutdownEnds(states[..n + 1], events[..n]);
      InvKept(states[n], events[n]);
      EventRemaining(states[n], events[n]);
      assert states[..n + 1][0] == states[0];
      hide Inv, Enabled, Next, Remaining, Stepwise;
    }
  }

  /** Nothing is left to do exactly when the list is empty and all workers have exited, so that every join
      returns. */
  lemma NothingRemains(s: State)
    ensures Remaining(s) == 0 <==> s.queue == [] && AllExited(s)
  {
    NoRanks(s.workers);
  }

  lemma {:induction false} NoRanks(ws: seq<WorkerPc>)
    ensures Ranks(ws) == 0 <==> forall i :: 0 <= i < |ws| ==> ws[i].Exited?
  {
    if ws != [] {
      NoRanks(ws[..|ws| - 1]);
    }
  }
}
