/**
 `SynchList`, a list shared by threads, on top of the synchronisation kernel:
 any number of threads append and remove while others do anything else with
 other locks, conditions and semaphores.
 */
module SynchLists {
  import opened Options
  import opened Kernel
  import opened KernelRuns
  import opened KernelTheorems
  import opened KernelInterface

  /** A pointer; `Null` is what `List::Remove` gives for an empty list. */
  type Item = int

  const Null: Item := 0

  /** Where a thread is in the list's own code. */
  datatype Client =
    | Idle
    | Appending(x: Item)       // in Append, on its way to the lock
    | Signalled                // in Append, the item is on the list
    | Removing(waited: bool)   // in Remove; `waited` once it has called Wait

  /** `Remove` gave `x` to its caller. */
  datatype Taken = Taken(to: Tid, x: Item)

  datatype Sys = Sys(
    k: State,
    lock: int,
    cond: int,
    list: seq<Item>,
    clients: map<Tid, Client>,
    appended: seq<Item>,       // every item put on the list so far
    removed: seq<Taken>)       // every item taken off it so far, and by whom
  {
    function Of(t: Tid): Client { if t in clients then clients[t] else Idle }
  }

  datatype Step =
    | Elsewhere(e: Event)      // a step outside the list's code
    | BeginAppend(t: Tid, x: Item)
    | PutItem(t: Tid)          // list->Append, then the call of Signal
    | EndAppend(t: Tid)
    | BeginRemove(t: Tid)
    | Check(t: Tid)            // IsEmpty, then Wait, or list->Remove and Release

  predicate Foreign(s: Sys, e: Event) {
    match Actor(s.k, e)
    case None => true
    case Some(t) => e.Resume? || (s.Of(t).Idle? && !(e.CallAcquire? && e.n == s.lock))
  }

  predicate Allowed(s: Sys, st: Step) {
    match st
    case Elsewhere(e) => Enabled(s.k, e) && Foreign(s, e)
    case BeginAppend(t, x) => InCode(s.k, t) && s.Of(t).Idle? && x != Null
    case PutItem(t) => InCode(s.k, t) && s.Of(t).Appending?
    case EndAppend(t) => InCode(s.k, t) && s.Of(t).Signalled?
    case BeginRemove(t) => InCode(s.k, t) && s.Of(t).Idle?
    case Check(t) => InCode(s.k, t) && s.Of(t).Removing?
  }

  /** The kernel call with which a step ends. */
  function EventOf(s: Sys, st: Step): Event {
    match st
    case Elsewhere(e) => e
    case BeginAppend(t, _) => CallAcquire(t, s.lock)
    case PutItem(t) => CallSignal(t, s.cond, false)
    case EndAppend(t) => CallRelease(t, s.lock)
    case BeginRemove(t) => CallAcquire(t, s.lock)
    case Check(t) => if s.list == [] then CallWait(t, s.cond) else CallRelease(t, s.lock)
  }

  /** What a step does to the list and to the caller's place in its code. */
  function Effect(s: Sys, st: Step): Sys {
    match st
    case Elsewhere(_) => s
    case BeginAppend(t, x) => s.(clients := s.clients[t := Appending(x)])
    case PutItem(t) =>
      if s.Of(t).Appending? then
        s.(clients := s.clients[t := Signalled], list := s.list + [s.Of(t).x], appended := s.appended + [s.Of(t).x])
      else s
    case EndAppend(t) => s.(clients := s.clients[t := Idle])
    case BeginRemove(t) => s.(clients := s.clients[t := Removing(false)])
    case Check(t) =>
      if s.list == [] then s.(clients := s.clients[t := Removing(true)])
      else s.(clients := s.clients[t := Idle], list := s.list[1..], removed := s.removed + [Taken(t, s.list[0])])
  }

  function Do(s: Sys, st: Step): Sys
    requires Enabled(s.k, EventOf(s, st))
  {
    Effect(s, st).(k := Apply(s.k, EventOf(s, st)))
  }

  ghost predicate Start(s: Sys) {
    && Init(s.k) && s.list == [] && s.clients == map[] && s.appended == [] && s.removed == []
    && s.k.Guard(s.cond) == User(s.lock)
  }

  // ---- the invariant ----

  predicate Within(s: Sys, t: Tid) { Holds(s.k, t, s.lock) && s.k.PcOf(t) == Code }
  predicate InSignal(s: Sys, t: Tid) { Holds(s.k, t, s.lock) && Signaller(s.k.PcOf(t)) && s.k.PcOf(t).c == s.cond }
  predicate InWaiting(s: Sys, t: Tid) { !Holds(s.k, t, s.lock) && s.k.PcOf(t).InWait? && s.k.PcOf(t).c == s.cond }

  /** A thread's place in the list's code agrees with its place in the kernel's. */
  predicate ClientOk(s: Sys, t: Tid) {
    match s.Of(t)
    case Idle => Outside(s.k, t, s.lock)
    case Appending(x) => x != Null && (AtLock(s.k, t, s.lock) || Within(s, t))
    case Signalled => Within(s, t) || InSignal(s, t)
    case Removing(waited) => AtLock(s.k, t, s.lock) || Within(s, t) || (waited && InWaiting(s, t))
  }

  /** Threads woken in Remove that have not looked at the list since. */
  ghost function Woken(s: Sys): set<Tid> {
    set t | t in s.clients && s.Of(t) == Removing(true) && t !in s.k.Queue(CondQ(s.cond))
  }

  /** Threads that have appended and not yet dequeued a waiter. */
  ghost function Pending(s: Sys): set<Tid> {
    set t | t in s.k.pcs && s.k.PcOf(t).Signalling? && s.k.PcOf(t).c == s.cond
  }

  /** While threads wait, there are at least as many woken, or about to be, as items. */
  ghost predicate WaitersOk(s: Sys) {
    s.k.Queue(CondQ(s.cond)) != [] ==> |s.list| <= |Woken(s)| + |Pending(s)|
  }

  ghost predicate Clients(s: Sys) {
    Inv(s.k) && s.k.Guard(s.cond) == User(s.lock) && forall t :: ClientOk(s, t)
  }

  function Items(ts: seq<Taken>): seq<Item> { seq(|ts|, i requires 0 <= i < |ts| => ts[i].x) }

  /** The list is first in, first out, and never holds a null pointer. */
  ghost predicate Fifo(s: Sys) {
    Items(s.removed) + s.list == s.appended && Null !in s.list
  }

  ghost predicate ListInv(s: Sys) {
    Clients(s) && Fifo(s) && WaitersOk(s)
  }

  /** The caller holds the lock whenever it calls Signal or Wait: the assertions of those never fail. */
  lemma CallsEnabled(s: Sys, st: Step)
    requires Clients(s) && Allowed(s, st)
    ensures Enabled(s.k, EventOf(s, st))
    ensures st.PutItem? || st.EndAppend? || st.Check? ==> Holds(s.k, st.t, s.lock)
  {
    if !st.Elsewhere? {
      assert ClientOk(s, st.t);
    }
  }

  /** A thread in the list's code keeps the lock, or its lack of it, while others run. */
  lemma BusyWaits(s: Sys, e: Event, u: Tid)
    requires Clients(s) && Enabled(s.k, e) && Actor(s.k, e) != Some(u) && !s.Of(u).Idle?
    ensures ClientOk(s.(k := Apply(s.k, e)), u)
  {
    assert ClientOk(s, u) && Places(s.k);
    hide Apply, Enabled, Inv, Places, Clients;
    PcFrame(s.k, e, u);
    if Holds(s.k, u, s.lock) {
      HoldsStays(s.k, e, u, s.lock);
    } else if Holds(Apply(s.k, e), u, s.lock) {
      LockGained(s.k, e, s.lock, u);
    }
    ClientStays(s, Apply(s.k, e), u);
  }

  lemma ClientStays(s: Sys, k: State, u: Tid)
    requires ClientOk(s, u) && !s.Of(u).Idle? && Passive(s.k.PcOf(u), k.PcOf(u))
    requires Holds(k, u, s.lock) <==> Holds(s.k, u, s.lock)
    ensures ClientOk(s.(k := k), u)
  {
  }

  /** A thread in the list's code goes on inside the kernel. */
  lemma BusyResumes(s: Sys, u: Tid)
    requires Clients(s) && Enabled(s.k, Resume(u)) && !s.Of(u).Idle?
    ensures ClientOk(s.(k := Apply(s.k, Resume(u))), u)
  {
    assert ClientOk(s, u);
    ResumeEffect(s.k, u);
    if Holds(s.k, u, s.lock) {
      HoldsStays(s.k, Resume(u), u, s.lock);
    } else if Apply(s.k, Resume(u)).PcOf(u) == Code {
      AcquireReturns(s.k, Resume(u), u, s.lock);
    } else if Holds(Apply(s.k, Resume(u)), u, s.lock) {
      LockGained(s.k, Resume(u), s.lock, u);
    }
    hide Apply, Enabled, Clients;
  }

  lemma ElsewhereClients(s: Sys, e: Event)
    requires Clients(s) && Allowed(s, Elsewhere(e))
    ensures Clients(Do(s, Elsewhere(e)))
  {
    var s' := Do(s, Elsewhere(e));
    forall u ensures ClientOk(s', u) {
      if s.Of(u).Idle? {
        assert ClientOk(s, u);
        OutsideStays(s.k, e, u, s.lock);
      } else if Actor(s.k, e) == Some(u) {
        BusyResumes(s, u);
      } else {
        BusyWaits(s, e, u);
      }
    }
    StepInv(s.k, e);
    GuardsFixed(s.k, e, s.cond);
  }

  /** The thread that takes a step of the list's code. */
  lemma OwnClient(s: Sys, st: Step)
    requires Clients(s) && Allowed(s, st) && !st.Elsewhere? && Enabled(s.k, EventOf(s, st))
    ensures ClientOk(Do(s, st), st.t)
  {
    var e, t := EventOf(s, st), st.t;
    CallsEnabled(s, st);
    CallEffect(s.k, e);
    assert ClientOk(s, t);
    if Holds(s.k, t, s.lock) {
      HolderStep(s.k, e, s.lock);
    } else if Holds(Apply(s.k, e), t, s.lock) {
      LockGained(s.k, e, s.lock, t);
    }
    if e.CallAcquire? && Apply(s.k, e).PcOf(t) == Code {
      AcquireReturns(s.k, e, t, s.lock);
    }
    hide Apply, Clients;
  }

  lemma OwnClients(s: Sys, st: Step)
    requires Clients(s) && Allowed(s, st) && !st.Elsewhere? && Enabled(s.k, EventOf(s, st))
    ensures Clients(Do(s, st))
  {
    var s', e := Do(s, st), EventOf(s, st);
    forall u ensures ClientOk(s', u) {
      if u == st.t {
        OwnClient(s, st);
      } else if s.Of(u).Idle? {
        assert ClientOk(s, u);
        OutsideStays(s.k, e, u, s.lock);
      } else {
        BusyWaits(s, e, u);
      }
    }
    StepInv(s.k, e);
    GuardsFixed(s.k, e, s.cond);
  }

  // ---- no item is left behind ----

  /** Threads about to dequeue a waiter stay so through the steps of others. */
  lemma PendingStays(s: Sys, e: Event)
    requires Inv(s.k) && Enabled(s.k, e)
    ensures var gone := if e.Resume? then {e.t} else {}; Pending(s) - gone <= Pending(s.(k := Apply(s.k, e)))
  {
    var gone := if e.Resume? then {e.t} else {};
    forall t | t in Pending(s) - gone ensures t in Pending(s.(k := Apply(s.k, e))) {
      if Actor(s.k, e) != Some(t) {
        PcFrame(s.k, e, t);
      }
    }
  }

  /** A thread on the condition's queue is in Remove, and has waited. */
  lemma QueuedRemoves(s: Sys, t: Tid)
    requires Clients(s) && t in s.k.Queue(CondQ(s.cond))
    ensures s.Of(t) == Removing(true)
  {
    assert PlaceOk(s.k, t, t, CondQ(s.cond)) && ClientOk(s, t);
  }

  /** A signaller dequeues a waiter: one fewer about to signal, one more woken. */
  lemma DequeueWaiters(s: Sys, t: Tid)
    requires Clients(s) && WaitersOk(s) && Enabled(s.k, Resume(t))
    requires s.k.PcOf(t).Signalling? && s.k.PcOf(t).c == s.cond
    ensures WaitersOk(s.(k := Apply(s.k, Resume(t))))
  {
    var s', q := s.(k := Apply(s.k, Resume(t))), s.k.Queue(CondQ(s.cond));
    SignallingPc(s.k, t);
    PendingStays(s, Resume(t));
    if q != [] {
      var h := q[0];
      QueuedRemoves(s, h);
      assert PlaceOk(s.k, h, t, CondQ(s.cond));
      hide Apply, Inv, Clients;
      assert h !in q[1..] && h !in Woken(s);
      assert Woken(s) + {h} <= Woken(s');
      CardMonotone(Woken(s) + {h}, Woken(s'));
      CardMonotone(Pending(s) - {t}, Pending(s'));
    }
  }

  lemma QuietWaiters(s: Sys, e: Event)
    requires Clients(s) && WaitersOk(s) && Allowed(s, Elsewhere(e))
    requires !(e.Resume? && s.k.PcOf(e.t).Signalling? && s.k.PcOf(e.t).c == s.cond)
    ensures WaitersOk(s.(k := Apply(s.k, e)))
  {
    if e.CallWait? {
      assert ClientOk(s, e.t);
    }
    var s' := s.(k := Apply(s.k, e));
    CondFrame(s.k, e, s.cond);
    PendingStays(s, e);
    hide Apply, Enabled, Clients;
    assert Woken(s') == Woken(s);
    assert Pending(s) <= Pending(s');
    CardMonotone(Pending(s), Pending(s'));
  }

  /** One more item, one more thread about to wake a waiter. */
  lemma PutWaiters(s: Sys, t: Tid)
    requires ListInv(s) && Allowed(s, PutItem(t)) && Enabled(s.k, EventOf(s, PutItem(t)))
    ensures WaitersOk(Do(s, PutItem(t)))
  {
    var e, s' := EventOf(s, PutItem(t)), Do(s, PutItem(t));
    CallEffect(s.k, e);
    PendingStays(s, e);
    CondFrame(s.k, e, s.cond);
    hide Apply, Enabled, Clients;
    assert t !in Pending(s) && Pending(s) + {t} <= Pending(s');
    CardMonotone(Pending(s) + {t}, Pending(s'));
    assert Woken(s') == Woken(s);
  }

  /** A step that leaves the condition's queue alone loses at most its own thread from the woken ones. */
  lemma WokenLeast(s: Sys, s': Sys, t: Tid, c: Client)
    requires s'.clients == s.clients[t := c] && s'.cond == s.cond
    requires s'.k.Queue(CondQ(s.cond)) == s.k.Queue(CondQ(s.cond)) && c != Removing(true)
    ensures Woken(s') == Woken(s) - {t} && |Woken(s')| >= |Woken(s)| - 1
    ensures s.Of(t) != Removing(true) ==> Woken(s') == Woken(s)
  {
    assert Woken(s') == Woken(s) - {t};
  }

  lemma OwnWaiters(s: Sys, st: Step)
    requires ListInv(s) && Allowed(s, st) && !st.Elsewhere? && !st.PutItem? && Enabled(s.k, EventOf(s, st))
    ensures WaitersOk(Do(s, st))
  {
    var e, s', t := EventOf(s, st), Do(s, st), st.t;
    if !e.CallWait? {
      PendingStays(s, e);
      CondFrame(s.k, e, s.cond);
      hide Apply, Enabled, Clients, Woken;
      CardMonotone(Pending(s), Pending(s'));
      WokenLeast(s, s', t, s'.Of(t));
    }
  }

  /** Every step, of the list's code or elsewhere, keeps the invariant. */
  lemma StepListInv(s: Sys, st: Step)
    requires ListInv(s) && Allowed(s, st)
    ensures Enabled(s.k, EventOf(s, st)) && ListInv(Do(s, st))
    ensures st.Check? && s.list != [] ==> s.list[0] != Null
  {
    CallsEnabled(s, st);
    hide Clients, WaitersOk;
    if st.Elsewhere? {
      ElsewhereClients(s, st.e);
      if st.e.Resume? && s.k.PcOf(st.e.t).Signalling? && s.k.PcOf(st.e.t).c == s.cond {
        DequeueWaiters(s, st.e.t);
      } else {
        QuietWaiters(s, st.e);
      }
    } else {
      OwnClients(s, st);
      if st.PutItem? {
        PutWaiters(s, st.t);
      } else {
        OwnWaiters(s, st);
      }
      OwnFifo(s, st);
    }
  }

  lemma OwnFifo(s: Sys, st: Step)
    requires Clients(s) && Fifo(s) && Allowed(s, st)
    ensures Fifo(Effect(s, st))
  {
    if st.PutItem? {
      assert ClientOk(s, st.t);
    }
    assert st.Check? && s.list != [] ==> s.list == [s.list[0]] + s.list[1..];
  }

  ghost predicate LegalSteps(s: Sys, sts: seq<Step>)
    decreases |sts|
  {
    sts == [] || (Allowed(s, sts[0]) && Enabled(s.k, EventOf(s, sts[0])) && LegalSteps(Do(s, sts[0]), sts[1..]))
  }

  ghost function After(s: Sys, sts: seq<Step>): Sys
    requires LegalSteps(s, sts)
    decreases |sts|
  {
    if sts == [] then s else After(Do(s, sts[0]), sts[1..])
  }

  lemma StartInv(s: Sys)
    requires Start(s)
    ensures ListInv(s)
  {
    InitInv(s.k);
    forall t ensures ClientOk(s, t) {
    }
  }

  /** Over every run the list is a queue: what was removed, then what is there, is what was appended. */
  lemma {:induction false} RunListInv(s: Sys, sts: seq<Step>)
    requires ListInv(s) && LegalSteps(s, sts)
    ensures ListInv(After(s, sts))
    decreases |sts|
  {
    if sts != [] {
      StepListInv(s, sts[0]);
      hide ListInv;
      RunListInv(Do(s, sts[0]), sts[1..]);
    }
  }

  // ---- the list, from the steps alone ----

  /** What `t` last called Append with. */
  function Handed(sts: seq<Step>, t: Tid): Option<Item> {
    if sts == [] then None
    else
      var st, before := sts[|sts| - 1], sts[..|sts| - 1];
      if st.BeginAppend? && st.t == t then Some(st.x) else Handed(before, t)
  }

  /** The items put on the list, each its caller's, in the order of the puts. */
  function ItemsPut(sts: seq<Step>): seq<Item> {
    if sts == [] then []
    else
      var st, before := sts[|sts| - 1], sts[..|sts| - 1];
      if st.PutItem? && Handed(before, st.t).Some? then ItemsPut(before) + [Handed(before, st.t).value]
      else ItemsPut(before)
  }

  /** The callers of Remove that found an item, in the order in which they looked. */
  function Takers(sts: seq<Step>): seq<Tid> {
    if sts == [] then []
    else
      var st, before := sts[|sts| - 1], sts[..|sts| - 1];
      if st.Check? && |Takers(before)| < |ItemsPut(before)| then Takers(before) + [st.t] else Takers(before)
  }

  ghost predicate HandedOk(sts: seq<Step>, s: Sys, t: Tid) {
    s.Of(t).Appending? ==> Handed(sts, t) == Some(s.Of(t).x)
  }

  /** The lists of the state are those the steps so far make. */
  ghost predicate History(sts: seq<Step>, s: Sys) {
    && (forall t :: HandedOk(sts, s, t))
    && s.appended == ItemsPut(sts) && |s.removed| == |Takers(sts)|
    && forall i :: 0 <= i < |s.removed| ==> s.removed[i].to == Takers(sts)[i]
  }

  lemma StepHistory(sts: seq<Step>, s: Sys, st: Step)
    requires Fifo(s) && History(sts, s) && Allowed(s, st) && Enabled(s.k, EventOf(s, st))
    ensures History(sts + [st], Do(s, st))
  {
    var sts', s' := sts + [st], Do(s, st);
    assert sts'[|sts'| - 1] == st && sts'[..|sts'| - 1] == sts;
    assert |s.removed| + |s.list| == |s.appended|;
    if st.PutItem? {
      assert HandedOk(sts, s, st.t);
    }
    hide Apply, Enabled, Allowed, Fifo;
    forall t ensures HandedOk(sts', s', t) {
      assert HandedOk(sts, s, t);
    }
  }

  lemma {:induction false} RunHistory(before: seq<Step>, s: Sys, sts: seq<Step>)
    requires ListInv(s) && LegalSteps(s, sts) && History(before, s)
    ensures ListInv(After(s, sts)) && History(before + sts, After(s, sts))
    decreases |sts|
  {
    if sts == [] {
      assert before + sts == before;
    } else {
      StepListInv(s, sts[0]);
      StepHistory(before, s, sts[0]);
      hide ListInv, History, Do, Allowed, Enabled;
      assert (before + [sts[0]]) + sts[1..] == before + sts;
      RunHistory(before + [sts[0]], Do(s, sts[0]), sts[1..]);
    }
  }

  /**
   In every run from the start, the k-th caller of Remove that finds an item is
   given the k-th item put, and the list holds the items put after those.
   */
  lemma QueueOfItemsPut(s: Sys, sts: seq<Step>)
    requires Start(s) && LegalSteps(s, sts)
    ensures |After(s, sts).removed| == |Takers(sts)| <= |ItemsPut(sts)|
    ensures After(s, sts).appended == ItemsPut(sts) && After(s, sts).list == ItemsPut(sts)[|Takers(sts)|..]
    ensures forall k :: 0 <= k < |Takers(sts)| ==> After(s, sts).removed[k] == Taken(Takers(sts)[k], ItemsPut(sts)[k])
  {
    StartInv(s);
    assert forall t :: HandedOk([], s, t);
    assert [] + sts == sts;
    RunHistory([], s, sts);
    var s', n := After(s, sts), |Takers(sts)|;
    assert Fifo(s');
    hide ListInv, After, LegalSteps;
    forall k | 0 <= k < n ensures s'.removed[k] == Taken(Takers(sts)[k], ItemsPut(sts)[k]) {
      assert Items(s'.removed)[k] == (Items(s'.removed) + s'.list)[k];
    }
  }

  // ---- an idle machine ----

  /** A thread that holds the lock, or signals, can run. */
  lemma HolderRuns(s: Sys, t: Tid)
    requires Clients(s) && Holds(s.k, t, s.lock)
    ensures s.k.cur == Some(t) || t in s.k.Queue(ReadyList)
  {
    assert ClientOk(s, t) && PlaceOk(s.k, t, t, ReadyList);
  }

  /** When no thread can run, nobody waits in Remove while the list holds an item. */
  lemma IdleListEmpty(s: Sys)
    requires ListInv(s) && s.k.cur == None && s.k.Queue(ReadyList) == []
    ensures s.k.Queue(CondQ(s.cond)) != [] ==> s.list == []
    ensures s.k.Queue(LockQ(User(s.lock))) == []
  {
    var l := User(s.lock);
    if s.k.LockOf(l).active.Some? {
      HolderRuns(s, s.k.LockOf(l).active.value);
    }
    IdleMeansBlocked(s.k, l, 0);
    forall t ensures t !in Pending(s) && t !in Woken(s) {
      NobodyWoken(s, t);
    }
    assert Pending(s) == {} && Woken(s) == {};
  }

  lemma NobodyWoken(s: Sys, t: Tid)
    requires Clients(s) && s.k.cur == None && s.k.Queue(ReadyList) == []
    requires s.k.Queue(LockQ(User(s.lock))) == [] && s.k.LockOf(User(s.lock)).active == None
    ensures t !in Pending(s) && t !in Woken(s)
  {
    var l := User(s.lock);
    assert PlaceOk(s.k, t, t, ReadyList) && PlaceOk(s.k, t, t, LockQ(l)) && PlaceOk(s.k, t, t, CondQ(s.cond));
    assert ClientOk(s, t);
    var p := PlaceOf(s.k, t);
    var v := if p.HeldBy? then p.u else t;
    assert PlaceOk(s.k, t, v, ReadyList) && PlaceOk(s.k, v, v, ReadyList);
  }
}
