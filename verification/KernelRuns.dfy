/**
 What holds over whole runs of the synchronisation kernel: one place for every
 thread, mutual exclusion, no lost wake-ups, and what Signal and Broadcast do.
 */
module KernelRuns {
  import opened Options
  import opened Kernel

  /** The thread whose code an event runs. */
  function Actor(s: State, e: Event): Option<Tid> {
    match e
    case HandlerV(_) => None
    case Dispatch => None
    case Preempt(_) => None
    case CallP(t, _) => Some(t)
    case CallV(t, _) => Some(t)
    case CallAcquire(t, _) => Some(t)
    case CallRelease(t, _) => Some(t)
    case CallWait(t, _) => Some(t)
    case CallSignal(t, _, _) => Some(t)
    case Resume(t) => Some(t)
    case Fork(t, _) => Some(t)
    case Finish(t) => Some(t)
  }

  predicate Signaller(pc: Pc) { pc.Signalling? || pc.Dequeued? }

  // ---- what a step leaves alone ----

  /** How a thread's program counter may change while another thread runs. */
  predicate Passive(pc: Pc, pc': Pc) {
    pc' == pc || (pc.InWait? && pc'.InWait? && pc'.c == pc.c) || (pc.New? && pc'.Code?) || (pc.NotStarted? && pc'.New?)
  }

  /** Releasing a lock moves at most one thread, from the lock's queue to the ready list. */
  lemma DropFrame(s: State, l: LockId, t: Tid)
    ensures var s' := Drop(s, l, t);
            && s'.pcs == s.pcs && s'.guards == s.guards && s'.cur == s.cur && s'.sems == s.sems && s'.doomed == s.doomed
            && forall q :: q != ReadyList && q != LockQ(l) ==> s'.Queue(q) == s.Queue(q)
  {
  }

  lemma SignallingPc(s: State, t: Tid)
    requires s.PcOf(t).Signalling?
    ensures var pc, c, s' := s.PcOf(t), s.PcOf(t).c, Continue(s, t);
            var q := s.Queue(CondQ(c));
            && s'.pcs == (if q == [] then s.pcs[t := Dequeued(c, pc.all, pc.entry, pc.woken, None)]
                          else s.pcs[q[0] := InWait(c, Some(t))]
                                    [t := Dequeued(c, pc.all, pc.entry, pc.woken, Some(q[0]))])
            && s'.Queue(CondQ(c)) == (if q == [] then q else q[1..])
            && s'.cur == s.cur && s'.guards == s.guards && s'.sems == s.sems
  {
    hide Drop;
    var pc, c := s.PcOf(t), s.PcOf(t).c;
    var q := s.Queue(CondQ(c));
    var s1 := if q == [] then SetPc(s, t, Dequeued(c, pc.all, pc.entry, pc.woken, None))
              else SetPc(Dequeue(s, t, c), t, Dequeued(c, pc.all, pc.entry, pc.woken, Some(q[0])));
    DropFrame(s1, QueueLock(c), t);
  }

  lemma TryAcquirePc(s: State, t: Tid, l: LockId, after: After)
    ensures var s' := TryAcquire(s, t, l, after); s'.pcs == s.pcs[t := s'.PcOf(t)] && s'.guards == s.guards
    ensures s.LockOf(l).free && after.Return? ==> TryAcquire(s, t, l, after).PcOf(t) == Code
  {
    hide Drop;
    DropFrame(Take(s, l, t), l, t);
  }

  lemma ContinuePc(s: State, t: Tid, u: Tid)
    requires Places(s) && s.cur == Some(t) && u != t
    ensures Passive(s.PcOf(u), Continue(s, t).PcOf(u))
  {
    match s.PcOf(t)
    case InP(x) =>
    case InAcquire(l, after) => TryAcquirePc(s, t, l, after);
    case InWait(c, _) => TryAcquirePc(s, t, s.Guard(c), Return);
    case Signalling(c, all, entry, woken) =>
      SignallingPc(s, t);
      if s.Queue(CondQ(c)) != [] {
        assert PlaceOk(s, s.Queue(CondQ(c))[0], t, CondQ(c));
      }
    case Dequeued(c, all, entry, woken, taken) =>
      if taken.Some? && all {
        TryAcquirePc(ReadyToRun(s, taken.value), t, QueueLock(c), ToSignal(c, all, entry, woken + [taken.value]));
      }
    case _ =>
  }

  lemma SwitchPc(s: State, u: Tid)
    requires s.Queue(ReadyList) != []
    ensures Passive(s.PcOf(u), SwitchTo(s).PcOf(u))
  {
  }

  /** Only a thread's own steps move it through the kernel's code. */
  lemma PcFrame(s: State, e: Event, u: Tid)
    requires Places(s) && Enabled(s, e) && Actor(s, e) != Some(u)
    ensures Passive(s.PcOf(u), Apply(s, e).PcOf(u))
  {
    hide Drop, TryAcquire, Continue, SwitchTo;
    match e
    case Preempt(t) => SwitchPc(ReadyToRun(s, t), u);
    case Dispatch => SwitchPc(s, u);
    case CallAcquire(t, n) => TryAcquirePc(s, t, User(n), Return);
    case CallRelease(t, n) => DropFrame(s, User(n), t);
    case CallWait(t, c) =>
      DropFrame(s, s.Guard(c), t);
      TryAcquirePc(Drop(s, s.Guard(c), t), t, QueueLock(c), ToWait(c));
    case CallSignal(t, c, all) => TryAcquirePc(s, t, QueueLock(c), ToSignal(c, all, s.Queue(CondQ(c)), []));
    case Resume(t) => ContinuePc(s, t, u);
    case _ =>
  }

  /** A condition's queue grows only by Wait on it and shrinks only by a signaller of it. */
  lemma CondFrame(s: State, e: Event, c: int)
    requires Locks(s) && Enabled(s, e)
    requires !(e.CallWait? && e.c == c)
    requires !(e.Resume? && s.PcOf(e.t).Signalling? && s.PcOf(e.t).c == c)
    ensures Apply(s, e).Queue(CondQ(c)) == s.Queue(CondQ(c))
  {
    if e.Resume? {
      assert LockOk(s, e.t, c, User(0));
    }
    hide Drop, TryAcquire, Continue, Locks, SwitchTo, DoV, TryP;
    match e
    case CallRelease(t, n) => DropFrame(s, User(n), t);
    case CallWait(t, d) => WaitQueue(s, t, d, c);
    case CallSignal(t, d, all) => AcquireQueue(s, t, QueueLock(d), ToSignal(d, all, s.Queue(CondQ(d)), []), c);
    case CallAcquire(t, n) => AcquireQueue(s, t, User(n), Return, c);
    case Resume(t) => ContinueQueue(s, t, c);
    case _ => PlainQueue(s, e, c);
  }

  /** Events that take no lock. */
  lemma PlainQueue(s: State, e: Event, c: int)
    requires Enabled(s, e)
    requires e.CallP? || e.CallV? || e.HandlerV? || e.Preempt? || e.Dispatch? || e.Fork? || e.Finish?
    ensures Apply(s, e).Queue(CondQ(c)) == s.Queue(CondQ(c))
  {
    hide Drop, TryAcquire, Continue;
  }

  lemma AcquireQueue(s: State, t: Tid, l: LockId, after: After, c: int)
    requires !after.ToWait?
    ensures TryAcquire(s, t, l, after).Queue(CondQ(c)) == s.Queue(CondQ(c))
  {
  }

  lemma WaitQueue(s: State, t: Tid, d: int, c: int)
    requires Enabled(s, CallWait(t, d))
    ensures d != c ==> Apply(s, CallWait(t, d)).Queue(CondQ(c)) == s.Queue(CondQ(c))
  {
    hide Drop;
    DropFrame(s, s.Guard(d), t);
    var s1 := Drop(s, s.Guard(d), t);
    var s2 := Take(s1, QueueLock(d), t);
    DropFrame(s2, QueueLock(d), t);
    assert s1.Queue(CondQ(c)) == s.Queue(CondQ(c)) && s2.Queue(CondQ(c)) == s1.Queue(CondQ(c));
    assert Drop(s2, QueueLock(d), t).Queue(CondQ(c)) == s.Queue(CondQ(c));
  }

  lemma SignallingQueue(s: State, t: Tid, c: int)
    requires s.PcOf(t).Signalling? && s.PcOf(t).c != c
    ensures Continue(s, t).Queue(CondQ(c)) == s.Queue(CondQ(c))
  {
    hide Drop, TryAcquire;
    var pc, w := s.PcOf(t), s.Queue(CondQ(s.PcOf(t).c));
    var pc' := Dequeued(pc.c, pc.all, pc.entry, pc.woken, if w == [] then None else Some(w[0]));
    DropFrame(SetPc(if w == [] then s else Dequeue(s, t, pc.c), t, pc'), QueueLock(pc.c), t);
  }

  lemma ContinueQueue(s: State, t: Tid, c: int)
    requires !(s.PcOf(t).Signalling? && s.PcOf(t).c == c)
    requires s.PcOf(t).InAcquire? ==> !s.PcOf(t).after.ToWait?
    ensures Continue(s, t).Queue(CondQ(c)) == s.Queue(CondQ(c))
  {
    hide Drop, TryAcquire;
    match s.PcOf(t)
    case InAcquire(l, after) => AcquireQueue(s, t, l, after, c);
    case InWait(d, _) => AcquireQueue(s, t, s.Guard(d), Return, c);
    case Signalling(d, all, entry, woken) => SignallingQueue(s, t, c);
    case Dequeued(d, all, entry, woken, taken) =>
      if taken.Some? && all {
        AcquireQueue(ReadyToRun(s, taken.value), t, QueueLock(d), ToSignal(d, all, entry, woken + [taken.value]), c);
      }
    case _ =>
  }

  // ---- Signal and Broadcast ----

  function Listed(taken: Option<Tid>): seq<Tid> {
    if taken.None? then [] else [taken.value]
  }

  /**
   A signaller has woken, in order, a prefix of the threads queued when it was
   called; the thread in its hands comes next, and the condition's queue still
   holds the rest.
   */
  ghost predicate CondOk(s: State, t: Tid) {
    match s.PcOf(t)
    case Signalling(c, all, entry, woken) => woken + s.Queue(CondQ(c)) == entry && (!all ==> woken == [])
    case Dequeued(c, all, entry, woken, taken) =>
      && woken + Listed(taken) + s.Queue(CondQ(c)) == entry && (!all ==> woken == [])
      && (taken.None? ==> s.Queue(CondQ(c)) == [])
    case _ => true
  }

  ghost predicate Conds(s: State) {
    forall t :: CondOk(s, t)
  }

  /** While a thread is inside Signal or Broadcast no other thread touches the condition's queue. */
  lemma OthersConds(s: State, e: Event, u: Tid)
    requires Places(s) && Locks(s) && CondOk(s, u) && Enabled(s, e) && Actor(s, e) != Some(u)
    ensures CondOk(Apply(s, e), u)
  {
    PcFrame(s, e, u);
    if Signaller(s.PcOf(u)) {
      var c := s.PcOf(u).c;
      assert LockOk(s, u, c, User(0));
      if e.Resume? {
        assert LockOk(s, e.t, c, User(0)) && PlaceOk(s, e.t, u, ReadyList);
      }
      CondFrame(s, e, c);
    }
  }

  lemma SignallerConds(s: State, t: Tid)
    requires Locks(s) && CondOk(s, t) && s.cur == Some(t) && Signaller(s.PcOf(t))
    ensures CondOk(Continue(s, t), t)
  {
    var c := s.PcOf(t).c;
    if s.PcOf(t).Signalling? {
      SignallingPc(s, t);
      hide Continue, Locks;
    } else {
      var pc := s.PcOf(t);
      assert LockOk(s, t, c, QueueLock(c));
      hide Drop;
      if pc.taken.Some? && pc.all {
        var s1 := ReadyToRun(s, pc.taken.value);
        SameLocks(s, s1);
        QueueLockFree(s1, t, c);
      }
    }
  }

  lemma StepConds(s: State, e: Event)
    requires Places(s) && Locks(s) && Conds(s) && Enabled(s, e)
    ensures Conds(Apply(s, e))
  {
    forall u ensures CondOk(Apply(s, e), u) {
      assert CondOk(s, u);
      if Actor(s, e) != Some(u) {
        OthersConds(s, e, u);
      } else if e.Resume? {
        if Signaller(s.PcOf(u)) {
          SignallerConds(s, u);
        } else {
          QuietConds(s, u);
        }
      } else {
        CallConds(s, e, u);
      }
    }
  }

  lemma QuietConds(s: State, t: Tid)
    requires Locks(s) && s.cur == Some(t) && !Signaller(s.PcOf(t))
    ensures !Signaller(Continue(s, t).PcOf(t))
  {
    assert LockOk(s, t, 0, User(0));
    hide Locks, Drop, TryAcquire;
    match s.PcOf(t)
    case InAcquire(l, after) => QuietAcquire(s, t, l);
    case InWait(c, _) => QuietAcquire(s, t, s.Guard(c));
    case _ =>
  }

  lemma QuietAcquire(s: State, t: Tid, l: LockId)
    ensures !Signaller(TryAcquire(s, t, l, Return).PcOf(t))
  {
  }

  lemma CallConds(s: State, e: Event, t: Tid)
    requires Locks(s) && Enabled(s, e) && Actor(s, e) == Some(t) && !e.Resume?
    ensures CondOk(Apply(s, e), t)
  {
    match e
    case CallWait(_, c) => WaitShape(s, t, c);
    case CallSignal(_, c, all) =>
      QueueLockFree(s, t, c);
    case CallRelease(_, n) =>
      hide Drop;
      DropFrame(s, User(n), t);
    case _ =>
  }

  // ---- runs ----

  /** The thread waiting to be deleted has finished. */
  ghost predicate DoomedOk(s: State) {
    s.doomed.Some? ==> s.PcOf(s.doomed.value) == Finished
  }

  /** The invariant of every run. */
  ghost predicate Inv(s: State) {
    Places(s) && Locks(s) && Wakes(s) && Conds(s) && DoomedOk(s)
  }

  ghost predicate Legal(s: State, es: seq<Event>)
    decreases |es|
  {
    es == [] || (Enabled(s, es[0]) && Legal(Apply(s, es[0]), es[1..]))
  }

  ghost function Exec(s: State, es: seq<Event>): State
    requires Legal(s, es)
    decreases |es|
  {
    if es == [] then s else Exec(Apply(s, es[0]), es[1..])
  }

  lemma InitInv(s: State)
    requires Init(s)
    ensures Inv(s)
  {
    forall u, v, q ensures PlaceOk(s, u, v, q) {
    }
    forall l, x ensures WakeOk(s, l, x) {
    }
    forall t, c, l ensures LockOk(s, t, c, l) {
    }
    forall t ensures CondOk(s, t) {
    }
  }

  /** A finished thread stays finished: no step of it is ever enabled again. */
  lemma FinishedStep(s: State, e: Event, t: Tid)
    requires Places(s) && Enabled(s, e) && s.PcOf(t) == Finished
    ensures Apply(s, e).PcOf(t) == Finished
  {
    assert PlaceOk(s, t, t, ReadyList);
    PcFrame(s, e, t);
  }

  lemma DoomedFrame(s: State, e: Event)
    requires Enabled(s, e)
    ensures Apply(s, e).doomed == s.doomed || Apply(s, e).doomed == None
            || (e.Finish? && Apply(s, e).doomed == Some(e.t))
  {
    match e
    case CallRelease(t, n) => DropFrame(s, User(n), t);
    case CallWait(t, c) => WaitDoomed(s, t, c);
    case Resume(t) => ContinueDoomed(s, t);
    case _ =>
  }

  lemma WaitDoomed(s: State, t: Tid, c: int)
    requires Enabled(s, CallWait(t, c))
    ensures Apply(s, CallWait(t, c)).doomed == s.doomed
  {
    hide Drop;
    DropFrame(s, s.Guard(c), t);
    DropFrame(Take(Drop(s, s.Guard(c), t), QueueLock(c), t), QueueLock(c), t);
  }

  lemma AcquireDoomed(s: State, t: Tid, l: LockId, after: After)
    ensures TryAcquire(s, t, l, after).doomed == s.doomed
  {
    hide Drop;
    DropFrame(Take(s, l, t), l, t);
  }

  lemma ContinueDoomed(s: State, t: Tid)
    ensures Continue(s, t).doomed == s.doomed
  {
    hide Drop, TryAcquire;
    match s.PcOf(t)
    case InAcquire(l, after) => AcquireDoomed(s, t, l, after);
    case InWait(c, _) => AcquireDoomed(s, t, s.Guard(c), Return);
    case Signalling(d, all, entry, woken) =>
      var pc' := Dequeued(d, all, entry, woken, if s.Queue(CondQ(d)) == [] then None else Some(s.Queue(CondQ(d))[0]));
      DropFrame(SetPc(if s.Queue(CondQ(d)) == [] then s else Dequeue(s, t, d), t, pc'), QueueLock(d), t);
    case Dequeued(c, all, entry, woken, taken) =>
      if taken.Some? && all {
        AcquireDoomed(ReadyToRun(s, taken.value), t, QueueLock(c), ToSignal(c, all, entry, woken + [taken.value]));
      }
    case _ =>
  }

  /** Every step keeps the invariant. */
  lemma StepInv(s: State, e: Event)
    requires Inv(s) && Enabled(s, e)
    ensures Inv(Apply(s, e))
  {
    StepPlaces(s, e);
    StepLocks(s, e);
    StepWakes(s, e);
    StepConds(s, e);
    DoomedFrame(s, e);
    hide Places, Locks, Wakes, Conds, TryAcquire, Continue, SwitchTo;
    if s.doomed.Some? {
      FinishedStep(s, e, s.doomed.value);
    }
  }

  /** Every run from the initial state, of whatever length, keeps the invariant. */
  lemma {:induction false} RunInv(s: State, es: seq<Event>)
    requires Inv(s) && Legal(s, es)
    ensures Inv(Exec(s, es))
    decreases |es|
  {
    if es != [] {
      StepInv(s, es[0]);
      RunInv(Apply(s, es[0]), es[1..]);
    }
  }
}
