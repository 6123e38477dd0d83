/**
 Consequences of the kernel's invariant, over single steps and whole runs.
 */
module KernelTheorems {
  import opened Options
  import opened Sequences
  import opened Kernel
  import opened KernelRuns

  // ---- where a thread is ----

  predicate Live(s: State, t: Tid) {
    !s.PcOf(t).NotStarted? && !s.PcOf(t).Finished?
  }

  /** The thread is running, ready, or on a wait queue, with the status to match. */
  ghost predicate Placed(s: State, t: Tid) {
    || (s.cur == Some(t) && s.StatusOf(t) == Running)
    || (t in s.Queue(ReadyList) && s.StatusOf(t) == Ready)
    || (s.StatusOf(t) == Blocked && exists q :: q != ReadyList && t in s.Queue(q))
  }

  /** Some signaller has taken the thread off a condition's queue and not made it ready yet. */
  ghost predicate InHand(s: State, t: Tid) {
    exists v :: s.Taken(v) == Some(t)
  }

  /** No thread is in two places, nor twice in one. */
  lemma OnePlace(s: State, t: Tid, q: QueueId, q': QueueId, v: Tid)
    requires Places(s)
    ensures Distinct(s.Queue(q))
    ensures t in s.Queue(q) && t in s.Queue(q') ==> q == q'
    ensures t in s.Queue(q) ==> s.cur != Some(t) && s.Taken(v) != Some(t) && Live(s, t)
    ensures s.cur == Some(t) ==> s.Taken(v) != Some(t) && Live(s, t)
  {
    assert PlaceOk(s, t, v, q) && PlaceOk(s, t, v, q');
  }

  /** A live thread is running, ready or on a wait queue exactly when no signaller has it in hand. */
  lemma PlacedUnlessInHand(s: State, t: Tid)
    requires Places(s) && Live(s, t)
    ensures Placed(s, t) <==> !InHand(s, t)
  {
    var p := PlaceOf(s, t);
    assert PlaceOk(s, t, t, ReadyList);
    if p.In? {
      assert PlaceOk(s, t, t, p.q);
      assert t in s.Queue(p.q);
    } else if p.HeldBy? {
      assert PlaceOk(s, t, p.u, ReadyList);
    }
    if InHand(s, t) {
      var v :| s.Taken(v) == Some(t);
      assert PlaceOk(s, t, v, ReadyList);
      forall q ensures t !in s.Queue(q) {
        assert PlaceOk(s, t, v, q);
      }
    }
  }

  /** Between its queue lock and `ReadyToRun`, Signal leaves the thread it wakes on no queue at all. */
  function InHandRun(): seq<Event> {
    FirstHalf() + SecondHalf()
  }

  function FirstHalf(): seq<Event> { [Fork(0, 1), CallAcquire(0, 0)] + [CallWait(0, 0), Dispatch] }

  function SecondHalf(): seq<Event> { [CallAcquire(1, 0), CallSignal(1, 0, false)] + [Resume(1)] }

  function Boot(): State {
    State(Some(0), map[], map[], map[], map[0 := Code], map[0 := Running], None, map[])
  }

  /** Thread 1 is ready and thread 0 holds the lock of condition 0. */
  function Forked(): State {
    State(Some(0), map[ReadyList := [1]], map[User(0) := LockState(false, Some(0))], map[],
          map[0 := Code, 1 := New], map[0 := Running, 1 := Ready], None, map[])
  }

  /** Thread 0 waits on condition 0, thread 1 runs. */
  function Midway(): State {
    var free := LockState(true, None);
    State(Some(1), map[ReadyList := [], CondQ(0) := [0]], map[User(0) := free, QueueLock(0) := free], map[],
          map[0 := InWait(0, None), 1 := Code], map[0 := Blocked, 1 := Running], None, map[])
  }

  /** Thread 1 is inside Signal, with the queue lock. */
  function Inside(): State {
    Midway().(locks := map[User(0) := LockState(false, Some(1)), QueueLock(0) := LockState(false, Some(1))],
              pcs := map[0 := InWait(0, None), 1 := Signalling(0, false, [0], [])])
  }

  lemma {:induction false} ExecConcat(s: State, a: seq<Event>, b: seq<Event>)
    requires Legal(s, a) && Legal(Exec(s, a), b)
    ensures Legal(s, a + b) && Exec(s, a + b) == Exec(Exec(s, a), b)
    decreases |a|
  {
    hide Apply, Enabled;
    if a == [] {
      assert a + b == b;
    } else {
      ExecConcat(Apply(s, a[0]), a[1..], b);
      assert (a + b)[0] == a[0] && (a + b)[1..] == a[1..] + b;
    }
  }

  lemma Unroll(s: State, e: Event, es: seq<Event>)
    requires Enabled(s, e) && Legal(Apply(s, e), es)
    ensures Legal(s, [e] + es) && Exec(s, [e] + es) == Exec(Apply(s, e), es)
  {
    assert ([e] + es)[1..] == es;
  }

  lemma ToForked()
    ensures Legal(Boot(), [Fork(0, 1), CallAcquire(0, 0)]) && Exec(Boot(), [Fork(0, 1), CallAcquire(0, 0)]) == Forked()
  {
    var s1 := Apply(Boot(), Fork(0, 1));
    var s2 := Apply(s1, CallAcquire(0, 0));
    assert s2.queues[ReadyList] == [1];
    assert s2.queues == Forked().queues && s2.locks == Forked().locks && s2.pcs == Forked().pcs
           && s2.status == Forked().status;
    Unroll(s1, CallAcquire(0, 0), []);
    Unroll(Boot(), Fork(0, 1), [CallAcquire(0, 0)]);
  }

  lemma ToMidway()
    ensures Legal(Forked(), [CallWait(0, 0), Dispatch]) && Exec(Forked(), [CallWait(0, 0), Dispatch]) == Midway()
  {
    FallsAsleep();
    WakesOther();
    hide Apply, Enabled;
    Unroll(Asleep(), Dispatch, []);
    Unroll(Forked(), CallWait(0, 0), [Dispatch]);
  }

  /** Thread 0 has gone to sleep on condition 0, and thread 1 is still to be dispatched. */
  function Asleep(): State {
    Midway().(cur := None, queues := map[ReadyList := [1], CondQ(0) := [0]],
              pcs := map[0 := InWait(0, None), 1 := New], status := map[0 := Blocked, 1 := Ready])
  }

  lemma FallsAsleep()
    ensures Enabled(Forked(), CallWait(0, 0)) && Apply(Forked(), CallWait(0, 0)) == Asleep()
  {
    ReleasesBoth();
    hide Drop, Take;
    var s2 := Forked().(locks := Midway().locks);
    BlocksOn(s2);
  }

  lemma ReleasesBoth()
    ensures var s1 := Drop(Forked(), User(0), 0);
            s1.LockOf(QueueLock(0)).free && Drop(Take(s1, QueueLock(0), 0), QueueLock(0), 0)
                                            == Forked().(locks := Midway().locks)
  {
    var s1 := Drop(Forked(), User(0), 0);
    assert s1 == Forked().(locks := map[User(0) := LockState(true, None)]);
    hide Drop;
    DropUnwaited(Take(s1, QueueLock(0), 0), QueueLock(0), 0);
    assert map[User(0) := LockState(true, None)][QueueLock(0) := LockState(false, Some(0))]
              [QueueLock(0) := LockState(true, None)] == Midway().locks;
  }

  lemma DropUnwaited(s: State, l: LockId, t: Tid)
    requires s.LockOf(l).active == Some(t) && s.Queue(LockQ(l)) == []
    ensures Drop(s, l, t) == s.(locks := s.locks[l := LockState(true, None)])
  {
  }

  lemma BlocksOn(s: State)
    requires s == Forked().(locks := Midway().locks)
    ensures Block(s, 0, CondQ(0), InWait(0, None)) == Asleep()
  {
    var s3 := Block(s, 0, CondQ(0), InWait(0, None));
    assert s3.queues[CondQ(0)] == [0];
    assert s3.queues == Asleep().queues && s3.pcs == Asleep().pcs && s3.status == Asleep().status;
  }

  lemma WakesOther()
    ensures Enabled(Asleep(), Dispatch) && Apply(Asleep(), Dispatch) == Midway()
  {
    var s1 := Asleep();
    var s2 := Apply(s1, Dispatch);
    assert s1.Queue(ReadyList) == [1] && [1][1..] == [];
    assert s2.queues[ReadyList] == [] && s2.queues[CondQ(0)] == [0];
    assert s2.queues == Midway().queues && s2.pcs == Midway().pcs && s2.status == Midway().status;
  }

  lemma ToInside()
    ensures Legal(Midway(), [CallAcquire(1, 0), CallSignal(1, 0, false)])
    ensures Exec(Midway(), [CallAcquire(1, 0), CallSignal(1, 0, false)]) == Inside()
  {
    var s1 := Apply(Midway(), CallAcquire(1, 0));
    assert Apply(s1, CallSignal(1, 0, false)) == Inside();
    hide Apply;
    Unroll(s1, CallSignal(1, 0, false), []);
    Unroll(Midway(), CallAcquire(1, 0), [CallSignal(1, 0, false)]);
  }

  lemma FromInside()
    ensures Legal(Inside(), [Resume(1)])
    ensures Exec(Inside(), [Resume(1)]).Taken(1) == Some(0) && Live(Exec(Inside(), [Resume(1)]), 0)
  {
    SignallingPc(Inside(), 1);
    hide Continue;
    Unroll(Inside(), Resume(1), []);
  }

  lemma NotAlwaysPlaced()
    ensures Init(Boot()) && Legal(Boot(), InHandRun())
    ensures var s := Exec(Boot(), InHandRun()); Live(s, 0) && !Placed(s, 0)
  {
    ToForked();
    ToMidway();
    ToInside();
    FromInside();
    hide Apply, Enabled;
    ExecConcat(Midway(), [CallAcquire(1, 0), CallSignal(1, 0, false)], [Resume(1)]);
    ExecConcat(Boot(), [Fork(0, 1), CallAcquire(0, 0)], [CallWait(0, 0), Dispatch]);
    ExecConcat(Boot(), FirstHalf(), SecondHalf());
    InitInv(Boot());
    RunInv(Boot(), InHandRun());
    PlacedUnlessInHand(Exec(Boot(), InHandRun()), 0);
  }

  // ---- locks ----

  /** The event by which `t` gives up user lock `n`: its own Release, or a Wait on a condition `n` protects. */
  predicate GivesUp(s: State, e: Event, t: Tid, n: int) {
    e == CallRelease(t, n) || (e.CallWait? && e.t == t && s.Guard(e.c) == User(n))
  }

  lemma ContinueHolder(s: State, t: Tid, n: int)
    requires Locks(s) && s.cur == Some(t) && s.LockOf(User(n)).active.Some?
    ensures Continue(s, t).LockOf(User(n)) == s.LockOf(User(n))
  {
    assert LockOk(s, t, 0, User(n)) && LockOk(s, t, 0, User(0));
    if s.PcOf(t).Signalling? {
      SignallingShape(s, t);
      hide Continue, Locks;
    } else {
      hide Locks, Drop, TryAcquire, Dequeue;
      match s.PcOf(t)
      case InAcquire(l, after) => BusyHolder(s, t, l, Return, n);
      case InWait(c, _) => BusyHolder(s, t, s.Guard(c), Return, n);
      case Dequeued(c, all, entry, woken, taken) =>
        if taken.Some? && all {
          BusyHolder(ReadyToRun(s, taken.value), t, QueueLock(c), ToSignal(c, all, entry, woken + [taken.value]), n);
        }
      case _ =>
    }
  }

  /** Nobody takes a lock that is not free. */
  lemma BusyHolder(s: State, t: Tid, l: LockId, after: After, n: int)
    requires !s.LockOf(User(n)).free && !after.ToWait?
    ensures TryAcquire(s, t, l, after).LockOf(User(n)) == s.LockOf(User(n))
  {
  }

  /** A lock that is held stays with its holder until the holder itself gives it up, and is then free. */
  lemma HolderStep(s: State, e: Event, n: int)
    requires Locks(s) && Enabled(s, e) && s.LockOf(User(n)).active.Some?
    ensures var t := s.LockOf(User(n)).active.value;
            Apply(s, e).LockOf(User(n)) == if GivesUp(s, e, t, n) then LockState(true, None) else s.LockOf(User(n))
  {
    assert LockOk(s, 0, 0, User(n));
    match e
    case CallRelease(t, m) => if s.LockOf(User(m)).active == Some(t) { DropShape(s, User(m), t); }
    case CallWait(t, c) => WaitShape(s, t, c);
    case Resume(t) => ContinueHolder(s, t, n);
    case _ =>
  }

  /** None of these events gives up lock `n` for `t`. */
  ghost predicate KeepsLock(s: State, es: seq<Event>, t: Tid, n: int)
    requires Legal(s, es)
    decreases |es|
  {
    es == [] || (!GivesUp(s, es[0], t, n) && KeepsLock(Apply(s, es[0]), es[1..], t, n))
  }

  /** Over any run, only the holder's own Release or Wait can take a lock from it. */
  lemma {:induction false} HeldUntilReleased(s: State, es: seq<Event>, t: Tid, n: int)
    requires Inv(s) && Legal(s, es) && s.LockOf(User(n)).active == Some(t) && KeepsLock(s, es, t, n)
    ensures Exec(s, es).LockOf(User(n)).active == Some(t)
    decreases |es|
  {
    if es != [] {
      HolderStep(s, es[0], n);
      StepInv(s, es[0]);
      HeldUntilReleased(Apply(s, es[0]), es[1..], t, n);
    }
  }

  /** Acquire returns, at once or after waiting, only with the lock in the caller's hands, and it was free. */
  lemma AcquireReturns(s: State, e: Event, t: Tid, n: int)
    requires Inv(s) && Enabled(s, e) && Apply(s, e).PcOf(t) == Code
    requires e == CallAcquire(t, n) || (e == Resume(t) && s.PcOf(t) == InAcquire(User(n), Return))
          || (e == Resume(t) && s.PcOf(t).InWait? && s.Guard(s.PcOf(t).c) == User(n))
    ensures s.LockOf(User(n)).active == None && Apply(s, e).LockOf(User(n)) == LockState(false, Some(t))
  {
    assert LockOk(s, t, 0, User(n));
  }

  // ---- finished threads ----

  /** A finished thread never runs again and is on no queue. */
  lemma {:induction false} FinishedForever(s: State, es: seq<Event>, t: Tid)
    requires Inv(s) && Legal(s, es) && s.PcOf(t) == Finished
    ensures Exec(s, es).PcOf(t) == Finished && Exec(s, es).cur != Some(t)
    ensures forall q :: t !in Exec(s, es).Queue(q)
    decreases |es|
  {
    if es != [] {
      FinishedStep(s, es[0], t);
      StepInv(s, es[0]);
      FinishedForever(Apply(s, es[0]), es[1..], t);
    } else {
      assert PlaceOk(s, t, t, ReadyList);
      forall q ensures t !in s.Queue(q) {
        assert PlaceOk(s, t, t, q);
      }
    }
  }

  /** When the scheduler deletes a thread it is not the current one. */
  lemma DestructorSafe(s: State, e: Event)
    requires Inv(s) && Enabled(s, e) && s.doomed.Some? && Apply(s, e).doomed == None
    ensures Apply(s, e).cur != s.doomed && (e.Dispatch? || e.Preempt?)
  {
    FinishedStep(s, e, s.doomed.value);
    StepInv(s, e);
    assert PlaceOk(Apply(s, e), s.doomed.value, 0, ReadyList);
    OnlySwitchDeletes(s, e);
  }

  lemma OnlySwitchDeletes(s: State, e: Event)
    requires Enabled(s, e) && s.doomed.Some? && Apply(s, e).doomed == None
    ensures e.Dispatch? || e.Preempt?
  {
    hide Drop, TryAcquire, Continue, SwitchTo;
    match e
    case CallAcquire(t, n) => AcquireDoomed(s, t, User(n), Return);
    case CallSignal(t, c, all) => AcquireDoomed(s, t, QueueLock(c), ToSignal(c, all, s.Queue(CondQ(c)), []));
    case CallRelease(t, n) => DropFrame(s, User(n), t);
    case CallWait(t, c) => WaitDoomed(s, t, c);
    case Resume(t) => ContinueDoomed(s, t);
    case _ =>
  }

  // ---- an idle machine ----

  /**
   When no thread can run, no thread sleeps for something it could have: every
   lock waited for is held, and every semaphore waited for is at zero.
   */
  lemma IdleMeansBlocked(s: State, l: LockId, x: int)
    requires Inv(s) && s.cur == None && s.Queue(ReadyList) == []
    ensures s.Queue(LockQ(l)) != [] ==> s.LockOf(l).active.Some?
    ensures s.Queue(SemQ(x)) != [] ==> s.SemOf(x).value == 0
  {
    assert WakeOk(s, l, x) && LockOk(s, 0, 0, l);
    forall t ensures t !in WokenL(s, l) && t !in WokenP(s, x) {
      assert PlaceOk(s, t, t, ReadyList);
    }
    assert WokenL(s, l) == {} && WokenP(s, x) == {};
  }

  // ---- the ready list is first in, first out ----

  predicate Dispatches(e: Event) { e.Dispatch? || e.Preempt? }

  function DispatchCount(es: seq<Event>): nat {
    if es == [] then 0 else (if Dispatches(es[0]) then 1 else 0) + DispatchCount(es[1..])
  }

  /** `q'` is `q` with threads added at the end. */
  predicate Extends(q: seq<Tid>, q': seq<Tid>) {
    |q| <= |q'| && q'[..|q|] == q
  }

  lemma DropReady(s: State, l: LockId, t: Tid)
    ensures Extends(s.Queue(ReadyList), Drop(s, l, t).Queue(ReadyList))
  {
  }

  lemma AcquireReady(s: State, t: Tid, l: LockId, after: After)
    ensures Extends(s.Queue(ReadyList), TryAcquire(s, t, l, after).Queue(ReadyList))
  {
    hide Drop;
    DropReady(Take(s, l, t), l, t);
  }

  lemma ContinueReady(s: State, t: Tid)
    ensures Extends(s.Queue(ReadyList), Continue(s, t).Queue(ReadyList))
  {
    hide Drop, TryAcquire;
    match s.PcOf(t)
    case InP(x) =>
    case InAcquire(l, after) => AcquireReady(s, t, l, after);
    case InWait(c, _) => AcquireReady(s, t, s.Guard(c), Return);
    case Signalling(c, all, entry, woken) =>
      var q := s.Queue(CondQ(c));
      var pc' := Dequeued(c, all, entry, woken, if q == [] then None else Some(q[0]));
      DropReady(SetPc(if q == [] then s else Dequeue(s, t, c), t, pc'), QueueLock(c), t);
    case Dequeued(c, all, entry, woken, taken) =>
      if taken.Some? && all {
        AcquireReady(ReadyToRun(s, taken.value), t, QueueLock(c), ToSignal(c, all, entry, woken + [taken.value]));
      }
    case _ =>
  }

  lemma SwitchReady(s: State, e: Event)
    requires Enabled(s, e) && Dispatches(e)
    ensures var q, s' := s.Queue(ReadyList), Apply(s, e);
            q != [] && s'.cur == Some(q[0]) && Extends(q[1..], s'.Queue(ReadyList))
  {
  }

  /** A dispatch runs the first thread of the ready list; every other step only adds at its end. */
  lemma ReadyStep(s: State, e: Event)
    requires Enabled(s, e)
    ensures var q, s' := s.Queue(ReadyList), Apply(s, e);
            if Dispatches(e) then q != [] && s'.cur == Some(q[0]) && Extends(q[1..], s'.Queue(ReadyList))
            else Extends(q, s'.Queue(ReadyList))
  {
    if Dispatches(e) {
      SwitchReady(s, e);
    }
    hide Drop, TryAcquire, Continue, SwitchTo;
    match e
    case CallAcquire(t, n) => AcquireReady(s, t, User(n), Return);
    case CallRelease(t, n) => DropReady(s, User(n), t);
    case CallWait(t, c) =>
      DropReady(s, s.Guard(c), t);
      AcquireReady(Drop(s, s.Guard(c), t), t, QueueLock(c), ToWait(c));
    case CallSignal(t, c, all) => AcquireReady(s, t, QueueLock(c), ToSignal(c, all, s.Queue(CondQ(c)), []));
    case Resume(t) => ContinueReady(s, t);
    case _ =>
  }

  /** A thread at position `k` of the ready list runs exactly at the dispatch that follows `k` others. */
  lemma {:induction false} FifoDispatch(s: State, es: seq<Event>, e: Event, k: nat)
    requires Legal(s, es) && Enabled(Exec(s, es), e)
    requires k < |s.Queue(ReadyList)| && DispatchCount(es) <= k && Dispatches(e)
    ensures DispatchCount(es) == k ==> Apply(Exec(s, es), e).cur == Some(s.Queue(ReadyList)[k])
    ensures var q := Exec(s, es).Queue(ReadyList);
            k - DispatchCount(es) < |q| && q[k - DispatchCount(es)] == s.Queue(ReadyList)[k]
    decreases |es|
  {
    hide Apply, Enabled;
    if es == [] {
      ReadyStep(s, e);
    } else {
      ReadyStep(s, es[0]);
      var s' := Apply(s, es[0]);
      var q, q' := s.Queue(ReadyList), s'.Queue(ReadyList);
      if Dispatches(es[0]) {
        assert q'[..|q| - 1][k - 1] == q[1..][k - 1];
        FifoDispatch(s', es[1..], e, k - 1);
      } else {
        assert q'[..|q|][k] == q[k];
        FifoDispatch(s', es[1..], e, k);
      }
    }
  }

  // ---- semaphores ----

  /** What an event adds to semaphore `x`: a V adds one, a P that returns takes one. */
  ghost function Gain(s: State, e: Event, x: int): int
    requires Enabled(s, e)
  {
    match e
    case CallV(_, y) => if x == y then 1 else 0
    case HandlerV(y) => if x == y then 1 else 0
    case CallP(t, y) => if x == y && Apply(s, e).PcOf(t) == Code then -1 else 0
    case Resume(t) => if s.PcOf(t) == InP(x) && Apply(s, e).PcOf(t) == Code then -1 else 0
    case _ => 0
  }

  ghost function Gains(s: State, es: seq<Event>, x: int): int
    requires Legal(s, es)
    decreases |es|
  {
    if es == [] then 0 else Gain(s, es[0], x) + Gains(Apply(s, es[0]), es[1..], x)
  }

  lemma ContinueSem(s: State, t: Tid, x: int)
    requires !s.PcOf(t).InP?
    ensures Continue(s, t).sems == s.sems
  {
    if s.PcOf(t).Signalling? {
      SignallingPc(s, t);
      hide Continue;
    } else {
      hide Drop, TryAcquire, Dequeue, TryP;
      match s.PcOf(t)
      case InAcquire(l, after) => AcquireSem(s, t, l, after);
      case InWait(c, _) => AcquireSem(s, t, s.Guard(c), Return);
      case Dequeued(c, all, entry, woken, taken) =>
        if taken.Some? && all {
          AcquireSem(ReadyToRun(s, taken.value), t, QueueLock(c), ToSignal(c, all, entry, woken + [taken.value]));
        }
      case _ =>
    }
  }

  lemma SemStep(s: State, e: Event, x: int)
    requires Locks(s) && Enabled(s, e)
    ensures Apply(s, e).SemOf(x).value == s.SemOf(x).value + Gain(s, e, x)
  {
    hide Drop, TryAcquire, Continue, SwitchTo, Locks;
    match e
    case Preempt(t) => SwitchSem(ReadyToRun(s, t));
    case Dispatch => SwitchSem(s);
    case CallAcquire(t, n) => AcquireSem(s, t, User(n), Return);
    case CallRelease(t, n) => DropFrame(s, User(n), t);
    case CallWait(t, c) => WaitShape(s, t, c);
    case CallSignal(t, c, all) => AcquireSem(s, t, QueueLock(c), ToSignal(c, all, s.Queue(CondQ(c)), []));
    case Resume(t) => ResumeSem(s, t, x);
    case _ =>
  }

  lemma SwitchSem(s: State)
    requires s.Queue(ReadyList) != []
    ensures SwitchTo(s).sems == s.sems
  {
  }

  lemma AcquireSem(s: State, t: Tid, l: LockId, after: After)
    ensures TryAcquire(s, t, l, after).sems == s.sems
  {
    hide Drop;
    DropFrame(Take(s, l, t), l, t);
  }

  lemma ResumeSem(s: State, t: Tid, x: int)
    requires Enabled(s, Resume(t))
    ensures Apply(s, Resume(t)).SemOf(x).value == s.SemOf(x).value + Gain(s, Resume(t), x)
  {
    if s.PcOf(t).InP? {
      var y := s.PcOf(t).x;
      assert Continue(s, t) == TryP(s, t, y);
    } else {
      ContinueSem(s, t, x);
    }
  }

  /** Over any run the value is the initial one plus the V's minus the P's that returned, and never negative. */
  lemma {:induction false} SemaphoreCounts(s: State, es: seq<Event>, x: int)
    requires Inv(s) && Legal(s, es)
    ensures Exec(s, es).SemOf(x).value == s.SemOf(x).value + Gains(s, es, x) >= 0
    decreases |es|
  {
    if es != [] {
      SemStep(s, es[0], x);
      StepInv(s, es[0]);
      SemaphoreCounts(Apply(s, es[0]), es[1..], x);
    } else {
      assert WakeOk(s, User(0), x);
    }
  }

  // ---- Signal and Broadcast ----

  /** The threads a call ought to wake: all that were queued when it was made, or the first. */
  function Target(pc: Pc): seq<Tid>
    requires Signaller(pc)
  {
    if pc.all || pc.entry == [] then pc.entry else pc.entry[..1]
  }

  /** Turns of the processor the call still needs. */
  function Effort(pc: Pc): int {
    match pc
    case Signalling(c, all, entry, woken) => if all then 2 * (|entry| - |woken|) + 2 else 2
    case Dequeued(c, all, entry, woken, taken) => if all then 2 * (|entry| - |woken|) + 1 else 1
    case _ => 0
  }

  /** The threads that signaller `t` makes ready until its call returns. */
  ghost function Handed(s: State, es: seq<Event>, t: Tid): seq<Tid>
    requires Legal(s, es)
    decreases |es|
  {
    if es == [] || !Signaller(s.PcOf(t)) then []
    else (if es[0] == Resume(t) then Listed(s.Taken(t)) else []) + Handed(Apply(s, es[0]), es[1..], t)
  }

  /** The turns signaller `t` takes until its call returns. */
  ghost function Turns(s: State, es: seq<Event>, t: Tid): nat
    requires Legal(s, es)
    decreases |es|
  {
    if es == [] || !Signaller(s.PcOf(t)) then 0
    else (if es[0] == Resume(t) then 1 else 0) + Turns(Apply(s, es[0]), es[1..], t)
  }

  ghost predicate Returned(s: State, es: seq<Event>, t: Tid)
    requires Legal(s, es)
    decreases |es|
  {
    !Signaller(s.PcOf(t)) || (es != [] && Returned(Apply(s, es[0]), es[1..], t))
  }

  /** How one turn moves a signaller on. */
  predicate Advances(pc: Pc, taken: Option<Tid>, pc': Pc)
    requires Signaller(pc)
  {
    && Effort(pc') == Effort(pc) - 1
    && if Signaller(pc') then pc'.c == pc.c && Target(pc') == Target(pc) && pc'.woken == pc.woken + Listed(taken)
       else pc' == Code && pc.woken + Listed(taken) == Target(pc)
  }

  lemma SignallingTurn(s: State, t: Tid)
    requires Conds(s) && s.PcOf(t).Signalling?
    ensures Continue(s, t).cur == s.cur && Advances(s.PcOf(t), s.Taken(t), Continue(s, t).PcOf(t))
  {
    assert CondOk(s, t);
    SignallingPc(s, t);
  }

  lemma DequeuedTurn(s: State, t: Tid)
    requires Conds(s) && Locks(s) && s.PcOf(t).Dequeued?
    ensures Continue(s, t).cur == s.cur && Advances(s.PcOf(t), s.Taken(t), Continue(s, t).PcOf(t))
    ensures Continue(s, t).Queue(ReadyList) == s.Queue(ReadyList) + Listed(s.Taken(t))
  {
    var pc, c := s.PcOf(t), s.PcOf(t).c;
    assert CondOk(s, t) && LockOk(s, t, c, QueueLock(c));
    if pc.taken.Some? && pc.all {
      var s1 := ReadyToRun(s, pc.taken.value);
      SameLocks(s, s1);
      QueueLockFree(s1, t, c);
    }
  }

  /** A turn of a signaller never blocks, and wakes the next thread of its target. */
  lemma SignallerTurn(s: State, t: Tid)
    requires Inv(s) && s.cur == Some(t) && Signaller(s.PcOf(t))
    ensures var pc, s' := s.PcOf(t), Apply(s, Resume(t));
            && s'.cur == Some(t) && Advances(pc, s.Taken(t), s'.PcOf(t))
            && (pc.Dequeued? ==> s'.Queue(ReadyList) == s.Queue(ReadyList) + Listed(s.Taken(t)))
  {
    if s.PcOf(t).Signalling? {
      SignallingTurn(s, t);
    } else {
      DequeuedTurn(s, t);
    }
  }

  /** Other steps leave a signaller where it is. */
  lemma SignallerWaits(s: State, e: Event, t: Tid)
    requires Inv(s) && Enabled(s, e) && Signaller(s.PcOf(t)) && e != Resume(t)
    ensures Apply(s, e).PcOf(t) == s.PcOf(t)
  {
    PcFrame(s, e, t);
  }

  /** One step of a run, as a signaller in it sees it. */
  lemma SignallerStep(s: State, e: Event, t: Tid)
    requires Inv(s) && Enabled(s, e) && Signaller(s.PcOf(t))
    ensures var turn, pc, pc' := e == Resume(t), s.PcOf(t), Apply(s, e).PcOf(t);
            var w := pc.woken + if turn then Listed(s.Taken(t)) else [];
            && Inv(Apply(s, e)) && Effort(pc') == Effort(pc) - (if turn then 1 else 0)
            && if Signaller(pc') then Target(pc') == Target(pc) && pc'.woken == w else turn && w == Target(pc)
  {
    StepInv(s, e);
    if e == Resume(t) {
      SignallerTurn(s, t);
    } else {
      SignallerWaits(s, e, t);
    }
  }

  /** In any run, whatever the other threads do, a signaller returns at its turn number `Effort`. */
  lemma {:induction false} SignalTurns(s: State, es: seq<Event>, t: Tid)
    requires Inv(s) && Legal(s, es) && Signaller(s.PcOf(t))
    ensures Turns(s, es, t) <= Effort(s.PcOf(t))
    ensures Returned(s, es, t) <==> Turns(s, es, t) == Effort(s.PcOf(t))
    decreases |es|
  {
    EffortPositive(s, t);
    if es != [] {
      SignallerStep(s, es[0], t);
      hide Inv, Apply, Enabled;
      if Signaller(Apply(s, es[0]).PcOf(t)) {
        SignalTurns(Apply(s, es[0]), es[1..], t);
      }
    }
  }

  /**
   At any point of a run a signaller has woken a prefix of its target, in
   order, and by the time it returns all of it.
   */
  ghost predicate HandsOk(s: State, es: seq<Event>, t: Tid)
    requires Legal(s, es) && Signaller(s.PcOf(t))
  {
    var w := s.PcOf(t).woken + Handed(s, es, t);
    w <= Target(s.PcOf(t)) && (Returned(s, es, t) ==> w == Target(s.PcOf(t)))
  }

  lemma {:induction false} SignalHands(s: State, es: seq<Event>, t: Tid)
    requires Inv(s) && Legal(s, es) && Signaller(s.PcOf(t))
    ensures HandsOk(s, es, t)
    decreases |es|
  {
    hide Inv, Apply, Enabled, Target, Effort;
    if es == [] {
      EffortPositive(s, t);
    } else {
      SignallerStep(s, es[0], t);
      var s' := Apply(s, es[0]);
      hide HandsOk;
      if Signaller(s'.PcOf(t)) {
        SignalHands(s', es[1..], t);
        HandsStep(s, es, t);
      } else {
        HandsEnd(s, es, t);
      }
    }
  }

  lemma HandsStep(s: State, es: seq<Event>, t: Tid)
    requires Legal(s, es) && es != [] && Signaller(s.PcOf(t)) && Signaller(Apply(s, es[0]).PcOf(t))
    requires var pc, pc' := s.PcOf(t), Apply(s, es[0]).PcOf(t);
             Target(pc') == Target(pc)
             && pc'.woken == pc.woken + if es[0] == Resume(t) then Listed(s.Taken(t)) else []
    requires HandsOk(Apply(s, es[0]), es[1..], t)
    ensures HandsOk(s, es, t)
  {
    hide Apply, Enabled, Target;
    HandedSplit(s, es, t);
    var now, later := if es[0] == Resume(t) then Listed(s.Taken(t)) else [], Handed(Apply(s, es[0]), es[1..], t);
    assert Returned(s, es, t) == Returned(Apply(s, es[0]), es[1..], t);
    hide Handed, Returned, Listed;
    assert s.PcOf(t).woken + (now + later) == (s.PcOf(t).woken + now) + later;
  }

  lemma HandsEnd(s: State, es: seq<Event>, t: Tid)
    requires Legal(s, es) && es != [] && Signaller(s.PcOf(t)) && !Signaller(Apply(s, es[0]).PcOf(t))
    requires s.PcOf(t).woken + (if es[0] == Resume(t) then Listed(s.Taken(t)) else []) == Target(s.PcOf(t))
    ensures HandsOk(s, es, t)
  {
    hide Apply, Enabled, Target;
    HandedSplit(s, es, t);
    var now := if es[0] == Resume(t) then Listed(s.Taken(t)) else [];
    assert Handed(Apply(s, es[0]), es[1..], t) == [] && now + [] == now;
    hide Handed, Listed;
  }

  lemma HandedSplit(s: State, es: seq<Event>, t: Tid)
    requires Legal(s, es) && es != [] && Signaller(s.PcOf(t))
    ensures Handed(s, es, t) == (if es[0] == Resume(t) then Listed(s.Taken(t)) else [])
                                + Handed(Apply(s, es[0]), es[1..], t)
  {
    hide Apply, Enabled;
  }

  /** The value of the call, if it returns during these events. */
  ghost function Answered(s: State, es: seq<Event>, t: Tid): Option<Answer>
    requires Legal(s, es)
    decreases |es|
  {
    if es == [] || !Signaller(s.PcOf(t)) then None
    else
      var s' := Apply(s, es[0]);
      if Signaller(s'.PcOf(t)) then Answered(s', es[1..], t)
      else if s.PcOf(t).Dequeued? then Some(AnswerOf(s.PcOf(t)))
      else None
  }

  /** What the caller ought to be told: how many threads Broadcast woke, or which one Signal did. */
  function RightAnswer(pc: Pc): Answer
    requires Signaller(pc)
  {
    if pc.all then Count(|pc.entry|) else Thread(if pc.entry == [] then None else Some(pc.entry[0]))
  }

  lemma AnswerStep(s: State, e: Event, t: Tid)
    requires Inv(s) && Enabled(s, e) && Signaller(s.PcOf(t))
    ensures var pc, pc' := s.PcOf(t), Apply(s, e).PcOf(t);
            if Signaller(pc') then RightAnswer(pc') == RightAnswer(pc)
            else pc.Dequeued? && AnswerOf(pc) == RightAnswer(pc)
  {
    assert CondOk(s, t);
    if e == Resume(t) {
      if s.PcOf(t).Signalling? {
        SignallingPc(s, t);
        hide Continue;
      } else {
        DequeuedTurn(s, t);
        SameEntry(s, t);
        hide Continue;
      }
    } else {
      SignallerWaits(s, e, t);
      hide Apply;
    }
  }

  lemma SameEntry(s: State, t: Tid)
    requires s.PcOf(t).Dequeued?
    ensures var pc, pc' := s.PcOf(t), Continue(s, t).PcOf(t);
            Signaller(pc') ==> pc'.all == pc.all && pc'.entry == pc.entry
  {
    hide Drop;
  }

  /** A call that returns tells its caller exactly what it did. */
  lemma {:induction false} SignalAnswers(s: State, es: seq<Event>, t: Tid)
    requires Inv(s) && Legal(s, es) && Signaller(s.PcOf(t))
    ensures Answered(s, es, t) == if Returned(s, es, t) then Some(RightAnswer(s.PcOf(t))) else None
    decreases |es|
  {
    if es != [] {
      AnswerStep(s, es[0], t);
      StepInv(s, es[0]);
      hide Inv, Apply, Enabled, RightAnswer;
      if Signaller(Apply(s, es[0]).PcOf(t)) {
        SignalAnswers(Apply(s, es[0]), es[1..], t);
      }
    }
  }

  lemma EffortPositive(s: State, t: Tid)
    requires Inv(s) && Signaller(s.PcOf(t))
    ensures Effort(s.PcOf(t)) > 0 && s.PcOf(t).woken <= Target(s.PcOf(t))
  {
    assert CondOk(s, t);
  }

  /** Broadcast by the holder of the condition's lock wakes all the threads queued at the call; Signal the first. */
  lemma BroadcastWakesAll(s: State, t: Tid, c: int, all: bool, es: seq<Event>)
    requires Inv(s) && Enabled(s, CallSignal(t, c, all)) && Legal(Apply(s, CallSignal(t, c, all)), es)
    ensures var q, s' := s.Queue(CondQ(c)), Apply(s, CallSignal(t, c, all));
            && s'.cur == Some(t)
            && (Returned(s', es, t) <==> Turns(s', es, t) == if all then 2 * |q| + 2 else 2)
            && (Returned(s', es, t) ==> Handed(s', es, t) == if all then q else q[..if q == [] then 0 else 1])
            && (Returned(s', es, t) ==>
                  Answered(s', es, t) == Some(if all then Count(|q|) else Thread(if q == [] then None else Some(q[0]))))
  {
    QueueLockFree(s, t, c);
    StepInv(s, CallSignal(t, c, all));
    var s' := Apply(s, CallSignal(t, c, all));
    assert s'.PcOf(t) == Signalling(c, all, s.Queue(CondQ(c)), []);
    hide Inv, Apply, Enabled;
    SignalTurns(s', es, t);
    SignalHands(s', es, t);
    SignalAnswers(s', es, t);
  }

  // ---- locks and semaphores wake their waiters in order ----

  /** The event frees what the threads on this queue wait for: a V, or the holder's Release or Wait. */
  predicate Frees(s: State, e: Event, q: QueueId) {
    match q
    case SemQ(x) => (e.CallV? || e.HandlerV?) && e.x == x
    case LockQ(User(n)) => s.LockOf(User(n)).active.Some? && GivesUp(s, e, s.LockOf(User(n)).active.value, n)
    case _ => false
  }

  /** How a wait queue changes: its first thread becomes ready, or a thread goes to sleep behind the others. */
  ghost predicate QueueMoves(s: State, e: Event, s': State, q: QueueId) {
    var w, w' := s.Queue(q), s'.Queue(q);
    if Frees(s, e, q) then w' == (if w == [] then w else w[1..]) && (w != [] ==> w[0] in s'.Queue(ReadyList))
    else Extends(w, w')
  }

  lemma DropMoves(s: State, l: LockId, t: Tid, q: QueueId)
    requires q.SemQ? || q.LockQ?
    ensures var w, s' := s.Queue(q), Drop(s, l, t);
            if q == LockQ(l) && s.LockOf(l).active == Some(t)
            then s'.Queue(q) == (if w == [] then w else w[1..]) && (w != [] ==> w[0] in s'.Queue(ReadyList))
            else s'.Queue(q) == w
  {
  }

  lemma AcquireMoves(s: State, t: Tid, l: LockId, after: After, q: QueueId)
    requires (q.SemQ? || q.LockQ?) && (!after.ToWait? || q != LockQ(l))
    ensures Extends(s.Queue(q), TryAcquire(s, t, l, after).Queue(q))
    ensures q != LockQ(l) ==> TryAcquire(s, t, l, after).Queue(q) == s.Queue(q)
  {
    hide Drop;
    DropMoves(Take(s, l, t), l, t, q);
  }

  lemma StillIn(q: seq<Tid>, q': seq<Tid>, u: Tid)
    requires Extends(q, q') && u in q
    ensures u in q'
  {
    assert u in q'[..|q|];
  }

  lemma SignalMoves(s: State, t: Tid, q: QueueId)
    requires s.PcOf(t).Signalling? && (q.SemQ? || (q.LockQ? && q.l.User?))
    ensures Extends(s.Queue(q), Continue(s, t).Queue(q))
  {
    hide Drop, TryAcquire;
    var pc, w := s.PcOf(t), s.Queue(CondQ(s.PcOf(t).c));
    var pc' := Dequeued(pc.c, pc.all, pc.entry, pc.woken, if w == [] then None else Some(w[0]));
    DropMoves(SetPc(if w == [] then s else Dequeue(s, t, pc.c), t, pc'), QueueLock(pc.c), t, q);
  }

  lemma ContinueMoves(s: State, t: Tid, q: QueueId)
    requires Locks(s) && (q.SemQ? || (q.LockQ? && q.l.User?))
    ensures Extends(s.Queue(q), Continue(s, t).Queue(q))
  {
    assert LockOk(s, t, 0, User(0));
    hide Drop, TryAcquire, Locks;
    match s.PcOf(t)
    case InAcquire(l, after) => AcquireMoves(s, t, l, after, q);
    case InWait(c, _) => AcquireMoves(s, t, s.Guard(c), Return, q);
    case Signalling(c, all, entry, woken) => SignalMoves(s, t, q);
    case Dequeued(c, all, entry, woken, taken) =>
      if taken.Some? && all {
        AcquireMoves(ReadyToRun(s, taken.value), t, QueueLock(c), ToSignal(c, all, entry, woken + [taken.value]), q);
      }
    case _ =>
  }

  lemma WaitMoves(s: State, t: Tid, c: int, q: QueueId)
    requires Locks(s) && Enabled(s, CallWait(t, c)) && (q.SemQ? || (q.LockQ? && q.l.User?))
    ensures QueueMoves(s, CallWait(t, c), Apply(s, CallWait(t, c)), q)
  {
    hide Drop, TryAcquire, Locks;
    var s1, s', w := Drop(s, s.Guard(c), t), Apply(s, CallWait(t, c)), s.Queue(q);
    DropMoves(s, s.Guard(c), t, q);
    AcquireMoves(s1, t, QueueLock(c), ToWait(c), q);
    assert s'.Queue(q) == s1.Queue(q) && w[..|w|] == w;
    assert Frees(s, CallWait(t, c), q) <==> q == LockQ(s.Guard(c));
    if q == LockQ(s.Guard(c)) && w != [] {
      AcquireReady(s1, t, QueueLock(c), ToWait(c));
      StillIn(s1.Queue(ReadyList), s'.Queue(ReadyList), w[0]);
    }
  }

  lemma QueueStep(s: State, e: Event, q: QueueId)
    requires Locks(s) && Enabled(s, e) && (q.SemQ? || (q.LockQ? && q.l.User?))
    ensures QueueMoves(s, e, Apply(s, e), q)
  {
    hide Drop, TryAcquire, Continue, Locks;
    match e
    case CallAcquire(t, n) => AcquireMoves(s, t, User(n), Return, q);
    case CallRelease(t, n) => ReleaseMoves(s, t, n, q);
    case CallWait(t, c) => WaitMoves(s, t, c, q);
    case CallSignal(t, c, all) => AcquireMoves(s, t, QueueLock(c), ToSignal(c, all, s.Queue(CondQ(c)), []), q);
    case Resume(t) => ContinueMoves(s, t, q);
    case _ => PlainMoves(s, e, q);
  }

  lemma ReleaseMoves(s: State, t: Tid, n: int, q: QueueId)
    requires Enabled(s, CallRelease(t, n)) && (q.SemQ? || (q.LockQ? && q.l.User?))
    ensures QueueMoves(s, CallRelease(t, n), Apply(s, CallRelease(t, n)), q)
  {
    hide Drop;
    DropMoves(s, User(n), t, q);
  }

  /** Events that take no lock. */
  lemma PlainMoves(s: State, e: Event, q: QueueId)
    requires Enabled(s, e) && (q.SemQ? || (q.LockQ? && q.l.User?))
    requires e.CallP? || e.CallV? || e.HandlerV? || e.Preempt? || e.Dispatch? || e.Fork? || e.Finish?
    ensures QueueMoves(s, e, Apply(s, e), q)
  {
    if e.CallV? || e.HandlerV? {
      VMoves(s, e.x, q);
      hide DoV;
    } else {
      assert s.Queue(q)[..|s.Queue(q)|] == s.Queue(q);
      hide DoV, Drop, TryAcquire, Continue, SwitchTo;
      match e
      case Preempt(t) => SwitchMoves(ReadyToRun(s, t), q);
      case Dispatch => SwitchMoves(s, q);
      case _ =>
    }
  }

  lemma SwitchMoves(s: State, q: QueueId)
    requires s.Queue(ReadyList) != [] && q != ReadyList
    ensures SwitchTo(s).Queue(q) == s.Queue(q)
  {
  }

  lemma VMoves(s: State, x: int, q: QueueId)
    requires q.SemQ? || q.LockQ?
    ensures var w, s' := s.Queue(q), DoV(s, x);
            if q == SemQ(x)
            then s'.Queue(q) == (if w == [] then w else w[1..]) && (w != [] ==> w[0] in s'.Queue(ReadyList))
            else s'.Queue(q) == w && Extends(w, w)
  {
  }

  ghost function FreeCount(s: State, es: seq<Event>, q: QueueId): nat
    requires Legal(s, es)
    decreases |es|
  {
    if es == [] then 0 else (if Frees(s, es[0], q) then 1 else 0) + FreeCount(Apply(s, es[0]), es[1..], q)
  }

  /**
   A thread at position `k` of a lock's or semaphore's queue is made ready exactly
   when it is freed after `k` times before.
   */
  lemma {:induction false} FifoWake(s: State, es: seq<Event>, e: Event, q: QueueId, k: nat)
    requires Inv(s) && Legal(s, es) && Enabled(Exec(s, es), e) && (q.SemQ? || (q.LockQ? && q.l.User?))
    requires k < |s.Queue(q)| && FreeCount(s, es, q) <= k && Frees(Exec(s, es), e, q)
    ensures var w, n := Exec(s, es).Queue(q), FreeCount(s, es, q);
            && k - n < |w| && w[k - n] == s.Queue(q)[k]
            && (n == k ==> s.Queue(q)[k] in Apply(Exec(s, es), e).Queue(ReadyList))
    decreases |es|
  {
    hide Apply, Enabled, Frees;
    if es == [] {
      QueueStep(s, e, q);
    } else {
      QueueStep(s, es[0], q);
      StepInv(s, es[0]);
      hide Inv;
      var s' := Apply(s, es[0]);
      var w, w' := s.Queue(q), s'.Queue(q);
      if Frees(s, es[0], q) {
        FifoWake(s', es[1..], e, q, k - 1);
      } else {
        assert w'[..|w|][k] == w[k];
        FifoWake(s', es[1..], e, q, k);
      }
    }
  }
}
