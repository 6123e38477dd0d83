/**
 What a step of the kernel does to one thread and one lock, as code built on
 locks, conditions and semaphores sees it.
 */
module KernelInterface {
  import opened Options
  import opened Kernel
  import opened KernelRuns
  import opened KernelTheorems

  predicate Holds(s: State, t: Tid, n: int) {
    s.LockOf(User(n)).active == Some(t)
  }

  /** The thread is inside the kernel on its way to lock `n`. */
  predicate Acquiring(s: State, t: Tid, n: int) {
    || s.PcOf(t) == InAcquire(User(n), Return)
    || (s.PcOf(t).InWait? && s.Guard(s.PcOf(t).c) == User(n))
  }

  /** The thread is inside Acquire, without the lock. */
  predicate AtLock(s: State, t: Tid, n: int) {
    !Holds(s, t, n) && s.PcOf(t) == InAcquire(User(n), Return)
  }

  lemma GuardsFixed(s: State, e: Event, c: int)
    requires Enabled(s, e)
    ensures Apply(s, e).Guard(c) == s.Guard(c)
  {
    hide Drop, TryAcquire;
    match e
    case CallAcquire(t, n) => TryAcquirePc(s, t, User(n), Return);
    case CallRelease(t, n) => DropFrame(s, User(n), t);
    case CallWait(t, d) =>
      DropFrame(s, s.Guard(d), t);
      TryAcquirePc(Drop(s, s.Guard(d), t), t, QueueLock(d), ToWait(d));
    case CallSignal(t, d, all) => TryAcquirePc(s, t, QueueLock(d), ToSignal(d, all, s.Queue(CondQ(d)), []));
    case Resume(t) => ContinueGuards(s, t);
    case _ =>
  }

  lemma ContinueGuards(s: State, t: Tid)
    ensures Continue(s, t).guards == s.guards
  {
    hide Drop, TryAcquire;
    match s.PcOf(t)
    case InAcquire(l, after) => TryAcquirePc(s, t, l, after);
    case InWait(c, _) => TryAcquirePc(s, t, s.Guard(c), Return);
    case Signalling(c, all, entry, woken) => SignallingPc(s, t);
    case Dequeued(c, all, entry, woken, taken) =>
      if taken.Some? && all {
        TryAcquirePc(ReadyToRun(s, taken.value), t, QueueLock(c), ToSignal(c, all, entry, woken + [taken.value]));
      }
    case _ =>
  }

  /** What the running thread finds when it goes on inside the kernel. */
  ghost predicate Resumed(s: State, s': State, t: Tid) {
    match s.PcOf(t)
    case InP(x) => s'.PcOf(t) == if s.SemOf(x).value == 0 then InP(x) else Code
    case InAcquire(l, after) => s'.PcOf(t) == if s.LockOf(l).free then Code else InAcquire(l, Return)
    case InWait(c, _) => s'.PcOf(t) == if s.LockOf(s.Guard(c)).free then Code else InAcquire(s.Guard(c), Return)
    case Signalling(c, all, _, _) => s'.PcOf(t).Dequeued? && s'.PcOf(t).c == c && s'.PcOf(t).all == all
    case Dequeued(c, all, _, _, taken) =>
      s'.PcOf(t) == Code || (all && s'.PcOf(t).Signalling? && s'.PcOf(t).c == c && s'.PcOf(t).all)
    case _ => false
  }

  lemma ResumeEffect(s: State, t: Tid)
    requires Inv(s) && Enabled(s, Resume(t))
    ensures Resumed(s, Apply(s, Resume(t)), t)
    ensures s.PcOf(t).InAcquire? ==> s.PcOf(t).l.User? && s.PcOf(t).after == Return
  {
    assert PlaceOk(s, t, t, ReadyList) && LockOk(s, t, 0, User(0));
    hide Inv, Drop, TryAcquire, Continue;
    if s.PcOf(t).Signalling? {
      SignallingPc(s, t);
    } else if s.PcOf(t).Dequeued? {
      DequeuedEffect(s, t);
    } else {
      WaiterEffect(s, t);
    }
  }

  /** One more pass of the loop of P or Acquire. */
  lemma WaiterEffect(s: State, t: Tid)
    requires s.PcOf(t).InP? || s.PcOf(t).InAcquire? || s.PcOf(t).InWait?
    requires s.PcOf(t).InAcquire? ==> s.PcOf(t).after == Return
    ensures Resumed(s, Continue(s, t), t)
  {
    hide Drop;
  }

  lemma DequeuedEffect(s: State, t: Tid)
    requires Inv(s) && s.PcOf(t).Dequeued?
    ensures Resumed(s, Continue(s, t), t)
  {
    if s.PcOf(t).taken.Some? && s.PcOf(t).all {
      var s1, c := ReadyToRun(s, s.PcOf(t).taken.value), s.PcOf(t).c;
      assert LockOk(s, t, c, QueueLock(c));
      SameLocks(s, s1);
      QueueLockFree(s1, t, c);
    }
    hide Inv, Locks, Drop;
  }

  /** A lock is gained only by a thread that was acquiring it, when it was free. */
  lemma LockGained(s: State, e: Event, n: int, t: Tid)
    requires Inv(s) && Enabled(s, e) && Holds(Apply(s, e), t, n) && !Holds(s, t, n)
    ensures e == CallAcquire(t, n) || (e == Resume(t) && Acquiring(s, t, n))
    ensures s.LockOf(User(n)).active == None && Apply(s, e).PcOf(t) == Code
  {
    assert LockOk(s, t, 0, User(n));
    if s.LockOf(User(n)).active.Some? {
      HolderStep(s, e, n);
    }
    if e.Resume? {
      assert LockOk(s, e.t, 0, User(n));
    }
    hide Inv, Drop, TryAcquire, Continue, SwitchTo;
    match e
    case Preempt(u) => SwitchGains(ReadyToRun(s, u), n);
    case Dispatch => SwitchGains(s, n);
    case CallAcquire(u, m) => AcquireGains(s, u, User(m), Return, n);
    case CallRelease(u, m) => DropLock(s, User(m), u, User(n));
    case CallWait(u, c) =>
      DropLock(s, s.Guard(c), u, User(n));
      AcquireGains(Drop(s, s.Guard(c), u), u, QueueLock(c), ToWait(c), n);
    case CallSignal(u, c, all) => AcquireGains(s, u, QueueLock(c), ToSignal(c, all, s.Queue(CondQ(c)), []), n);
    case Resume(u) => ResumeGains(s, n, u);
    case _ =>
  }

  lemma SwitchGains(s: State, n: int)
    requires s.Queue(ReadyList) != []
    ensures SwitchTo(s).LockOf(User(n)) == s.LockOf(User(n))
  {
  }

  lemma DropLock(s: State, l: LockId, t: Tid, k: LockId)
    ensures Drop(s, l, t).LockOf(k) == s.LockOf(k) || Drop(s, l, t).LockOf(k) == LockState(true, None)
  {
  }

  lemma AcquireGains(s: State, t: Tid, l: LockId, after: After, n: int)
    ensures var s' := TryAcquire(s, t, l, after);
            var a := s'.LockOf(User(n)).active;
            || a == s.LockOf(User(n)).active || a == None
            || (a == Some(t) && l == User(n) && s.LockOf(l).free && (after == Return ==> s'.PcOf(t) == Code))
  {
    hide Drop;
    DropLock(Take(s, l, t), l, t, User(n));
  }

  lemma ResumeGains(s: State, n: int, u: Tid)
    requires s.PcOf(u).InAcquire? ==> s.PcOf(u).after == Return
    ensures var a := Continue(s, u).LockOf(User(n)).active;
            || a == s.LockOf(User(n)).active || a == None
            || (a == Some(u) && s.LockOf(User(n)).free && Acquiring(s, u, n) && Continue(s, u).PcOf(u) == Code)
  {
    hide Drop, TryAcquire;
    match s.PcOf(u)
    case InAcquire(l, after) => AcquireGains(s, u, l, after, n);
    case InWait(c, _) => AcquireGains(s, u, s.Guard(c), Return, n);
    case Signalling(c, all, entry, woken) =>
      var q := s.Queue(CondQ(c));
      var pc' := Dequeued(c, all, entry, woken, if q == [] then None else Some(q[0]));
      DropLock(SetPc(if q == [] then s else Dequeue(s, u, c), u, pc'), QueueLock(c), u, User(n));
    case Dequeued(c, all, entry, woken, taken) =>
      if taken.Some? && all {
        AcquireGains(ReadyToRun(s, taken.value), u, QueueLock(c), ToSignal(c, all, entry, woken + [taken.value]), n);
      }
    case _ =>
  }

  /** Where a thread is after a call it makes, and on which queue. */
  ghost predicate Called(s: State, s': State, e: Event) {
    match e
    case CallP(t, x) =>
      if s.SemOf(x).value == 0 then s'.PcOf(t) == InP(x) && Queued(s, s', t, SemQ(x)) else s'.PcOf(t) == Code
    case CallV(t, x) => s'.PcOf(t) == Code
    case CallAcquire(t, n) =>
      if s.LockOf(User(n)).free then s'.PcOf(t) == Code
      else s'.PcOf(t) == InAcquire(User(n), Return) && Queued(s, s', t, LockQ(User(n)))
    case CallRelease(t, n) => s'.PcOf(t) == Code
    case CallWait(t, c) => s'.PcOf(t) == InWait(c, None) && s'.Queue(CondQ(c)) == s.Queue(CondQ(c)) + [t]
    case CallSignal(t, c, all) => s'.PcOf(t) == Signalling(c, all, s.Queue(CondQ(c)), [])
    case Fork(t, u) =>
      && s'.PcOf(t) == Code && s'.PcOf(u) == New && s'.cur == Some(t)
      && s'.Queue(ReadyList) == s.Queue(ReadyList) + [u]
    case Finish(t) => s'.PcOf(t) == Finished && s'.cur == None && s'.doomed == Some(t)
    case Preempt(t) =>
      && s'.PcOf(t) == s.PcOf(t) && s.Queue(ReadyList) != [] && s'.cur == Some(s.Queue(ReadyList)[0])
      && s'.Queue(ReadyList) == s.Queue(ReadyList)[1..] + [t]
    case _ => true
  }

  /** The caller went to sleep as the last of a queue. */
  predicate Queued(s: State, s': State, t: Tid, q: QueueId) {
    s'.Queue(q) == s.Queue(q) + [t] && s'.StatusOf(t) == Blocked && s'.cur == None
  }

  lemma CallEffect(s: State, e: Event)
    requires Inv(s) && Enabled(s, e)
    ensures Called(s, Apply(s, e), e)
  {
    match e
    case CallRelease(t, n) => DropFrame(s, User(n), t); hide Drop;
    case CallWait(t, c) =>
      WaitShape(s, t, c);
      WaitAppends(s, t, c);
      hide Apply;
    case CallSignal(t, c, all) => QueueLockFree(s, t, c);
    case Preempt(t) => PreemptEffect(s, t);
    case _ =>
  }

  /** Yield goes to the end of the ready list, and its head runs. */
  lemma PreemptEffect(s: State, t: Tid)
    requires Inv(s) && Enabled(s, Preempt(t))
    ensures Called(s, Apply(s, Preempt(t)), Preempt(t))
  {
    var q := s.Queue(ReadyList);
    assert (q + [t])[1..] == q[1..] + [t];
    assert PlaceOk(s, t, t, ReadyList) && q[0] in q;
  }

  lemma WaitAppends(s: State, t: Tid, c: int)
    requires Inv(s) && Enabled(s, CallWait(t, c))
    ensures Apply(s, CallWait(t, c)).Queue(CondQ(c)) == s.Queue(CondQ(c)) + [t]
  {
    WaitShape(s, t, c);
    hide Drop, Inv;
    DropFrame(s, s.Guard(c), t);
    var s1 := Drop(s, s.Guard(c), t);
    var s2 := Take(s1, QueueLock(c), t);
    DropFrame(s2, QueueLock(c), t);
    assert s1.Queue(CondQ(c)) == s.Queue(CondQ(c)) && s2.Queue(CondQ(c)) == s1.Queue(CondQ(c));
    assert Drop(s2, QueueLock(c), t).Queue(CondQ(c)) == s.Queue(CondQ(c));
  }

  /**
   Condition::Wait is one step: when it ends the condition's lock is free, the
   caller is the last on the condition's queue, and it is asleep.
   */
  lemma WaitIsAtomic(s: State, t: Tid, c: int)
    requires Inv(s) && Enabled(s, CallWait(t, c))
    ensures var s' := Apply(s, CallWait(t, c));
            && s'.LockOf(s.Guard(c)) == LockState(true, None) && s'.LockOf(QueueLock(c)) == LockState(true, None)
            && s'.Queue(CondQ(c)) == s.Queue(CondQ(c)) + [t]
            && s'.StatusOf(t) == Blocked && s'.cur == None && s'.pcs == s.pcs[t := InWait(c, None)]
  {
    WaitShape(s, t, c);
    WaitAppends(s, t, c);
    WaitSleeps(s, t, c);
    hide Apply;
  }

  lemma WaitSleeps(s: State, t: Tid, c: int)
    requires Enabled(s, CallWait(t, c))
    ensures Apply(s, CallWait(t, c)).StatusOf(t) == Blocked && Apply(s, CallWait(t, c)).cur == None
  {
    hide Drop;
  }

  /** The thread neither has lock `n` nor is on its way to it. */
  predicate Outside(s: State, t: Tid, n: int) {
    !Holds(s, t, n) && !Acquiring(s, t, n)
  }

  /** Only a call of Acquire brings a thread from outside to a lock. */
  lemma OutsideStays(s: State, e: Event, u: Tid, n: int)
    requires Inv(s) && Enabled(s, e) && Outside(s, u, n) && e != CallAcquire(u, n)
    ensures Outside(Apply(s, e), u, n)
  {
    var s' := Apply(s, e);
    if Holds(s', u, n) {
      LockGained(s, e, n, u);
    }
    if s'.PcOf(u).InWait? {
      GuardsFixed(s, e, s'.PcOf(u).c);
    }
    if Actor(s, e) != Some(u) {
      PcFrame(s, e, u);
    } else if e.Resume? {
      ResumeEffect(s, u);
    } else {
      CallEffect(s, e);
    }
    hide Apply, Inv;
  }

  /** A thread that holds the lock keeps it through every step but its own Release or Wait. */
  lemma HoldsStays(s: State, e: Event, u: Tid, n: int)
    requires Inv(s) && Enabled(s, e) && Holds(s, u, n) && !GivesUp(s, e, u, n)
    ensures Holds(Apply(s, e), u, n)
  {
    HolderStep(s, e, n);
  }
}
