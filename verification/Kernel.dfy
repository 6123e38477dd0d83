/**
 The synchronisation kernel as a step machine over any number of threads,
 semaphores, locks and condition variables.

 On the simulated uniprocessor control passes from one thread to another only
 in `Sleep`, in `Yield`, and where interrupts go from off to on.  One step of
 the machine is the code between two such points.
 */
module Kernel {
  import opened Options
  import opened Sequences

  /** Threads, and likewise semaphores, locks and conditions, are named by numbers. */
  type Tid = int

  datatype Status = JustCreated | Running | Ready | Blocked

  /** A lock used by programs, or the private `queueLock` of condition `c`. */
  datatype LockId = User(n: int) | QueueLock(c: int)

  datatype QueueId = ReadyList | LockQ(l: LockId) | SemQ(x: int) | CondQ(c: int)

  /** What a thread does once it has a lock. */
  datatype After =
    | Return
    | ToWait(c: int)
    | ToSignal(c: int, all: bool, entry: seq<Tid>, woken: seq<Tid>)

  /**
   Where a thread is in the kernel's code.  `entry` is the condition's queue
   when the signaller was called, and `woken` the threads it has made ready;
   `via` is the signaller that has taken a waiter off the condition's queue.
   */
  datatype Pc =
    | NotStarted
    | New                                  // forked, never dispatched
    | Code                                 // outside the kernel
    | InP(x: int)                          // in the loop of Semaphore::P
    | InAcquire(l: LockId, after: After)   // in the loop of Lock::Acquire
    | InWait(c: int, via: Option<Tid>)      // asleep in Condition::Wait, or about to take the lock again
    | Signalling(c: int, all: bool, entry: seq<Tid>, woken: seq<Tid>)  // holds the queue lock
    | Dequeued(c: int, all: bool, entry: seq<Tid>, woken: seq<Tid>, taken: Option<Tid>)  // released it
    | Finished

  /** What Signal returns, the thread it woke if any, and what Broadcast returns, their number. */
  datatype Answer = Thread(woken: Option<Tid>) | Count(n: nat)

  /** The value with which a signaller returns from here: Broadcast's counter goes up with every thread it wakes. */
  function AnswerOf(pc: Pc): Answer
    requires pc.Dequeued?
  {
    if pc.all then Count(|pc.woken|) else Thread(pc.taken)
  }

  datatype LockState = LockState(free: bool, active: Option<Tid>)

  /** A semaphore, with the counts of completed operations. */
  datatype Sem = Sem(value: int, initial: nat, ps: nat, vs: nat)

  datatype State = State(
    cur: Option<Tid>,
    queues: map<QueueId, seq<Tid>>,
    locks: map<LockId, LockState>,
    sems: map<int, Sem>,
    pcs: map<Tid, Pc>,
    status: map<Tid, Status>,
    doomed: Option<Tid>,          // threadToBeDestroyed
    guards: map<int, int>)        // the one lock that protects each condition
  {
    function Queue(q: QueueId): seq<Tid> { if q in queues then queues[q] else [] }
    function LockOf(l: LockId): LockState { if l in locks then locks[l] else LockState(true, None) }
    function SemOf(x: int): Sem { if x in sems then sems[x] else Sem(0, 0, 0, 0) }
    function PcOf(t: Tid): Pc { if t in pcs then pcs[t] else NotStarted }
    function StatusOf(t: Tid): Status { if t in status then status[t] else JustCreated }
    function Guard(c: int): LockId { User(if c in guards then guards[c] else c) }
    predicate Asleep(t: Tid) { StatusOf(t) == Blocked }
    /** The thread a signaller has dequeued and not yet made ready. */
    function Taken(t: Tid): Option<Tid> { if PcOf(t).Dequeued? then PcOf(t).taken else None }
  }

  // ---- primitives ----

  function SetPc(s: State, t: Tid, pc: Pc): State {
    s.(pcs := s.pcs[t := pc])
  }

  /** `Scheduler::ReadyToRun`. */
  function ReadyToRun(s: State, t: Tid): State {
    s.(status := s.status[t := Ready], queues := s.queues[ReadyList := s.Queue(ReadyList) + [t]])
  }

  /** Makes the first waiter on `q`, if any, ready. */
  function WakeOne(s: State, q: QueueId): State {
    if s.Queue(q) == [] then s
    else ReadyToRun(s.(queues := s.queues[q := s.Queue(q)[1..]]), s.Queue(q)[0])
  }

  /** Signaller `t` takes the first waiter off the queue of condition `c`. */
  function Dequeue(s: State, t: Tid, c: int): State
    requires s.Queue(CondQ(c)) != []
  {
    SetPc(s, s.Queue(CondQ(c))[0], InWait(c, Some(t))).(queues := s.queues[CondQ(c) := s.Queue(CondQ(c))[1..]])
  }

  /** Queues the running thread on `q` and puts it to sleep. */
  function Block(s: State, t: Tid, q: QueueId, pc: Pc): State {
    SetPc(s, t, pc).(queues := s.queues[q := s.Queue(q) + [t]], status := s.status[t := Blocked], cur := None)
  }

  /** `Scheduler::Run` on the head of the ready list. */
  function SwitchTo(s: State): State
    requires s.Queue(ReadyList) != []
  {
    var h := s.Queue(ReadyList)[0];
    var s' := s.(queues := s.queues[ReadyList := s.Queue(ReadyList)[1..]],
                 status := s.status[h := Running], cur := Some(h));
    // A thread that has run before resumes inside Run, which deletes a finished thread's carcass.
    if s.PcOf(h) == New then SetPc(s', h, Code) else s'.(doomed := None)
  }

  // ---- semaphores and locks ----

  function Take(s: State, l: LockId, t: Tid): State {
    s.(locks := s.locks[l := LockState(false, Some(t))])
  }

  /** `Lock::Release`: does nothing unless the caller holds the lock. */
  function Drop(s: State, l: LockId, t: Tid): State {
    if s.LockOf(l).active == Some(t)
    then WakeOne(s.(locks := s.locks[l := LockState(true, None)]), LockQ(l))
    else s
  }

  /** One pass of the loop of `Semaphore::P`. */
  function TryP(s: State, t: Tid, x: int): State {
    var m := s.SemOf(x);
    if m.value == 0 then Block(s, t, SemQ(x), InP(x))
    else SetPc(s, t, Code).(sems := s.sems[x := m.(value := m.value - 1, ps := m.ps + 1)])
  }

  /** `Semaphore::V`. */
  function DoV(s: State, x: int): State {
    var s' := WakeOne(s, SemQ(x));
    var m := s'.SemOf(x);
    s'.(sems := s'.sems[x := m.(value := m.value + 1, vs := m.vs + 1)])
  }

  /** One pass of the loop of `Lock::Acquire`, and what follows it up to the next transfer of control. */
  function TryAcquire(s: State, t: Tid, l: LockId, after: After): State {
    if !s.LockOf(l).free then Block(s, t, LockQ(l), InAcquire(l, after))
    else match after
         case Return => SetPc(Take(s, l, t), t, Code)
         case ToSignal(c, all, entry, woken) => SetPc(Take(s, l, t), t, Signalling(c, all, entry, woken))
         // the queue lock is taken, the caller queued, and the queue lock dropped, with interrupts off
         case ToWait(c) => Block(Drop(Take(s, l, t), l, t), t, CondQ(c), InWait(c, None))
  }

  // ---- steps ----

  datatype Event =
    | CallP(t: Tid, x: int)
    | CallV(t: Tid, x: int)
    | HandlerV(x: int)                       // an interrupt handler calls V
    | CallAcquire(t: Tid, n: int)
    | CallRelease(t: Tid, n: int)
    | CallWait(t: Tid, c: int)
    | CallSignal(t: Tid, c: int, all: bool)  // Signal, or Broadcast when `all`
    | Resume(t: Tid)                         // the running thread goes on inside a kernel routine
    | Preempt(t: Tid)                        // a time slice ends: Yield
    | Dispatch                               // Sleep finds a thread to run
    | Fork(t: Tid, u: Tid)
    | Finish(t: Tid)

  /** The running thread is at a point where interrupts are enabled. */
  predicate Interruptible(s: State, t: Tid) {
    s.cur == Some(t) && (s.PcOf(t).Code? || s.PcOf(t).Signalling? || s.PcOf(t).Dequeued?)
  }

  predicate InCode(s: State, t: Tid) {
    s.cur == Some(t) && s.PcOf(t).Code?
  }

  predicate Enabled(s: State, e: Event) {
    match e
    case CallP(t, _) => InCode(s, t)
    case CallV(t, _) => InCode(s, t)
    case HandlerV(_) => s.cur.None? || Interruptible(s, s.cur.value)
    case CallAcquire(t, _) => InCode(s, t)
    case CallRelease(t, _) => InCode(s, t)
    case CallWait(t, c) => InCode(s, t) && s.LockOf(s.Guard(c)).active == Some(t)
    case CallSignal(t, c, _) => InCode(s, t) && s.LockOf(s.Guard(c)).active == Some(t)
    case Resume(t) => s.cur == Some(t) && !s.PcOf(t).Code?
    case Preempt(t) => Interruptible(s, t) && s.Queue(ReadyList) != []
    case Dispatch => s.cur.None? && s.Queue(ReadyList) != []
    case Fork(t, u) => InCode(s, t) && s.PcOf(u).NotStarted?
    case Finish(t) => InCode(s, t)
  }

  /** The next atomic block of a thread that is inside a kernel routine. */
  function Continue(s: State, t: Tid): State {
    match s.PcOf(t)
    case InP(x) => TryP(s, t, x)
    case InAcquire(l, after) => TryAcquire(s, t, l, after)
    case InWait(c, _) => TryAcquire(s, t, s.Guard(c), Return)
    case Signalling(c, all, entry, woken) =>
      var q := s.Queue(CondQ(c));
      if q == [] then Drop(SetPc(s, t, Dequeued(c, all, entry, woken, None)), QueueLock(c), t)
      else Drop(SetPc(Dequeue(s, t, c), t, Dequeued(c, all, entry, woken, Some(q[0]))), QueueLock(c), t)
    case Dequeued(c, all, entry, woken, taken) =>
      if taken.None? then SetPc(s, t, Code)
      else if !all then SetPc(ReadyToRun(s, taken.value), t, Code)
      else TryAcquire(ReadyToRun(s, taken.value), t, QueueLock(c), ToSignal(c, all, entry, woken + [taken.value]))
    case _ => s
  }

  function Apply(s: State, e: Event): State
    requires Enabled(s, e)
  {
    match e
    case CallP(t, x) => TryP(s, t, x)
    case CallV(_, x) => DoV(s, x)
    case HandlerV(x) => DoV(s, x)
    case CallAcquire(t, n) => TryAcquire(s, t, User(n), Return)
    case CallRelease(t, n) => Drop(s, User(n), t)
    case CallWait(t, c) => TryAcquire(Drop(s, s.Guard(c), t), t, QueueLock(c), ToWait(c))
    case CallSignal(t, c, all) => TryAcquire(s, t, QueueLock(c), ToSignal(c, all, s.Queue(CondQ(c)), []))
    case Resume(t) => Continue(s, t)
    case Preempt(t) =>
      // FindNextToRun, then ReadyToRun(this), then Run
      SwitchTo(ReadyToRun(s, t))
    case Dispatch => SwitchTo(s)
    case Fork(_, u) => ReadyToRun(SetPc(s, u, New), u)
    case Finish(t) => SetPc(s, t, Finished).(doomed := Some(t), status := s.status[t := Blocked], cur := None)
  }

  /** Thread 0 is running, and nothing has happened yet. */
  predicate Init(s: State) {
    && s.cur == Some(0) && s.queues == map[] && s.locks == map[] && s.doomed == None
    && s.pcs == map[0 := Code] && s.status == map[0 := Running]
    && forall x :: x in s.sems ==> s.sems[x].value == s.sems[x].initial && s.sems[x].ps == s.sems[x].vs == 0
  }

  // ---- every thread is in one place ----

  datatype Place = Unborn | OnCpu | In(q: QueueId) | HeldBy(u: Tid) | Gone | Nowhere

  /** Where a thread with this status and program counter ought to be. */
  function PlaceFor(status: Status, pc: Pc): Place {
    match status
    case JustCreated => if pc == NotStarted then Unborn else Nowhere
    case Running => if pc == NotStarted || pc == New || pc == Finished then Nowhere else OnCpu
    case Ready => if pc == NotStarted || pc == Finished then Nowhere else In(ReadyList)
    case Blocked =>
      match pc
      case InP(x) => In(SemQ(x))
      case InAcquire(l, _) => In(LockQ(l))
      case InWait(c, via) => if via.None? then In(CondQ(c)) else HeldBy(via.value)
      case Finished => Gone
      case _ => Nowhere
  }

  function PlaceOf(s: State, t: Tid): Place {
    PlaceFor(s.StatusOf(t), s.PcOf(t))
  }

  /** Queue `q`, the processor and signaller `v` agree with the status and program counter of `u` on where `u` is. */
  ghost predicate PlaceOk(s: State, u: Tid, v: Tid, q: QueueId) {
    && Distinct(s.Queue(q))
    && (u in s.Queue(q) <==> PlaceOf(s, u) == In(q))
    && (s.cur == Some(u) <==> PlaceOf(s, u) == OnCpu)
    && (s.Taken(v) == Some(u) <==> PlaceOf(s, u) == HeldBy(v))
    && PlaceOf(s, u) != Nowhere
  }

  ghost predicate Places(s: State) {
    forall u, v, q :: PlaceOk(s, u, v, q)
  }

  lemma WakePlaces(s: State, q0: QueueId)
    requires Places(s) && (q0.LockQ? || q0.SemQ?)
    ensures Places(WakeOne(s, q0))
  {
    if s.Queue(q0) != [] {
      var s', h := WakeOne(s, q0), s.Queue(q0)[0];
      forall u, v, q ensures PlaceOk(s', u, v, q) {
        assert PlaceOk(s, u, v, q) && PlaceOk(s, u, h, q0) && PlaceOk(s, h, v, q0) && PlaceOk(s, h, u, ReadyList);
      }
    }
  }

  lemma BlockPlaces(s: State, t: Tid, q0: QueueId, pc: Pc)
    requires Places(s) && s.cur == Some(t) && s.Taken(t) == None
    requires PlaceFor(Blocked, pc) == In(q0)
    ensures Places(Block(s, t, q0, pc))
  {
    var s' := Block(s, t, q0, pc);
    forall u, v, q ensures PlaceOk(s', u, v, q) {
      assert PlaceOk(s, u, v, q) && PlaceOk(s, t, v, q) && PlaceOk(s, u, t, q0) && PlaceOk(s, t, u, q0);
    }
  }

  lemma SetPcPlaces(s: State, t: Tid, pc: Pc)
    requires Places(s) && s.cur == Some(t) && s.Taken(t) == None
    requires pc.Code? || pc.Signalling? || (pc.Dequeued? && pc.taken == None)
    ensures Places(SetPc(s, t, pc))
  {
    var s' := SetPc(s, t, pc);
    forall u, v, q ensures PlaceOk(s', u, v, q) {
      assert PlaceOk(s, u, v, q) && PlaceOk(s, t, v, q);
    }
  }

  lemma DequeuePlaces(s: State, t: Tid, pc: Pc)
    requires Places(s) && s.cur == Some(t) && s.PcOf(t).Signalling? && s.Queue(CondQ(s.PcOf(t).c)) != []
    requires pc.Dequeued? && pc.taken == Some(s.Queue(CondQ(s.PcOf(t).c))[0])
    ensures Places(SetPc(Dequeue(s, t, s.PcOf(t).c), t, pc))
  {
    var c := s.PcOf(t).c;
    var q0, h := CondQ(c), s.Queue(CondQ(c))[0];
    var s' := SetPc(Dequeue(s, t, c), t, pc);
    forall u, v, q ensures PlaceOk(s', u, v, q) {
      assert PlaceOk(s, u, v, q) && PlaceOk(s, t, v, q) && PlaceOk(s, h, v, q) && PlaceOk(s, h, u, q0)
             && PlaceOk(s, u, h, q0);
    }
  }

  /** The signaller makes the thread in its hands ready and goes on. */
  lemma HandOverPlaces(s: State, t: Tid)
    requires Places(s) && s.cur == Some(t) && s.Taken(t).Some?
    ensures Places(SetPc(ReadyToRun(s, s.Taken(t).value), t, Code))
  {
    var h := s.Taken(t).value;
    var s' := SetPc(ReadyToRun(s, h), t, Code);
    forall u, v, q ensures PlaceOk(s', u, v, q) {
      assert PlaceOk(s, u, v, q) && PlaceOk(s, t, v, q) && PlaceOk(s, h, v, q) && PlaceOk(s, h, t, ReadyList);
    }
  }

  lemma SwitchPlaces(s: State)
    requires Places(s) && s.cur == None && s.Queue(ReadyList) != []
    ensures Places(SwitchTo(s))
  {
    var h := s.Queue(ReadyList)[0];
    forall u, v, q ensures PlaceOk(SwitchTo(s), u, v, q) {
      assert PlaceOk(s, u, v, q) && PlaceOk(s, h, v, q) && PlaceOk(s, h, u, ReadyList) && PlaceOk(s, u, h, ReadyList);
      hide Places, PlaceOk, SwitchTo;
      SwitchPlace(s, u, v, q);
    }
  }

  lemma SwitchPlace(s: State, u: Tid, v: Tid, q: QueueId)
    requires s.cur == None && s.Queue(ReadyList) != [] && PlaceOk(s, u, v, q)
    requires var h := s.Queue(ReadyList)[0];
             PlaceOk(s, h, v, q) && PlaceOk(s, h, u, ReadyList) && PlaceOk(s, u, h, ReadyList)
    ensures PlaceOk(SwitchTo(s), u, v, q)
  {
  }

  lemma YieldPlaces(s: State, t: Tid)
    requires Places(s) && Interruptible(s, t)
    ensures Places(ReadyToRun(s, t).(cur := None))
  {
    var s' := ReadyToRun(s, t).(cur := None);
    forall u, v, q ensures PlaceOk(s', u, v, q) {
      assert PlaceOk(s, u, v, q) && PlaceOk(s, t, v, q) && PlaceOk(s, t, u, ReadyList);
    }
  }

  lemma PreemptPlaces(s: State, t: Tid)
    requires Places(s) && Enabled(s, Preempt(t))
    ensures Places(Apply(s, Preempt(t)))
  {
    YieldPlaces(s, t);
    SwitchPlaces(ReadyToRun(s, t).(cur := None));
    assert SwitchTo(ReadyToRun(s, t)) == SwitchTo(ReadyToRun(s, t).(cur := None));
  }

  lemma ForkPlaces(s: State, t: Tid, w: Tid)
    requires Places(s) && Enabled(s, Fork(t, w))
    ensures Places(Apply(s, Fork(t, w)))
  {
    var s' := Apply(s, Fork(t, w));
    forall u, v, q ensures PlaceOk(s', u, v, q) {
      assert PlaceOk(s, u, v, q) && PlaceOk(s, w, v, q) && PlaceOk(s, w, u, ReadyList);
    }
  }

  lemma FinishPlaces(s: State, t: Tid)
    requires Places(s) && Enabled(s, Finish(t))
    ensures Places(Apply(s, Finish(t)))
  {
    var s' := Apply(s, Finish(t));
    forall u, v, q ensures PlaceOk(s', u, v, q) {
      assert PlaceOk(s, u, v, q) && PlaceOk(s, t, v, q);
    }
  }

  // The remaining fields do not matter for the places.

  lemma SamePlaces(s: State, s': State)
    requires Places(s) && s'.cur == s.cur && s'.queues == s.queues && s'.pcs == s.pcs && s'.status == s.status
    ensures Places(s')
  {
    forall u, v, q ensures PlaceOk(s', u, v, q) {
      assert PlaceOk(s, u, v, q);
    }
  }

  lemma DropPlaces(s: State, l: LockId, t: Tid)
    requires Places(s)
    ensures Places(Drop(s, l, t))
    ensures Drop(s, l, t).cur == s.cur && Drop(s, l, t).pcs == s.pcs
  {
    if s.LockOf(l).active == Some(t) {
      var s1 := s.(locks := s.locks[l := LockState(true, None)]);
      SamePlaces(s, s1);
      WakePlaces(s1, LockQ(l));
    }
  }

  lemma TryPPlaces(s: State, t: Tid, x: int)
    requires Places(s) && s.cur == Some(t) && s.Taken(t) == None
    ensures Places(TryP(s, t, x))
  {
    if s.SemOf(x).value == 0 {
      BlockPlaces(s, t, SemQ(x), InP(x));
    } else {
      SetPcPlaces(s, t, Code);
      SamePlaces(SetPc(s, t, Code), TryP(s, t, x));
    }
  }

  lemma DoVPlaces(s: State, x: int)
    requires Places(s)
    ensures Places(DoV(s, x))
  {
    WakePlaces(s, SemQ(x));
    SamePlaces(WakeOne(s, SemQ(x)), DoV(s, x));
  }

  lemma TryAcquirePlaces(s: State, t: Tid, l: LockId, after: After)
    requires Places(s) && s.cur == Some(t) && s.Taken(t) == None
    ensures Places(TryAcquire(s, t, l, after))
  {
    if !s.LockOf(l).free {
      BlockPlaces(s, t, LockQ(l), InAcquire(l, after));
    } else {
      var s1 := Take(s, l, t);
      SamePlaces(s, s1);
      match after
      case Return => SetPcPlaces(s1, t, Code);
      case ToSignal(c, all, entry, woken) => SetPcPlaces(s1, t, Signalling(c, all, entry, woken));
      case ToWait(c) =>
        DropPlaces(s1, l, t);
        BlockPlaces(Drop(s1, l, t), t, CondQ(c), InWait(c, None));
    }
  }

  lemma ContinuePlaces(s: State, t: Tid)
    requires Places(s) && s.cur == Some(t)
    ensures Places(Continue(s, t))
  {
    match s.PcOf(t)
    case InP(x) => TryPPlaces(s, t, x);
    case InAcquire(l, after) => TryAcquirePlaces(s, t, l, after);
    case InWait(c, _) => TryAcquirePlaces(s, t, s.Guard(c), Return);
    case Signalling(c, all, entry, woken) =>
      if s.Queue(CondQ(c)) == [] {
        SetPcPlaces(s, t, Dequeued(c, all, entry, woken, None));
        DropPlaces(SetPc(s, t, Dequeued(c, all, entry, woken, None)), QueueLock(c), t);
      } else {
        var pc := Dequeued(c, all, entry, woken, Some(s.Queue(CondQ(c))[0]));
        DequeuePlaces(s, t, pc);
        DropPlaces(SetPc(Dequeue(s, t, c), t, pc), QueueLock(c), t);
      }
    case Dequeued(c, all, entry, woken, taken) =>
      if taken.None? {
        SetPcPlaces(s, t, Code);
      } else {
        HandOverPlaces(s, t);
        if all {
          AcquireFromCode(ReadyToRun(s, taken.value), t, QueueLock(c), ToSignal(c, all, entry, woken + [taken.value]));
          TryAcquirePlaces(SetPc(ReadyToRun(s, taken.value), t, Code), t, QueueLock(c),
                           ToSignal(c, all, entry, woken + [taken.value]));
        }
      }
    case _ =>
  }

  /** `TryAcquire` sets the program counter whatever it was. */
  lemma AcquireFromCode(s: State, t: Tid, l: LockId, after: After)
    requires !after.ToWait?
    ensures TryAcquire(SetPc(s, t, Code), t, l, after) == TryAcquire(s, t, l, after)
  {
    var m := s.pcs[t := Code];
    assert m[t := InAcquire(l, after)] == s.pcs[t := InAcquire(l, after)];
    match after
    case Return => assert m[t := Code] == s.pcs[t := Code];
    case ToSignal(c, all, entry, woken) =>
      assert m[t := Signalling(c, all, entry, woken)] == s.pcs[t := Signalling(c, all, entry, woken)];
  }

  /** Every step keeps every thread in exactly one place. */
  lemma StepPlaces(s: State, e: Event)
    requires Places(s) && Enabled(s, e)
    ensures Places(Apply(s, e))
  {
    match e
    case CallP(t, x) => TryPPlaces(s, t, x);
    case CallV(t, x) => DoVPlaces(s, x);
    case HandlerV(x) => DoVPlaces(s, x);
    case CallAcquire(t, n) => TryAcquirePlaces(s, t, User(n), Return);
    case CallRelease(t, n) => DropPlaces(s, User(n), t);
    case CallWait(t, c) =>
      DropPlaces(s, s.Guard(c), t);
      TryAcquirePlaces(Drop(s, s.Guard(c), t), t, QueueLock(c), ToWait(c));
    case CallSignal(t, c, all) => TryAcquirePlaces(s, t, QueueLock(c), ToSignal(c, all, s.Queue(CondQ(c)), []));
    case Resume(t) => ContinuePlaces(s, t);
    case Preempt(t) => PreemptPlaces(s, t);
    case Dispatch => SwitchPlaces(s);
    case Fork(t, u) => ForkPlaces(s, t, u);
    case Finish(t) => FinishPlaces(s, t);
  }

  // ---- locks and the queue locks of conditions ----

  /**
   A lock is free exactly when nobody holds it; the queue lock of a condition is
   held exactly by a thread inside Signal or Broadcast, which also holds the
   condition's own lock; and nobody ever waits for a queue lock.
   */
  ghost predicate LockOk(s: State, t: Tid, c: int, l: LockId) {
    && (s.LockOf(l).free <==> s.LockOf(l).active == None)
    && (s.LockOf(QueueLock(c)).active == Some(t) <==> s.PcOf(t).Signalling? && s.PcOf(t).c == c)
    && (s.PcOf(t).Signalling? || s.PcOf(t).Dequeued? ==> s.LockOf(s.Guard(s.PcOf(t).c)).active == Some(t))
    && (s.PcOf(t).InAcquire? ==> s.PcOf(t).l.User? && s.PcOf(t).after == Return)
  }

  ghost predicate Locks(s: State) {
    forall t, c, l :: LockOk(s, t, c, l)
  }

  lemma SameLocks(s: State, s': State)
    requires Locks(s) && s'.pcs == s.pcs && s'.locks == s.locks && s'.guards == s.guards
    ensures Locks(s')
  {
    forall t, c, l ensures LockOk(s', t, c, l) {
      assert LockOk(s, t, c, l);
    }
  }

  /** A thread that holds the condition's lock finds its queue lock free. */
  lemma QueueLockFree(s: State, t: Tid, c: int)
    requires Locks(s) && s.LockOf(s.Guard(c)).active == Some(t) && !s.PcOf(t).Signalling?
    ensures s.LockOf(QueueLock(c)) == LockState(true, None)
  {
    var a := s.LockOf(QueueLock(c)).active;
    var holder := if a.Some? then a.value else t;
    assert LockOk(s, t, c, QueueLock(c)) && LockOk(s, holder, c, QueueLock(c));
  }

  /** What dropping a lock one holds changes besides the wait queue and the ready list. */
  lemma DropShape(s: State, l: LockId, t: Tid)
    requires s.LockOf(l).active == Some(t)
    ensures var s' := Drop(s, l, t);
            && s'.locks == s.locks[l := LockState(true, None)] && s'.pcs == s.pcs && s'.guards == s.guards
            && s'.cur == s.cur && s'.sems == s.sems && s'.doomed == s.doomed
            && (forall q :: q != ReadyList && q != LockQ(l) ==> s'.Queue(q) == s.Queue(q))
  {
  }

  /** A running thread changes its program counter outside the signalling code. */
  lemma SetPcLocks(s: State, s': State, t: Tid, pc: Pc)
    requires Locks(s) && !s.PcOf(t).Signalling?
    requires pc.Code? || pc.InP? || pc.InWait? || pc.Finished? || pc.New?
             || (pc.InAcquire? && pc.l.User? && pc.after == Return)
    requires s'.pcs == s.pcs[t := pc] && s'.guards == s.guards && forall l :: s'.LockOf(l) == s.LockOf(l)
    ensures Locks(s')
  {
    forall u, c, l ensures LockOk(s', u, c, l) {
      assert LockOk(s, u, c, l);
    }
  }

  lemma TryAcquireLocks(s: State, t: Tid, n: int)
    requires Locks(s) && !s.PcOf(t).Signalling? && !s.PcOf(t).Dequeued?
    ensures Locks(TryAcquire(s, t, User(n), Return))
  {
    var s' := TryAcquire(s, t, User(n), Return);
    if s.LockOf(User(n)).free {
      forall u, c, l ensures LockOk(s', u, c, l) {
        assert LockOk(s, u, c, l) && LockOk(s, u, c, User(n));
      }
    } else {
      SetPcLocks(s, s', t, InAcquire(User(n), Return));
    }
  }

  lemma DropLocks(s: State, t: Tid, n: int)
    requires Locks(s) && !s.PcOf(t).Signalling? && !s.PcOf(t).Dequeued?
    ensures Locks(Drop(s, User(n), t))
  {
    if s.LockOf(User(n)).active == Some(t) {
      var s1 := s.(locks := s.locks[User(n) := LockState(true, None)]);
      forall u, c, l ensures LockOk(s1, u, c, l) {
        assert LockOk(s, u, c, l);
      }
      SameLocks(s1, Drop(s, User(n), t));
    }
  }

  /** Taking the free queue lock while holding the condition's lock. */
  lemma EnterSignalLocks(s: State, t: Tid, c: int, after: After)
    requires Locks(s) && s.LockOf(s.Guard(c)).active == Some(t) && !s.PcOf(t).Signalling?
    requires after.ToSignal? && after.c == c
    ensures s.LockOf(QueueLock(c)).free && Locks(TryAcquire(s, t, QueueLock(c), after))
  {
    QueueLockFree(s, t, c);
    var s' := TryAcquire(s, t, QueueLock(c), after);
    forall u, d, l ensures LockOk(s', u, d, l) {
      assert LockOk(s, u, d, l);
    }
  }

  lemma WaitShape(s: State, t: Tid, c: int)
    requires Locks(s) && Enabled(s, CallWait(t, c))
    ensures Drop(s, s.Guard(c), t).LockOf(QueueLock(c)).free
    ensures Apply(s, CallWait(t, c)).locks
            == s.locks[s.Guard(c) := LockState(true, None)][QueueLock(c) := LockState(true, None)]
    ensures Apply(s, CallWait(t, c)).pcs == s.pcs[t := InWait(c, None)] && Apply(s, CallWait(t, c)).guards == s.guards
    ensures Apply(s, CallWait(t, c)).sems == s.sems && Apply(s, CallWait(t, c)).doomed == s.doomed
  {
    QueueLockFree(s, t, c);
    hide Places, Locks, LockOk;
    var l := QueueLock(c);
    var s1 := Drop(s, s.Guard(c), t);
    DropShape(s, s.Guard(c), t);
    assert s1.LockOf(l) == LockState(true, None);
    var s2 := Take(s1, l, t);
    DropShape(s2, l, t);
    assert s1.locks[l := LockState(false, Some(t))][l := LockState(true, None)] == s1.locks[l := LockState(true, None)];
  }

  /**
   Releasing the condition's lock and going to sleep on the condition is one step,
   never held up by the queue lock.
   */
  lemma WaitLocks(s: State, t: Tid, c: int)
    requires Locks(s) && Enabled(s, CallWait(t, c))
    ensures Locks(Apply(s, CallWait(t, c)))
  {
    WaitShape(s, t, c);
    QueueLockFree(s, t, c);
    DropLocks(s, t, s.Guard(c).n);
    var s1 := Drop(s, s.Guard(c), t);
    DropShape(s, s.Guard(c), t);
    hide Apply, Drop, Locks;
    SetPcLocks(s1, Apply(s, CallWait(t, c)), t, InWait(c, None));
  }

  lemma SignallingShape(s: State, t: Tid)
    requires Locks(s) && s.PcOf(t).Signalling?
    ensures var c, s' := s.PcOf(t).c, Continue(s, t);
            var pc := s.PcOf(t);
            var q := s.Queue(CondQ(c));
            && s'.locks == s.locks[QueueLock(c) := LockState(true, None)] && s'.guards == s.guards && s'.sems == s.sems
            && s'.pcs == if q == [] then s.pcs[t := Dequeued(c, pc.all, pc.entry, pc.woken, None)]
                         else s.pcs[q[0] := InWait(c, Some(t))]
                                   [t := Dequeued(c, pc.all, pc.entry, pc.woken, Some(q[0]))]
  {
    var pc, c := s.PcOf(t), s.PcOf(t).c;
    assert LockOk(s, t, c, QueueLock(c));
    var q := s.Queue(CondQ(c));
    var s1 := if q == [] then SetPc(s, t, Dequeued(c, pc.all, pc.entry, pc.woken, None))
              else SetPc(Dequeue(s, t, c), t, Dequeued(c, pc.all, pc.entry, pc.woken, Some(q[0])));
    DropShape(s1, QueueLock(c), t);
  }

  lemma SignallingLocks(s: State, t: Tid)
    requires Places(s) && Locks(s) && s.PcOf(t).Signalling?
    ensures Locks(Continue(s, t))
  {
    SignallingShape(s, t);
    var s', c := Continue(s, t), s.PcOf(t).c;
    var q := s.Queue(CondQ(c));
    var h := if q == [] then t else q[0];
    assert PlaceOk(s, h, t, CondQ(c)) && LockOk(s, t, c, QueueLock(c));
    hide Continue, Places;
    forall u, d, l ensures LockOk(s', u, d, l) {
      assert LockOk(s, u, d, l) && LockOk(s, u, c, l);
      hide Locks, LockOk;
      SignallingLock(s, s', t, h, u, d, l);
    }
  }

  lemma SignallingLock(s: State, s': State, t: Tid, h: Tid, u: Tid, d: int, l: LockId)
    requires s.PcOf(t).Signalling? && LockOk(s, t, s.PcOf(t).c, QueueLock(s.PcOf(t).c))
    requires LockOk(s, u, d, l) && LockOk(s, u, s.PcOf(t).c, l)
    requires h == t || s.PcOf(h).InWait?
    requires var pc, c := s.PcOf(t), s.PcOf(t).c;
             && s'.locks == s.locks[QueueLock(c) := LockState(true, None)] && s'.guards == s.guards
             && exists taken ::
                  var pc' := Dequeued(c, pc.all, pc.entry, pc.woken, taken);
                  s'.pcs == if h == t then s.pcs[t := pc'] else s.pcs[h := InWait(c, Some(t))][t := pc']
    ensures LockOk(s', u, d, l)
  {
  }

  lemma ContinueLocks(s: State, t: Tid)
    requires Places(s) && Locks(s) && s.cur == Some(t)
    ensures Locks(Continue(s, t))
  {
    assert PlaceOk(s, t, t, ReadyList) && LockOk(s, t, 0, User(0));
    match s.PcOf(t)
    case InP(x) => TryPLocks(s, t, x);
    case InAcquire(l, after) => TryAcquireLocks(s, t, l.n);
    case InWait(c, _) => TryAcquireLocks(s, t, s.Guard(c).n);
    case Signalling(c, all, entry, woken) => SignallingLocks(s, t);
    case Dequeued(c, all, entry, woken, taken) =>
      if taken.None? {
        SetPcLocks(s, SetPc(s, t, Code), t, Code);
      } else {
        var s1 := ReadyToRun(s, taken.value);
        SameLocks(s, s1);
        if all {
          EnterSignalLocks(s1, t, c, ToSignal(c, all, entry, woken + [taken.value]));
        } else {
          SetPcLocks(s1, SetPc(s1, t, Code), t, Code);
        }
      }
    case _ =>
  }

  lemma TryPLocks(s: State, t: Tid, x: int)
    requires Locks(s) && !s.PcOf(t).Signalling?
    ensures Locks(TryP(s, t, x))
  {
    SetPcLocks(s, TryP(s, t, x), t, if s.SemOf(x).value == 0 then InP(x) else Code);
  }

  lemma SwitchLocks(s: State)
    requires Locks(s) && s.Queue(ReadyList) != []
    ensures Locks(SwitchTo(s))
  {
    var h := s.Queue(ReadyList)[0];
    if s.PcOf(h) == New {
      SetPcLocks(s, SwitchTo(s), h, Code);
    } else {
      SameLocks(s, SwitchTo(s));
    }
  }

  lemma StepLocks(s: State, e: Event)
    requires Places(s) && Locks(s) && Enabled(s, e)
    ensures Locks(Apply(s, e))
  {
    match e
    case CallP(t, x) => TryPLocks(s, t, x);
    case CallV(t, x) => SameLocks(s, DoV(s, x));
    case HandlerV(x) => SameLocks(s, DoV(s, x));
    case CallAcquire(t, n) => TryAcquireLocks(s, t, n);
    case CallRelease(t, n) => DropLocks(s, t, n);
    case CallWait(t, c) => WaitLocks(s, t, c);
    case CallSignal(t, c, all) => EnterSignalLocks(s, t, c, ToSignal(c, all, s.Queue(CondQ(c)), []));
    case Resume(t) => ContinueLocks(s, t);
    case Preempt(t) =>
      SameLocks(s, ReadyToRun(s, t));
      SwitchLocks(ReadyToRun(s, t));
    case Dispatch => SwitchLocks(s);
    case Fork(t, u) => SetPcLocks(s, Apply(s, e), u, New);
    case Finish(t) => SetPcLocks(s, Apply(s, e), t, Finished);
  }

  // ---- no wake-up is lost ----

  /** Threads that have been woken in the loop of `P` and have yet to look at the value again. */
  ghost function WokenP(s: State, x: int): set<Tid> {
    set t | t in s.pcs && s.PcOf(t) == InP(x) && !s.Asleep(t)
  }

  /** Threads that have been woken in the loop of `Acquire` and have yet to look at the lock again. */
  ghost function WokenL(s: State, l: LockId): set<Tid> {
    set t | t in s.pcs && s.PcOf(t).InAcquire? && s.PcOf(t).l == l && !s.Asleep(t)
  }

  /** A free lock with waiters has a woken thread about to look at it. */
  ghost predicate LockWake(s: State, l: LockId) {
    s.LockOf(l).free && s.Queue(LockQ(l)) != [] ==> WokenL(s, l) != {}
  }

  /**
   A semaphore with waiters has at least as many woken threads as its value;
   and the value counts the completed operations and is never negative.
   */
  ghost predicate SemWake(s: State, x: int) {
    var m := s.SemOf(x);
    && (s.Queue(SemQ(x)) != [] ==> m.value <= |WokenP(s, x)|)
    && m.value >= 0 && m.value == m.initial + m.vs - m.ps
  }

  ghost predicate WakeOk(s: State, l: LockId, x: int) {
    LockWake(s, l) && SemWake(s, x)
  }

  ghost predicate Wakes(s: State) {
    forall l, x :: WakeOk(s, l, x)
  }

  /** More woken threads do no harm. */
  lemma LockKept(s: State, s': State, l: LockId)
    requires LockWake(s, l) && s'.LockOf(l) == s.LockOf(l) && s'.Queue(LockQ(l)) == s.Queue(LockQ(l))
    requires WokenL(s, l) <= WokenL(s', l)
    ensures LockWake(s', l)
  {
    hide WokenL;
  }

  lemma SemKept(s: State, s': State, x: int)
    requires SemWake(s, x) && s'.SemOf(x) == s.SemOf(x) && s'.Queue(SemQ(x)) == s.Queue(SemQ(x))
    requires WokenP(s, x) <= WokenP(s', x)
    ensures SemWake(s', x)
  {
    hide WokenP;
    CardMonotone(WokenP(s, x), WokenP(s', x));
  }

  lemma SameWoken(s: State, s': State, l: LockId, x: int)
    requires s'.pcs == s.pcs && s'.status == s.status
    ensures WokenL(s', l) == WokenL(s, l) && WokenP(s', x) == WokenP(s, x)
  {
  }

  lemma CardMonotone(a: set<Tid>, b: set<Tid>)
    requires a <= b
    ensures |a| <= |b|
  {
    assert b == a + (b - a);
  }

  lemma WakeOneWakes(s: State, q: QueueId)
    requires Places(s) && Wakes(s) && (q.LockQ? || q.SemQ?)
    ensures Wakes(WakeOne(s, q))
  {
    if s.Queue(q) != [] {
      var s', h := WakeOne(s, q), s.Queue(q)[0];
      assert PlaceOk(s, h, h, q);
      forall l, x ensures WakeOk(s', l, x) {
        assert WakeOk(s, l, x);
        assert WokenL(s, l) <= WokenL(s', l) && WokenP(s, x) <= WokenP(s', x);
        CardMonotone(WokenP(s, x), WokenP(s', x));
      }
    }
  }

  lemma BlockWakes(s: State, t: Tid, q: QueueId, pc: Pc)
    requires Places(s) && Wakes(s) && s.cur == Some(t)
    requires q.LockQ? ==> !s.LockOf(q.l).free
    requires q.SemQ? ==> s.SemOf(q.x).value == 0
    requires s.PcOf(t).InAcquire? ==> q == LockQ(s.PcOf(t).l)
    requires s.PcOf(t).InP? ==> q == SemQ(s.PcOf(t).x)
    requires PlaceFor(Blocked, pc) == In(q)
    ensures Wakes(Block(s, t, q, pc))
  {
    forall l, x ensures WakeOk(Block(s, t, q, pc), l, x) {
      assert WakeOk(s, l, x);
      hide Places, Wakes, LockWake, SemWake, Block;
      BlockLock(s, t, q, pc, l);
      BlockSem(s, t, q, pc, x);
    }
  }

  lemma BlockLock(s: State, t: Tid, q: QueueId, pc: Pc, l: LockId)
    requires LockWake(s, l) && (q.LockQ? ==> !s.LockOf(q.l).free) && PlaceFor(Blocked, pc) == In(q)
    requires s.PcOf(t).InAcquire? ==> q == LockQ(s.PcOf(t).l)
    ensures LockWake(Block(s, t, q, pc), l)
  {
    if q != LockQ(l) {
      LockKept(s, Block(s, t, q, pc), l);
    }
  }

  lemma BlockSem(s: State, t: Tid, q: QueueId, pc: Pc, x: int)
    requires SemWake(s, x) && (q.SemQ? ==> s.SemOf(q.x).value == 0) && PlaceFor(Blocked, pc) == In(q)
    requires s.PcOf(t).InP? ==> q == SemQ(s.PcOf(t).x)
    ensures SemWake(Block(s, t, q, pc), x)
  {
    if q != SemQ(x) {
      SemKept(s, Block(s, t, q, pc), x);
    }
  }

  /** A thread that is not waiting for a free lock or in `P` moves on, and others may be made ready. */
  lemma MoveWakes(s: State, s': State)
    requires Wakes(s) && s'.locks == s.locks && s'.sems == s.sems
    requires forall q :: q != ReadyList && !q.CondQ? ==> s'.Queue(q) == s.Queue(q)
    requires forall l :: s.LockOf(l).free ==> WokenL(s, l) <= WokenL(s', l)
    requires forall x :: WokenP(s, x) <= WokenP(s', x)
    ensures Wakes(s')
  {
    hide WokenL, WokenP, LockWake, SemWake;
    forall l, x ensures WakeOk(s', l, x) {
      assert WakeOk(s, l, x);
      MoveLock(s, s', l);
      SemKept(s, s', x);
    }
  }

  lemma MoveLock(s: State, s': State, l: LockId)
    requires LockWake(s, l) && s'.LockOf(l) == s.LockOf(l) && s'.Queue(LockQ(l)) == s.Queue(LockQ(l))
    requires s.LockOf(l).free ==> WokenL(s, l) <= WokenL(s', l)
    ensures LockWake(s', l)
  {
    hide WokenL;
  }

  lemma TakeWakes(s: State, l: LockId, t: Tid)
    requires Wakes(s)
    ensures Wakes(Take(s, l, t))
  {
    forall k, x ensures WakeOk(Take(s, l, t), k, x) {
      assert WakeOk(s, k, x);
      assert WokenP(Take(s, l, t), x) == WokenP(s, x) && WokenL(Take(s, l, t), k) == WokenL(s, k);
    }
  }

  lemma WakeOneSets(s: State, q: QueueId)
    requires Places(s) && (q.LockQ? || q.SemQ?)
    ensures forall l :: WokenL(s, l) <= WokenL(WakeOne(s, q), l)
    ensures forall x :: WokenP(s, x) <= WokenP(WakeOne(s, q), x)
    ensures s.Queue(q) != [] && q.LockQ? ==> s.Queue(q)[0] in WokenL(WakeOne(s, q), q.l)
    ensures s.Queue(q) != [] && q.SemQ? ==>
              s.Queue(q)[0] !in WokenP(s, q.x) && WokenP(WakeOne(s, q), q.x) == WokenP(s, q.x) + {s.Queue(q)[0]}
  {
    if s.Queue(q) != [] {
      assert PlaceOk(s, s.Queue(q)[0], 0, q);
    }
  }

  lemma DropWakes(s: State, l: LockId, t: Tid)
    requires Places(s) && Wakes(s)
    ensures Wakes(Drop(s, l, t))
  {
    if s.LockOf(l).active == Some(t) {
      forall k, x ensures WakeOk(Drop(s, l, t), k, x) {
        assert WakeOk(s, k, x);
        hide WakeOk, Places, Wakes, Drop;
        DroppedWakeOk(s, l, t, k, x);
      }
    }
  }

  lemma DroppedWakeOk(s: State, l: LockId, t: Tid, k: LockId, x: int)
    requires Places(s) && WakeOk(s, k, x) && s.LockOf(l).active == Some(t)
    ensures WakeOk(Drop(s, l, t), k, x)
  {
    var s1, s' := s.(locks := s.locks[l := LockState(true, None)]), Drop(s, l, t);
    SamePlaces(s, s1);
    WakeOneSets(s1, LockQ(l));
    SameWoken(s, s1, k, x);
    DropShape(s, l, t);
    assert s' == WakeOne(s1, LockQ(l)) && (s.Queue(LockQ(l)) == [] ==> s'.Queue(LockQ(l)) == []);
    hide Drop, WakeOne, Places, WokenL, WokenP;
    assert s'.Queue(SemQ(x)) == s.Queue(SemQ(x));
    SemKept(s, s', x);
    if k != l {
      assert s'.Queue(LockQ(k)) == s.Queue(LockQ(k));
      LockKept(s, s', k);
    }
  }

  /** A P that does not wait: one fewer woken thread, perhaps, and one less to the value. */
  lemma PassWakes(s: State, t: Tid, x: int)
    requires Wakes(s) && s.cur == Some(t) && !s.PcOf(t).InAcquire? && s.SemOf(x).value != 0
    requires s.PcOf(t).InP? ==> s.PcOf(t).x == x
    ensures Wakes(TryP(s, t, x))
  {
    forall l, y ensures WakeOk(TryP(s, t, x), l, y) {
      assert WakeOk(s, l, y);
      hide Wakes, LockWake, SemWake, TryP;
      PassLock(s, t, x, l);
      PassSem(s, t, x, y);
    }
  }

  lemma PassLock(s: State, t: Tid, x: int, l: LockId)
    requires LockWake(s, l) && !s.PcOf(t).InAcquire? && s.SemOf(x).value != 0
    ensures LockWake(TryP(s, t, x), l)
  {
    LockKept(s, TryP(s, t, x), l);
  }

  lemma PassSem(s: State, t: Tid, x: int, y: int)
    requires SemWake(s, y) && s.SemOf(x).value != 0 && (s.PcOf(t).InP? ==> s.PcOf(t).x == x)
    ensures SemWake(TryP(s, t, x), y)
  {
    var s' := TryP(s, t, x);
    assert WokenP(s', y) == WokenP(s, y) - {t};
    if y != x {
      assert t !in WokenP(s, y);
      hide WokenP;
      SemKept(s, s', y);
    } else {
      hide WokenP;
    }
  }

  lemma TryPWakes(s: State, t: Tid, x: int)
    requires Places(s) && Wakes(s) && s.cur == Some(t) && !s.PcOf(t).InAcquire?
    requires s.PcOf(t).InP? ==> s.PcOf(t).x == x
    ensures Wakes(TryP(s, t, x))
  {
    if s.SemOf(x).value == 0 {
      BlockWakes(s, t, SemQ(x), InP(x));
    } else {
      hide Places, Wakes;
      PassWakes(s, t, x);
    }
  }

  lemma DoVWakes(s: State, x: int)
    requires Places(s) && Wakes(s)
    ensures Wakes(DoV(s, x))
  {
    WakeOneWakes(s, SemQ(x));
    forall l, y ensures WakeOk(DoV(s, x), l, y) {
      assert WakeOk(s, l, y) && WakeOk(WakeOne(s, SemQ(x)), l, y);
      hide WakeOk, Places, Wakes, DoV, WakeOne;
      RaisedWakeOk(s, x, l, y);
    }
  }

  lemma RaisedWakeOk(s: State, x: int, l: LockId, y: int)
    requires Places(s) && WakeOk(s, l, y) && WakeOk(WakeOne(s, SemQ(x)), l, y)
    ensures WakeOk(DoV(s, x), l, y)
  {
    var s1, s' := WakeOne(s, SemQ(x)), DoV(s, x);
    SameWoken(s1, s', l, y);
    hide WokenL, WokenP;
    LockKept(s1, s', l);
    if y != x {
      SemKept(s1, s', y);
    } else {
      hide LockWake;
      RaisedSem(s, x);
    }
  }

  lemma RaisedSem(s: State, x: int)
    requires Places(s) && SemWake(s, x)
    ensures SemWake(DoV(s, x), x)
  {
    var s1, s' := WakeOne(s, SemQ(x)), DoV(s, x);
    WakeOneSets(s, SemQ(x));
    SameWoken(s1, s', User(0), x);
    assert s1.sems == s.sems && s'.queues == s1.queues && (s.Queue(SemQ(x)) == [] ==> s1 == s);
    hide WakeOne, Places, WokenP;
  }

  lemma TryAcquireWakes(s: State, t: Tid, l: LockId, after: After)
    requires Places(s) && Wakes(s) && s.cur == Some(t) && !s.PcOf(t).InP? && !after.ToWait?
    requires s.PcOf(t).InAcquire? ==> s.PcOf(t).l == l
    ensures Wakes(TryAcquire(s, t, l, after))
  {
    if !s.LockOf(l).free {
      BlockWakes(s, t, LockQ(l), InAcquire(l, after));
    } else {
      TakeWakes(s, l, t);
      MoveWakes(Take(s, l, t), TryAcquire(s, t, l, after));
    }
  }

  lemma WaitWakes(s: State, t: Tid, c: int)
    requires Places(s) && Locks(s) && Wakes(s) && Enabled(s, CallWait(t, c))
    ensures Wakes(Apply(s, CallWait(t, c)))
  {
    WaitShape(s, t, c);
    DropPlaces(s, s.Guard(c), t);
    DropWakes(s, s.Guard(c), t);
    hide Wakes, Places, Locks, WakeOne, Drop;
    var l, s1 := QueueLock(c), Drop(s, s.Guard(c), t);
    var s2 := Take(s1, l, t);
    TakeWakes(s1, l, t);
    SamePlaces(s1, s2);
    DropPlaces(s2, l, t);
    DropWakes(s2, l, t);
    BlockWakes(Drop(s2, l, t), t, CondQ(c), InWait(c, None));
  }

  lemma ContinueWakes(s: State, t: Tid)
    requires Places(s) && Locks(s) && Wakes(s) && s.cur == Some(t)
    ensures Wakes(Continue(s, t))
  {
    assert PlaceOk(s, t, t, ReadyList) && LockOk(s, t, 0, User(0));
    match s.PcOf(t)
    case InP(x) => TryPWakes(s, t, x);
    case InAcquire(l, after) => TryAcquireWakes(s, t, l, after);
    case InWait(c, _) => TryAcquireWakes(s, t, s.Guard(c), Return);
    case Signalling(c, all, entry, woken) => SignallingWakes(s, t);
    case Dequeued(c, all, entry, woken, taken) =>
      if taken.None? {
        MoveWakes(s, SetPc(s, t, Code));
      } else {
        var h := taken.value;
        assert PlaceOk(s, h, t, ReadyList);
        HandOverPlaces(s, t);
        var s1 := SetPc(ReadyToRun(s, h), t, Code);
        MoveWakes(s, s1);
        if all {
          AcquireFromCode(ReadyToRun(s, h), t, QueueLock(c), ToSignal(c, all, entry, woken + [h]));
          TryAcquireWakes(s1, t, QueueLock(c), ToSignal(c, all, entry, woken + [h]));
        }
      }
    case _ =>
  }

  lemma SignallingWakes(s: State, t: Tid)
    requires Places(s) && Wakes(s) && s.cur == Some(t) && s.PcOf(t).Signalling?
    ensures Wakes(Continue(s, t))
  {
    var pc, c := s.PcOf(t), s.PcOf(t).c;
    var q := s.Queue(CondQ(c));
    var pc' := Dequeued(c, pc.all, pc.entry, pc.woken, if q == [] then None else Some(q[0]));
    var s1 := SetPc(if q == [] then s else Dequeue(s, t, c), t, pc');
    DequeueWakes(s, t, pc');
    if q == [] {
      SetPcPlaces(s, t, pc');
    } else {
      DequeuePlaces(s, t, pc');
    }
    hide Places, Wakes, Drop;
    DropWakes(s1, QueueLock(c), t);
  }

  lemma DequeueWakes(s: State, t: Tid, pc': Pc)
    requires Places(s) && Wakes(s) && s.PcOf(t).Signalling? && pc'.Dequeued?
    ensures var c := s.PcOf(t).c; Wakes(SetPc(if s.Queue(CondQ(c)) == [] then s else Dequeue(s, t, c), t, pc'))
  {
    var c := s.PcOf(t).c;
    var q := s.Queue(CondQ(c));
    if q != [] {
      assert PlaceOk(s, q[0], t, CondQ(c));
    }
    hide Places, Wakes;
    MoveWakes(s, SetPc(if q == [] then s else Dequeue(s, t, c), t, pc'));
  }

  /** A thread changes its program counter between others that wait for nothing, or becomes ready. */
  lemma SwitchWakes(s: State)
    requires Wakes(s) && s.Queue(ReadyList) != []
    ensures Wakes(SwitchTo(s))
  {
    MoveWakes(s, SwitchTo(s));
  }

  lemma YieldWakes(s: State, t: Tid)
    requires Wakes(s)
    ensures Wakes(ReadyToRun(s, t))
  {
    MoveWakes(s, ReadyToRun(s, t));
  }

  lemma ForkWakes(s: State, t: Tid, u: Tid)
    requires Wakes(s) && Enabled(s, Fork(t, u))
    ensures Wakes(Apply(s, Fork(t, u)))
  {
    MoveWakes(s, Apply(s, Fork(t, u)));
  }

  lemma FinishWakes(s: State, t: Tid)
    requires Wakes(s) && Enabled(s, Finish(t))
    ensures Wakes(Apply(s, Finish(t)))
  {
    MoveWakes(s, Apply(s, Finish(t)));
  }

  lemma StepWakes(s: State, e: Event)
    requires Places(s) && Locks(s) && Wakes(s) && Enabled(s, e)
    ensures Wakes(Apply(s, e))
  {
    hide Wakes, Places, Locks, TryP, DoV, TryAcquire, Drop, Continue, SwitchTo;
    match e
    case CallP(t, x) => TryPWakes(s, t, x);
    case CallV(t, x) => DoVWakes(s, x);
    case HandlerV(x) => DoVWakes(s, x);
    case CallAcquire(t, n) => TryAcquireWakes(s, t, User(n), Return);
    case CallRelease(t, n) => DropWakes(s, User(n), t);
    case CallWait(t, c) => WaitWakes(s, t, c);
    case CallSignal(t, c, all) => TryAcquireWakes(s, t, QueueLock(c), ToSignal(c, all, s.Queue(CondQ(c)), []));
    case Resume(t) => ContinueWakes(s, t);
    case Preempt(t) =>
      YieldWakes(s, t);
      SwitchWakes(ReadyToRun(s, t));
    case Dispatch => SwitchWakes(s);
    case Fork(t, u) => ForkWakes(s, t, u);
    case Finish(t) => FinishWakes(s, t);
  }
}
