/**
 `SynchDisk`, the synchronous interface to an asynchronous disk, on top of the
 synchronisation kernel: any number of threads read and write sectors while
 others do anything else with other locks, conditions and semaphores.
 */
module DiskRequests {
  import opened Options
  import opened Kernel
  import opened KernelRuns
  import opened KernelTheorems
  import opened KernelInterface
  import Disks

  type Data = seq<int>

  datatype Request = Read(sector: int) | Write(sector: int, bytes: Data)

  /** Where a thread is in ReadSector or WriteSector. */
  datatype Client =
    | Idle
    | Asking(r: Request)                          // on its way to the lock
    | Waiting(id: nat, r: Request, bytes: Data)   // request issued; `bytes` is what was read or written

  datatype Sys = Sys(
    k: State,
    lock: int,
    sem: int,
    image: seq<Data>,
    active: Option<nat>,       // the request under way; the disk's `active` flag is `active.Some?`
    issued: nat,               // number of requests so far
    done: set<nat>,            // requests whose interrupt has been handled
    clients: map<Tid, Client>)
  {
    function Of(t: Tid): Client { if t in clients then clients[t] else Idle }
    function Value(): int { k.SemOf(sem).value }
  }

  datatype Step =
    | Elsewhere(e: Event)
    | Begin(t: Tid, r: Request)
    | Issue(t: Tid)            // ReadRequest or WriteRequest, then P
    | Interrupt                // HandleInterrupt, then RequestDone
    | Leave(t: Tid)

  predicate ValidSector(r: Request) { Disks.OnDisk(r.sector) }

  predicate Foreign(s: Sys, e: Event) {
    && !((e.CallP? || e.CallV? || e.HandlerV?) && e.x == s.sem)
    && match Actor(s.k, e)
       case None => true
       case Some(t) => e.Resume? || (s.Of(t).Idle? && !(e.CallAcquire? && e.n == s.lock))
  }

  predicate Allowed(s: Sys, st: Step) {
    match st
    case Elsewhere(e) => Enabled(s.k, e) && Foreign(s, e)
    case Begin(t, r) => InCode(s.k, t) && s.Of(t).Idle? && ValidSector(r)
    case Issue(t) => InCode(s.k, t) && s.Of(t).Asking?
    case Interrupt => s.active.Some? && Enabled(s.k, HandlerV(s.sem))
    case Leave(t) => InCode(s.k, t) && s.Of(t).Waiting?
  }

  function EventOf(s: Sys, st: Step): Event {
    match st
    case Elsewhere(e) => e
    case Begin(t, _) => CallAcquire(t, s.lock)
    case Issue(t) => CallP(t, s.sem)
    case Interrupt => HandlerV(s.sem)
    case Leave(t) => CallRelease(t, s.lock)
  }

  /** The request is carried out at once; only its completion is announced later. */
  function Effect(s: Sys, st: Step): Sys {
    match st
    case Elsewhere(_) => s
    case Begin(t, r) => s.(clients := s.clients[t := Asking(r)])
    case Issue(t) =>
      if s.Of(t).Asking? && 0 <= s.Of(t).r.sector < |s.image| then
        var r := s.Of(t).r;
        var bytes := if r.Read? then s.image[r.sector] else r.bytes;
        s.(clients := s.clients[t := Waiting(s.issued, r, bytes)], image := s.image[r.sector := bytes],
           active := Some(s.issued), issued := s.issued + 1)
      else s
    case Interrupt => if s.active.Some? then s.(active := None, done := s.done + {s.active.value}) else s
    case Leave(t) => s.(clients := s.clients[t := Idle])
  }

  function Do(s: Sys, st: Step): Sys
    requires Enabled(s.k, EventOf(s, st))
  {
    Effect(s, st).(k := Apply(s.k, EventOf(s, st)))
  }

  ghost predicate Start(s: Sys) {
    && Init(s.k) && s.clients == map[] && s.active == None && s.issued == 0 && s.done == {}
    && |s.image| == Disks.NumSectors && s.Value() == 0
  }

  // ---- the invariant ----

  predicate Quiet(s: Sys) { s.active == None && s.Value() == 0 }

  /** Request `id` is under way and its completion not announced, or announced and not yet taken. */
  predicate InFlight(s: Sys, id: nat) {
    if s.Value() == 0 then s.active == Some(id) else s.active == None && s.Value() == 1 && id in s.done
  }

  predicate ClientOk(s: Sys, t: Tid) {
    match s.Of(t)
    case Idle => Outside(s.k, t, s.lock) && s.k.PcOf(t) != InP(s.sem)
    case Asking(r) =>
      && ValidSector(r)
      && (AtLock(s.k, t, s.lock) || (Holds(s.k, t, s.lock) && s.k.PcOf(t) == Code && Quiet(s)))
    case Waiting(id, r, bytes) =>
      && Holds(s.k, t, s.lock) && ValidSector(r) && r.sector < |s.image| && s.image[r.sector] == bytes
      && (r.Write? ==> bytes == r.bytes)
      && ((s.k.PcOf(t) == InP(s.sem) && InFlight(s, id)) || (s.k.PcOf(t) == Code && Quiet(s) && id in s.done))
  }

  /** Whenever the lock is free the disk is idle and the semaphore is zero. */
  ghost predicate DiskInv(s: Sys) {
    && Inv(s.k) && |s.image| == Disks.NumSectors
    && (s.k.LockOf(User(s.lock)).active == None ==> Quiet(s))
    && forall t :: ClientOk(s, t)
  }

  /** The disk's assertion that no request is under way never fails. */
  lemma IssueSafe(s: Sys, t: Tid)
    requires DiskInv(s) && Allowed(s, Issue(t))
    ensures s.active == None && ValidSector(s.Of(t).r)
  {
    assert ClientOk(s, t);
  }

  /** A caller returns only after its own request completed, with what the disk still holds: a writer, its own bytes. */
  lemma ReturnAfterDone(s: Sys, t: Tid)
    requires DiskInv(s) && Allowed(s, Leave(t))
    ensures s.Of(t).id in s.done && ValidSector(s.Of(t).r) && s.image[s.Of(t).r.sector] == s.Of(t).bytes
    ensures s.Of(t).r.Write? ==> s.image[s.Of(t).r.sector] == s.Of(t).r.bytes
  {
    assert ClientOk(s, t);
  }

  // ---- steps elsewhere ----

  lemma ValueElsewhere(s: Sys, e: Event)
    requires DiskInv(s) && Allowed(s, Elsewhere(e)) && !(e.Resume? && s.k.PcOf(e.t) == InP(s.sem))
    ensures Apply(s.k, e).SemOf(s.sem).value == s.Value()
  {
    SemStep(s.k, e, s.sem);
  }

  lemma BusyWaits(s: Sys, e: Event, u: Tid)
    requires DiskInv(s) && Enabled(s.k, e) && Actor(s.k, e) != Some(u) && !s.Of(u).Idle?
    ensures var k' := Apply(s.k, e);
            && k'.PcOf(u) == s.k.PcOf(u) && (Holds(k', u, s.lock) <==> Holds(s.k, u, s.lock))
  {
    assert ClientOk(s, u);
    PcFrame(s.k, e, u);
    if Holds(s.k, u, s.lock) {
      HoldsStays(s.k, e, u, s.lock);
    } else if Holds(Apply(s.k, e), u, s.lock) {
      LockGained(s.k, e, s.lock, u);
    }
  }

  /** A thread outside stays outside of the lock and of the semaphore. */
  lemma IdleStays(s: Sys, e: Event, u: Tid)
    requires DiskInv(s) && s.Of(u).Idle? && Enabled(s.k, e)
    requires Actor(s.k, e) == Some(u) ==> e != CallAcquire(u, s.lock) && e != CallP(u, s.sem)
    ensures Outside(Apply(s.k, e), u, s.lock) && Apply(s.k, e).PcOf(u) != InP(s.sem)
  {
    assert ClientOk(s, u);
    OutsideStays(s.k, e, u, s.lock);
    if Actor(s.k, e) != Some(u) {
      PcFrame(s.k, e, u);
    } else if e.Resume? {
      ResumeEffect(s.k, u);
    } else {
      CallEffect(s.k, e);
    }
    hide Apply, Enabled, DiskInv;
  }

  /** What an `Elsewhere` step leaves as it is, apart from the disk's own semaphore. */
  lemma ElsewhereOther(s: Sys, e: Event, u: Tid)
    requires DiskInv(s) && Allowed(s, Elsewhere(e)) && Actor(s.k, e) != Some(u)
    requires Apply(s.k, e).SemOf(s.sem).value == s.Value() || !Holds(s.k, u, s.lock)
    ensures ClientOk(Do(s, Elsewhere(e)), u)
  {
    assert ClientOk(s, u);
    if s.Of(u).Idle? {
      IdleStays(s, e, u);
    } else {
      BusyWaits(s, e, u);
    }
    hide Apply, Enabled, DiskInv;
  }

  /** A thread inside the kernel on its way to the lock or in the disk's semaphore. */
  lemma ElsewhereResumes(s: Sys, u: Tid)
    requires DiskInv(s) && Allowed(s, Elsewhere(Resume(u)))
    ensures ClientOk(Do(s, Elsewhere(Resume(u))), u)
  {
    var e := Resume(u);
    assert ClientOk(s, u);
    SemStep(s.k, e, s.sem);
    ResumeEffect(s.k, u);
    if s.Of(u).Idle? {
      IdleStays(s, e, u);
    } else if Holds(s.k, u, s.lock) {
      HoldsStays(s.k, e, u, s.lock);
    } else if Apply(s.k, e).PcOf(u) == Code {
      AcquireReturns(s.k, e, u, s.lock);
    } else if Holds(Apply(s.k, e), u, s.lock) {
      LockGained(s.k, e, s.lock, u);
    }
    hide Apply, Enabled, DiskInv;
  }

  lemma ElsewhereClient(s: Sys, e: Event, u: Tid)
    requires DiskInv(s) && Allowed(s, Elsewhere(e))
    ensures ClientOk(Do(s, Elsewhere(e)), u)
  {
    if Actor(s.k, e) == Some(u) {
      if e.Resume? {
        ElsewhereResumes(s, u);
      } else {
        ValueElsewhere(s, e);
        assert ClientOk(s, u);
        IdleStays(s, e, u);
      }
    } else {
      if e.Resume? && s.k.PcOf(e.t) == InP(s.sem) {
        assert ClientOk(s, e.t);
      } else {
        ValueElsewhere(s, e);
      }
      ElsewhereOther(s, e, u);
    }
  }

  /** Threads other than the one that uses the disk are not affected by what it does. */
  lemma Bystander(s: Sys, s': Sys, e: Event, t: Tid, u: Tid)
    requires DiskInv(s) && Enabled(s.k, e) && Holds(s.k, t, s.lock) && u != t && Actor(s.k, e) in {None, Some(t)}
    requires s'.k == Apply(s.k, e) && s'.lock == s.lock && s'.sem == s.sem && s'.Of(u) == s.Of(u)
    ensures ClientOk(s', u)
  {
    assert ClientOk(s, u);
    if s.Of(u).Idle? {
      IdleStays(s, e, u);
    } else {
      BusyWaits(s, e, u);
    }
    hide Apply, Enabled, DiskInv;
  }

  // ---- steps of the disk's own code ----

  lemma BeginClient(s: Sys, t: Tid, r: Request, u: Tid)
    requires DiskInv(s) && Allowed(s, Begin(t, r))
    ensures ClientOk(Do(s, Begin(t, r)), u)
  {
    var e := CallAcquire(t, s.lock);
    assert ClientOk(s, u) && ClientOk(s, t);
    SemStep(s.k, e, s.sem);
    if u == t {
      CallEffect(s.k, e);
      if Apply(s.k, e).PcOf(t) == Code {
        AcquireReturns(s.k, e, t, s.lock);
      } else if Holds(Apply(s.k, e), t, s.lock) {
        LockGained(s.k, e, s.lock, t);
      }
    } else if s.Of(u).Idle? {
      IdleStays(s, e, u);
    } else {
      BusyWaits(s, e, u);
    }
    hide Apply, Enabled, DiskInv;
  }

  lemma IssueClient(s: Sys, t: Tid, u: Tid)
    requires DiskInv(s) && Allowed(s, Issue(t))
    ensures ClientOk(Do(s, Issue(t)), u)
  {
    var e, s' := CallP(t, s.sem), Do(s, Issue(t));
    assert ClientOk(s, t);
    if u == t {
      SemStep(s.k, e, s.sem);
      CallEffect(s.k, e);
      HoldsStays(s.k, e, t, s.lock);
    } else {
      Bystander(s, s', e, t, u);
    }
    hide Apply, Enabled, DiskInv;
  }

  /** The thread that waits for the request under way. */
  lemma RequestOwner(s: Sys) returns (t: Tid)
    requires DiskInv(s) && s.active.Some?
    ensures Holds(s.k, t, s.lock) && s.Of(t).Waiting? && s.Of(t).id == s.active.value && s.Value() == 0
    ensures s.k.PcOf(t) == InP(s.sem)
  {
    t := s.k.LockOf(User(s.lock)).active.value;
    assert ClientOk(s, t);
  }

  lemma InterruptClient(s: Sys, u: Tid)
    requires DiskInv(s) && Allowed(s, Interrupt)
    ensures ClientOk(Do(s, Interrupt), u)
  {
    var e, s' := HandlerV(s.sem), Do(s, Interrupt);
    var t := RequestOwner(s);
    assert ClientOk(s, t);
    if u == t {
      SemStep(s.k, e, s.sem);
      BusyWaits(s, e, t);
    } else {
      Bystander(s, s', e, t, u);
    }
    hide Apply, Enabled, DiskInv;
  }

  lemma LeaveClient(s: Sys, t: Tid, u: Tid)
    requires DiskInv(s) && Allowed(s, Leave(t))
    ensures ClientOk(Do(s, Leave(t)), u)
  {
    var e, s' := CallRelease(t, s.lock), Do(s, Leave(t));
    assert ClientOk(s, t);
    if u == t {
      CallEffect(s.k, e);
      HolderStep(s.k, e, s.lock);
    } else {
      Bystander(s, s', e, t, u);
    }
    hide Apply, Enabled, DiskInv;
  }

  lemma StepClient(s: Sys, st: Step, u: Tid)
    requires DiskInv(s) && Allowed(s, st)
    ensures ClientOk(Do(s, st), u)
  {
    match st
    case Elsewhere(e) => ElsewhereClient(s, e, u);
    case Begin(t, r) => BeginClient(s, t, r, u);
    case Issue(t) => IssueClient(s, t, u);
    case Interrupt => InterruptClient(s, u);
    case Leave(t) => LeaveClient(s, t, u);
  }

  /** The lock becomes free only when its holder leaves, and then the disk is quiet. */
  lemma StepQuiet(s: Sys, st: Step)
    requires DiskInv(s) && Allowed(s, st) && Do(s, st).k.LockOf(User(s.lock)).active == None
    ensures Quiet(Do(s, st))
  {
    var e, a := EventOf(s, st), s.k.LockOf(User(s.lock)).active;
    if st.Issue? {
      assert ClientOk(s, st.t);
    }
    if e.Resume? {
      assert ClientOk(s, e.t);
    }
    assert a.Some? ==> ClientOk(s, a.value);
    assert Locks(s.k) && (a.None? ==> Quiet(s));
    hide Apply, DiskInv, Locks;
    SemStep(s.k, e, s.sem);
    if a.Some? {
      HolderStep(s.k, e, s.lock);
    }
  }

  lemma StepDiskInv(s: Sys, st: Step)
    requires DiskInv(s) && Allowed(s, st)
    ensures DiskInv(Do(s, st))
  {
    var s' := Do(s, st);
    forall u ensures ClientOk(s', u) {
      StepClient(s, st, u);
    }
    if s'.k.LockOf(User(s.lock)).active == None {
      StepQuiet(s, st);
    }
    StepInv(s.k, EventOf(s, st));
  }

  // ---- runs ----

  ghost predicate LegalSteps(s: Sys, sts: seq<Step>)
    decreases |sts|
  {
    sts == [] || (Allowed(s, sts[0]) && LegalSteps(Do(s, sts[0]), sts[1..]))
  }

  ghost function After(s: Sys, sts: seq<Step>): Sys
    requires LegalSteps(s, sts)
    decreases |sts|
  {
    if sts == [] then s else After(Do(s, sts[0]), sts[1..])
  }

  lemma StartInv(s: Sys)
    requires Start(s)
    ensures DiskInv(s)
  {
    InitInv(s.k);
    forall t ensures ClientOk(s, t) {
    }
  }

  lemma {:induction false} RunDiskInv(s: Sys, sts: seq<Step>)
    requires DiskInv(s) && LegalSteps(s, sts)
    ensures DiskInv(After(s, sts))
    decreases |sts|
  {
    if sts != [] {
      StepDiskInv(s, sts[0]);
      hide DiskInv;
      RunDiskInv(Do(s, sts[0]), sts[1..]);
    }
  }

  // ---- the disk's contents, from the steps alone ----

  /** What `t` last called ReadSector or WriteSector for. */
  function Requested(sts: seq<Step>, t: Tid): Option<Request> {
    if sts == [] then None
    else
      var st, before := sts[|sts| - 1], sts[..|sts| - 1];
      if st.Begin? && st.t == t then Some(st.r) else Requested(before, t)
  }

  /** The bytes of the last write to a sector that was issued, or those it held at first. */
  function SectorAfter(sts: seq<Step>, sector: int, first: Data): Data {
    if sts == [] then first
    else
      var st, before := sts[|sts| - 1], sts[..|sts| - 1];
      var r := if st.Issue? then Requested(before, st.t) else None;
      if r.Some? && r.value.Write? && r.value.sector == sector then r.value.bytes
      else SectorAfter(before, sector, first)
  }

  /** Requests issued less interrupts handled. */
  function Outstanding(sts: seq<Step>): int {
    if sts == [] then 0
    else
      var st, before := sts[|sts| - 1], sts[..|sts| - 1];
      Outstanding(before) + (if st.Issue? then 1 else if st.Interrupt? then -1 else 0)
  }

  ghost predicate RequestOk(sts: seq<Step>, s: Sys, t: Tid) {
    !s.Of(t).Idle? ==> Requested(sts, t) == Some(s.Of(t).r)
  }

  ghost predicate ImageOk(sts: seq<Step>, first: seq<Data>, s: Sys) {
    |s.image| == |first| && forall i :: 0 <= i < |first| ==> s.image[i] == SectorAfter(sts, i, first[i])
  }

  /** The state agrees with what the steps so far make of the first contents. */
  ghost predicate History(sts: seq<Step>, first: seq<Data>, s: Sys) {
    && (forall t :: RequestOk(sts, s, t)) && ImageOk(sts, first, s)
    && Outstanding(sts) == if s.active.Some? then 1 else 0
  }

  lemma StepHistory(sts: seq<Step>, first: seq<Data>, s: Sys, st: Step)
    requires DiskInv(s) && History(sts, first, s) && Allowed(s, st)
    ensures History(sts + [st], first, Do(s, st))
  {
    var sts', s' := sts + [st], Do(s, st);
    assert sts'[|sts'| - 1] == st && sts'[..|sts'| - 1] == sts;
    if st.Issue? {
      assert RequestOk(sts, s, st.t) && ClientOk(s, st.t);
    }
    hide DiskInv, Allowed, ClientOk, Apply, Enabled;
    forall t ensures RequestOk(sts', s', t) {
      assert RequestOk(sts, s, t);
    }
    forall i | 0 <= i < |first| ensures s'.image[i] == SectorAfter(sts', i, first[i]) {
      assert s.image[i] == SectorAfter(sts, i, first[i]);
    }
  }

  lemma {:induction false} RunHistory(before: seq<Step>, first: seq<Data>, s: Sys, sts: seq<Step>)
    requires DiskInv(s) && LegalSteps(s, sts) && History(before, first, s)
    ensures DiskInv(After(s, sts)) && History(before + sts, first, After(s, sts))
    decreases |sts|
  {
    if sts == [] {
      assert before + sts == before;
    } else {
      StepDiskInv(s, sts[0]);
      StepHistory(before, first, s, sts[0]);
      hide DiskInv, History, Do, Allowed;
      assert (before + [sts[0]]) + sts[1..] == before + sts;
      RunHistory(before + [sts[0]], first, Do(s, sts[0]), sts[1..]);
    }
  }

  /**
   In every run from the start, each sector holds the bytes of the last write
   to it that was issued, and at most one request is outstanding.
   */
  lemma LastWriteStays(s: Sys, sts: seq<Step>)
    requires Start(s) && LegalSteps(s, sts)
    ensures |After(s, sts).image| == |s.image|
    ensures forall i :: 0 <= i < |s.image| ==> After(s, sts).image[i] == SectorAfter(sts, i, s.image[i])
    ensures 0 <= Outstanding(sts) <= 1
    ensures DiskInv(After(s, sts)) && History(sts, s.image, After(s, sts))
  {
    StartInv(s);
    assert forall t :: RequestOk([], s, t);
    assert [] + sts == sts;
    RunHistory([], s.image, s, sts);
  }

  /**
   A caller that returns does so with nothing outstanding, its own request
   included: a writer leaves the bytes it called with on the sector it called
   for, and a reader has the bytes last written there.
   */
  lemma ReturnsWhatWasAsked(s: Sys, sts: seq<Step>, t: Tid)
    requires Start(s) && LegalSteps(s, sts) && Allowed(After(s, sts), Leave(t))
    ensures Outstanding(sts) == 0
    ensures Requested(sts, t).Some? && ValidSector(Requested(sts, t).value) && |After(s, sts).image| == |s.image|
    ensures var r, s' := Requested(sts, t).value, After(s, sts);
            && s'.Of(t).bytes == SectorAfter(sts, r.sector, s.image[r.sector]) == s'.image[r.sector]
            && (r.Write? ==> s'.image[r.sector] == r.bytes)
  {
    LastWriteStays(s, sts);
    var s' := After(s, sts);
    assert RequestOk(sts, s', t) && ClientOk(s', t);
  }

  /** When no thread can run but some caller has not returned, a request is under way: its interrupt will come. */
  lemma IdleMeansRequest(s: Sys, t: Tid)
    requires DiskInv(s) && s.k.cur == None && s.k.Queue(ReadyList) == [] && !s.Of(t).Idle?
    ensures s.active.Some?
  {
    var l := User(s.lock);
    IdleMeansBlocked(s.k, l, s.sem);
    assert ClientOk(s, t) && PlaceOk(s.k, t, t, ReadyList) && PlaceOk(s.k, t, t, LockQ(l));
    var a := s.k.LockOf(l).active;
    var u := if a.Some? then a.value else t;
    assert ClientOk(s, u) && PlaceOk(s.k, u, u, ReadyList) && PlaceOk(s.k, u, u, SemQ(s.sem));
  }
}
