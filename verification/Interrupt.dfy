/**
 Simulated time: the clock and the queue of pending interrupts.

 What a handler does is left open: any sequence of requests for further
 interrupts, each with a positive delay, and perhaps a request to yield.
 */
module Interrupts {
  import opened Options
  import opened Lists

  const UserTick: int := 1
  const SystemTick: int := 10

  type Delay = x: int | x > 0 witness 1

  datatype IntType = TimerInt | DiskInt | ConsoleWriteInt | ConsoleReadInt | NetworkSendInt | NetworkRecvInt

  datatype PendingInterrupt = PendingInterrupt(handler: int, arg: int, when: int, kind: IntType)

  datatype Request = Request(handler: int, arg: int, fromNow: Delay, kind: IntType)

  datatype Response = Response(requests: seq<Request>, yielding: bool)

  /** What the handler of each interrupt does, by the number of interrupts handled before it. */
  type Behaviour = (nat, PendingInterrupt) -> Response

  type Queue = seq<Entry<PendingInterrupt>>

  /** The interrupt `item` was handled at time `at`. */
  datatype Firing = Firing(item: PendingInterrupt, at: int)

  datatype Clock = Clock(
    total: int, idle: int, system: int, user: int, pending: Queue, fired: seq<Firing>, yieldOnReturn: bool)

  // ---- the simulation as functions ----

  function NewEntry(r: Request, now: int): Entry<PendingInterrupt> {
    Entry(PendingInterrupt(r.handler, r.arg, now + r.fromNow, r.kind), now + r.fromNow)
  }

  ghost function Scheduled(q: Queue, rs: seq<Request>, now: int): Queue
    decreases |rs|
  {
    if rs == [] then q else Scheduled(Inserted(q, NewEntry(rs[0], now)), rs[1..], now)
  }

  /** The interrupt `e`, already off the queue, is handled. */
  ghost function Handled(c: Clock, e: Entry<PendingInterrupt>, b: Behaviour): Clock {
    var response := b(|c.fired|, e.item);
    c.(fired := c.fired + [Firing(e.item, c.total)],
       yieldOnReturn := c.yieldOnReturn || response.yielding,
       pending := Scheduled(c.pending, response.requests, c.total))
  }

  /** The clock is moved on, idle, to the time of the first entry. */
  ghost function Advanced(c: Clock): Clock
    requires c.pending != []
  {
    var when := c.pending[0].key;
    if when > c.total then c.(idle := c.idle + (when - c.total), total := when) else c
  }

  datatype Checked = Checked(any: bool, clock: Clock)

  /** `CheckIfDue`, when the machine is idle or not. */
  ghost function Check(c: Clock, b: Behaviour, advance: bool, idle: bool): Checked {
    if c.pending == [] then Checked(false, c)
    else
      var e, rest := c.pending[0], c.pending[1..];
      if e.key > c.total && !advance then Checked(false, c.(pending := Inserted(rest, e)))
      else if idle && e.item.kind == TimerInt && rest == []
      then Checked(false, Advanced(c).(pending := Inserted(rest, e)))
      else Checked(true, Handled(Advanced(c).(pending := rest), e, b))
  }

  /** How many entries are due. */
  ghost function Due(q: Queue, now: int): nat {
    if q == [] then 0 else (if q[0].key <= now then 1 else 0) + Due(q[1..], now)
  }

  /** The loop that handles interrupts until none is due. */
  ghost function Drained(c: Clock, b: Behaviour, idle: bool): Clock
    decreases Due(c.pending, c.total)
  {
    var r := Check(c, b, false, idle);
    if r.any then
      CheckDue(c, b, idle);
      Drained(r.clock, b, idle)
    else r.clock
  }

  lemma {:induction false} DueConcat(x: Queue, y: Queue, now: int)
    ensures Due(x + y, now) == Due(x, now) + Due(y, now)
  {
    if x == [] {
      assert x + y == y;
    } else {
      DueConcat(x[1..], y, now);
      assert (x + y)[0] == x[0] && (x + y)[1..] == x[1..] + y;
    }
  }

  lemma DueInserted(q: Queue, e: Entry<PendingInterrupt>, now: int)
    ensures Due(Inserted(q, e), now) == Due(q, now) + if e.key <= now then 1 else 0
  {
    var p := Place(q, e.key);
    DueConcat(q[..p], q[p..], now);
    DueConcat(q[..p], [e] + q[p..], now);
    DueConcat([e], q[p..], now);
    assert q == q[..p] + q[p..] && Inserted(q, e) == q[..p] + ([e] + q[p..]);
    assert Due([e], now) == if e.key <= now then 1 else 0;
  }

  /** New requests lie in the future. */
  lemma {:induction false} DueScheduled(q: Queue, rs: seq<Request>, now: int)
    ensures Due(Scheduled(q, rs, now), now) == Due(q, now)
    decreases |rs|
  {
    if rs != [] {
      DueInserted(q, NewEntry(rs[0], now), now);
      DueScheduled(Inserted(q, NewEntry(rs[0], now)), rs[1..], now);
    }
  }

  /** Handling an interrupt leaves one fewer due, whatever its handler asks for. */
  lemma CheckDue(c: Clock, b: Behaviour, idle: bool)
    ensures var r := Check(c, b, false, idle);
            r.any ==> Due(r.clock.pending, r.clock.total) == Due(c.pending, c.total) - 1
  {
    if c.pending != [] {
      var e := c.pending[0];
      DueScheduled(c.pending[1..], b(|c.fired|, e.item).requests, c.total);
    }
  }

  // ---- invariants of time ----

  ghost predicate QueueOk(q: Queue) {
    Sorted(q) && forall i :: 0 <= i < |q| ==> q[i].key == q[i].item.when
  }

  /** Interrupts were handled in the order of their times, and none early. */
  ghost predicate FiredOk(fired: seq<Firing>, now: int) {
    && (forall i :: 0 <= i < |fired| ==> fired[i].item.when <= fired[i].at <= now)
    && (forall i, j :: 0 <= i < j < |fired| ==>
          fired[i].item.when <= fired[j].item.when && fired[i].at <= fired[j].at)
  }

  /** Nothing handled so far was due after something still pending. */
  ghost predicate InOrder(fired: seq<Firing>, q: Queue) {
    forall i, j :: 0 <= i < |fired| && 0 <= j < |q| ==> fired[i].item.when <= q[j].key
  }

  ghost predicate TimeInv(c: Clock) {
    && QueueOk(c.pending) && FiredOk(c.fired, c.total) && InOrder(c.fired, c.pending)
    && c.total == c.idle + c.system + c.user
  }

  lemma InsertedOk(q: Queue, e: Entry<PendingInterrupt>, fired: seq<Firing>)
    requires QueueOk(q) && InOrder(fired, q) && e.key == e.item.when
    requires forall i :: 0 <= i < |fired| ==> fired[i].item.when <= e.key
    ensures QueueOk(Inserted(q, e)) && InOrder(fired, Inserted(q, e))
  {
    InsertedSorted(q, e);
    hide Put, Sorted;
    var r := Inserted(q, e);
    forall j | 0 <= j < |r|
      ensures r[j].key == r[j].item.when && forall i :: 0 <= i < |fired| ==> fired[i].item.when <= r[j].key
    {
      PutAt(q, Place(q, e.key), e, j);
    }
  }

  lemma {:induction false} ScheduledOk(q: Queue, rs: seq<Request>, now: int, fired: seq<Firing>)
    requires QueueOk(q) && InOrder(fired, q) && FiredOk(fired, now)
    ensures QueueOk(Scheduled(q, rs, now)) && InOrder(fired, Scheduled(q, rs, now))
    decreases |rs|
  {
    if rs != [] {
      var e := NewEntry(rs[0], now);
      InsertedOk(q, e, fired);
      hide QueueOk, InOrder, FiredOk;
      ScheduledOk(Inserted(q, e), rs[1..], now, fired);
    }
  }

  /** The first of a sorted queue is handled: nothing due earlier remains, and it is not early. */
  lemma HandledOk(c: Clock, e: Entry<PendingInterrupt>, b: Behaviour)
    requires TimeInv(c.(pending := [e] + c.pending)) && e.key <= c.total
    ensures TimeInv(Handled(c, e, b))
  {
    var fired := c.fired + [Firing(e.item, c.total)];
    FirstTaken(e, c.pending, c.fired, c.total);
    ScheduledOk(c.pending, b(|c.fired|, e.item).requests, c.total, fired);
    hide QueueOk, InOrder, FiredOk, Scheduled;
  }

  lemma FirstTaken(e: Entry<PendingInterrupt>, q: Queue, fired: seq<Firing>, now: int)
    requires QueueOk([e] + q) && InOrder(fired, [e] + q) && FiredOk(fired, now) && e.key <= now
    ensures var fired' := fired + [Firing(e.item, now)];
            QueueOk(q) && InOrder(fired', q) && FiredOk(fired', now)
  {
    var all := [e] + q;
    assert all[0] == e;
    forall j | 0 <= j < |q| ensures all[j + 1] == q[j] && e.key <= q[j].key {
    }
  }

  /** Taking the first entry off and putting it back. */
  lemma PutBackOk(c: Clock)
    requires TimeInv(c) && c.pending != []
    ensures TimeInv(c.(pending := Inserted(c.pending[1..], c.pending[0])))
  {
    var e, rest := c.pending[0], c.pending[1..];
    assert QueueOk(rest) && InOrder(c.fired, rest);
    InsertedOk(rest, e, c.fired);
  }

  lemma AdvancedOk(c: Clock)
    requires TimeInv(c) && c.pending != []
    ensures TimeInv(Advanced(c)) && c.total <= Advanced(c).total
  {
  }

  lemma CheckOk(c: Clock, b: Behaviour, advance: bool, idle: bool)
    requires TimeInv(c)
    ensures TimeInv(Check(c, b, advance, idle).clock) && c.total <= Check(c, b, advance, idle).clock.total
    ensures c.fired <= Check(c, b, advance, idle).clock.fired
    ensures !advance ==> Check(c, b, advance, idle).clock.total == c.total
  {
    hide TimeInv, Scheduled, Put, Place;
    if c.pending != [] {
      var e := c.pending[0];
      if e.key > c.total && !advance {
        PutBackOk(c);
      } else {
        var now := Advanced(c);
        AdvancedOk(c);
        PutBackOk(now);
        if !(idle && e.item.kind == TimerInt && c.pending[1..] == []) {
          assert now.pending == [e] + c.pending[1..];
          HandledOk(now.(pending := c.pending[1..]), e, b);
        }
      }
    }
  }

  lemma {:induction false} DrainedOk(c: Clock, b: Behaviour, idle: bool)
    requires TimeInv(c)
    ensures TimeInv(Drained(c, b, idle)) && c.total == Drained(c, b, idle).total && c.fired <= Drained(c, b, idle).fired
    decreases Due(c.pending, c.total)
  {
    CheckOk(c, b, false, idle);
    var r := Check(c, b, false, idle);
    CheckDue(c, b, idle);
    hide TimeInv, Check;
    if r.any {
      DrainedOk(r.clock, b, idle);
    }
  }

  // ---- the loop handles exactly what is due ----

  lemma {:induction false} DuePrefix(q: Queue, now: int)
    requires Sorted(q)
    ensures Due(q, now) <= |q|
    ensures forall i :: 0 <= i < |q| ==> (q[i].key <= now <==> i < Due(q, now))
  {
    if q != [] {
      DuePrefix(q[1..], now);
      assert forall i :: 0 <= i < |q| - 1 ==> q[1..][i] == q[i + 1];
      if q[0].key > now {
        assert forall i :: 0 <= i < |q| ==> q[0].key <= q[i].key;
      }
    }
  }

  lemma {:induction false} ScheduledPrefix(q: Queue, rs: seq<Request>, now: int, k: nat)
    requires k <= |q| && forall i :: 0 <= i < k ==> q[i].key <= now
    ensures k <= |Scheduled(q, rs, now)| && Scheduled(q, rs, now)[..k] == q[..k]
    decreases |rs|
  {
    if rs != [] {
      var e := NewEntry(rs[0], now);
      var p := Place(q, e.key);
      var r := Inserted(q, e);
      assert k <= p;
      assert r[..k] == q[..k];
      assert forall i :: 0 <= i < k ==> r[i] == r[..k][i];
      ScheduledPrefix(r, rs[1..], now, k);
    }
  }

  /** What the loop is expected to handle. */
  ghost function DueFirings(q: Queue, now: int): seq<Firing>
    requires Due(q, now) <= |q|
  {
    seq(Due(q, now), i requires 0 <= i < Due(q, now) => Firing(q[i].item, now))
  }

  lemma HandledFirst(c: Clock, b: Behaviour)
    requires TimeInv(c) && c.pending != [] && c.pending[0].key <= c.total
    ensures var r := Check(c, b, false, false);
            && r.any && Due(r.clock.pending, c.total) == Due(c.pending, c.total) - 1
            && Due(r.clock.pending, c.total) <= |r.clock.pending| && Due(c.pending, c.total) <= |c.pending|
            && r.clock.fired + DueFirings(r.clock.pending, c.total) == c.fired + DueFirings(c.pending, c.total)
  {
    var r := Check(c, b, false, false);
    CheckDue(c, b, false);
    CheckOk(c, b, false, false);
    DuePrefix(c.pending, c.total);
    DuePrefix(r.clock.pending, c.total);
    var rest, n := c.pending[1..], Due(c.pending, c.total);
    ScheduledPrefix(rest, b(|c.fired|, c.pending[0].item).requests, c.total, n - 1);
    assert r.clock.pending[..n - 1] == rest[..n - 1];
    assert r.clock.fired == c.fired + [Firing(c.pending[0].item, c.total)];
    hide TimeInv, Check, Due, Scheduled, Sorted;
    FirstFiring(c.pending, r.clock.pending, c.total);
  }

  lemma FirstFiring(q: Queue, q': Queue, now: int)
    requires 0 < Due(q, now) <= |q| && Due(q', now) == Due(q, now) - 1 <= |q'|
    requires q'[..Due(q', now)] == q[1..][..Due(q', now)]
    ensures DueFirings(q, now) == [Firing(q[0].item, now)] + DueFirings(q', now)
  {
    var n := Due(q', now);
    hide Due;
    forall i | 0 <= i < n ensures q'[i] == q[i + 1] {
      assert q'[..n][i] == q[1..][..n][i];
    }
  }

  /**
   Outside the idle loop, exactly the entries due at the start are handled, in
   the order of their times, and everything left lies strictly in the future.
   */
  lemma {:induction false} DrainedExactly(c: Clock, b: Behaviour)
    requires TimeInv(c)
    ensures Due(c.pending, c.total) <= |c.pending|
    ensures Drained(c, b, false).fired == c.fired + DueFirings(c.pending, c.total)
    ensures forall i :: 0 <= i < |Drained(c, b, false).pending| ==> Drained(c, b, false).pending[i].key > c.total
    decreases Due(c.pending, c.total)
  {
    DuePrefix(c.pending, c.total);
    if c.pending != [] && c.pending[0].key <= c.total {
      HandledFirst(c, b);
      CheckOk(c, b, false, false);
      hide TimeInv, DueFirings, Due;
      DrainedExactly(Check(c, b, false, false).clock, b);
    } else {
      NothingDue(c, b);
    }
  }

  lemma NothingDue(c: Clock, b: Behaviour)
    requires TimeInv(c) && (c.pending == [] || c.pending[0].key > c.total)
    ensures Due(c.pending, c.total) == 0 && Drained(c, b, false).fired == c.fired
    ensures forall i :: 0 <= i < |Drained(c, b, false).pending| ==> Drained(c, b, false).pending[i].key > c.total
  {
    DuePrefix(c.pending, c.total);
    var r := Check(c, b, false, false);
    CheckOk(c, b, false, false);
    if c.pending != [] {
      var e := c.pending[0];
      assert c.pending == [e] + c.pending[1..];
      DueConcat([e], c.pending[1..], c.total);
      DueInserted(c.pending[1..], e, c.total);
      DuePrefix(r.clock.pending, c.total);
    }
  }

  // ---- idling ----

  ghost predicate AllFuture(c: Clock) {
    forall i :: 0 <= i < |c.pending| ==> c.pending[i].key > c.total
  }

  /**
   The queue ends with a timer that is due, and no handler before it asks for
   another interrupt: when its turn comes, the timer is alone on the queue.
   */
  ghost predicate TimerStays(c: Clock, b: Behaviour) {
    var q := c.pending;
    && q != [] && q[|q| - 1].key <= c.total && q[|q| - 1].item.kind == TimerInt
    && forall i :: 0 <= i < |q| - 1 ==> b(|c.fired| + i, q[i].item).requests == []
  }

  lemma {:induction false} ScheduledLength(q: Queue, rs: seq<Request>, now: int)
    ensures |Scheduled(q, rs, now)| == |q| + |rs|
    decreases |rs|
  {
    if rs != [] {
      ScheduledLength(Inserted(q, NewEntry(rs[0], now)), rs[1..], now);
    }
  }

  /** A request, wherever it goes, leaves the queue with a last entry in the future. */
  lemma ScheduledLast(q: Queue, rs: seq<Request>, now: int)
    requires rs != [] && Sorted(q) && Sorted(Scheduled(q, rs, now))
    ensures var r := Scheduled(q, rs, now); r != [] && r[|r| - 1].key > now
  {
    ScheduledLength(q, rs, now);
    DueScheduled(q, rs, now);
    DuePrefix(q, now);
    DuePrefix(Scheduled(q, rs, now), now);
  }

  /** Handling the first entry does not change whether the timer will stay. */
  lemma TimerStep(c: Clock, b: Behaviour)
    requires TimeInv(c) && c.pending != [] && c.pending[0].key <= c.total
    requires !(|c.pending| == 1 && c.pending[0].item.kind == TimerInt)
    ensures TimerStays(c, b) <==> TimerStays(Handled(c.(pending := c.pending[1..]), c.pending[0], b), b)
  {
    var q, rest := c.pending, c.pending[1..];
    var c' := Handled(c.(pending := rest), q[0], b);
    var rs := b(|c.fired|, q[0].item).requests;
    assert q == [q[0]] + rest;
    HandledOk(c.(pending := rest), q[0], b);
    assert Sorted(rest) && Sorted(c'.pending) && |c'.fired| == |c.fired| + 1;
    hide TimeInv, Sorted;
    if rs != [] {
      ScheduledLast(rest, rs, c.total);
      assert |q| > 1 ==> b(|c.fired| + 0, q[0].item).requests != [];
    } else {
      ShiftedStays(c, c', b);
    }
  }

  lemma ShiftedStays(c: Clock, c': Clock, b: Behaviour)
    requires c.pending != [] && c'.pending == c.pending[1..] && c'.total == c.total && |c'.fired| == |c.fired| + 1
    requires b(|c.fired|, c.pending[0].item).requests == []
    requires !(|c.pending| == 1 && c.pending[0].item.kind == TimerInt)
    ensures TimerStays(c, b) <==> TimerStays(c', b)
  {
    var q, q' := c.pending, c'.pending;
    if TimerStays(c', b) {
      forall i | 0 <= i < |q| - 1 ensures b(|c.fired| + i, q[i].item).requests == [] {
        assert i > 0 ==> q'[i - 1] == q[i] && b(|c'.fired| + (i - 1), q'[i - 1].item).requests == [];
      }
    }
    if TimerStays(c, b) {
      forall i | 0 <= i < |q'| - 1 ensures b(|c'.fired| + i, q'[i].item).requests == [] {
        assert q'[i] == q[i + 1] && b(|c.fired| + (i + 1), q[i + 1].item).requests == [];
      }
    }
  }

  /**
   The idle loop leaves only later entries unless the queue it starts with ends
   in a due timer and nobody asks for another interrupt; then it leaves that one.
   */
  lemma {:induction false} IdleLeaves(c: Clock, b: Behaviour)
    requires TimeInv(c)
    ensures AllFuture(Drained(c, b, true)) <==> !TimerStays(c, b)
    ensures TimerStays(c, b) ==> Drained(c, b, true).pending == [c.pending[|c.pending| - 1]]
    decreases Due(c.pending, c.total)
  {
    var r, q := Check(c, b, false, true), c.pending;
    CheckOk(c, b, false, true);
    CheckDue(c, b, true);
    if r.any {
      TimerStep(c, b);
      LastStays(c, b);
      hide TimeInv, Check;
      IdleLeaves(r.clock, b);
    } else if q != [] && q[0].key > c.total {
      assert Inserted(q[1..], q[0]) == Check(c, b, false, false).clock.pending;
      NothingDue(c, b);
    } else if q != [] {
      AloneStays(c, b, false);
    }
  }

  /** If the timer will stay, it is still the last entry after one more is handled. */
  lemma LastStays(c: Clock, b: Behaviour)
    requires c.pending != [] && !(|c.pending| == 1 && c.pending[0].item.kind == TimerInt)
    ensures var q' := Handled(c.(pending := c.pending[1..]), c.pending[0], b).pending;
            TimerStays(c, b) ==> q' != [] && q'[|q'| - 1] == c.pending[|c.pending| - 1]
  {
    if TimerStays(c, b) {
      assert b(|c.fired| + 0, c.pending[0].item).requests == [];
    }
  }

  /** A timer alone on the queue is put back by the idle machine, at the time it is due. */
  lemma AloneStays(c: Clock, b: Behaviour, advance: bool)
    requires |c.pending| == 1 && c.pending[0].item.kind == TimerInt && (c.pending[0].key <= c.total || advance)
    ensures Check(c, b, advance, true) == Checked(false, Advanced(c))
    ensures TimerStays(Advanced(c), b) && !AllFuture(Advanced(c))
  {
    var e := c.pending[0];
    assert c.pending == [e] && c.pending[1..] == [] && Inserted([], e) == [e];
    assert Advanced(c).pending[0].key <= Advanced(c).total;
  }

  // ---- runs ----

  datatype Op = Tick(systemMode: bool) | Idle | Schedule(r: Request)

  ghost function Advance(c: Clock, systemMode: bool): Clock {
    if systemMode then c.(total := c.total + SystemTick, system := c.system + SystemTick)
    else c.(total := c.total + UserTick, user := c.user + UserTick)
  }

  /** `OneTick`, up to the yield it may end with. */
  ghost function Ticked(c: Clock, b: Behaviour, systemMode: bool): Clock {
    Drained(Advance(c, systemMode), b, false).(yieldOnReturn := false)
  }

  /** A handler asked for a context switch, in this tick or before it. */
  ghost predicate YieldAsked(c: Clock, b: Behaviour, systemMode: bool) {
    Drained(Advance(c, systemMode), b, false).yieldOnReturn
  }

  /** `Idle`: false if there is nothing left to wait for, and the machine halts. */
  ghost function Idled(c: Clock, b: Behaviour): Checked {
    var r := Check(c, b, true, true);
    if r.any then Checked(true, Drained(r.clock, b, true).(yieldOnReturn := false)) else r
  }

  ghost function Next(c: Clock, b: Behaviour, op: Op): Clock {
    match op
    case Tick(systemMode) => Ticked(c, b, systemMode)
    case Idle => Idled(c, b).clock
    case Schedule(r) => c.(pending := Inserted(c.pending, NewEntry(r, c.total)))
  }

  lemma LaterOk(c: Clock, c': Clock)
    requires TimeInv(c) && c'.pending == c.pending && c'.fired == c.fired && c'.total >= c.total
    requires c'.total == c'.idle + c'.system + c'.user
    ensures TimeInv(c')
  {
  }

  lemma TickedOk(c: Clock, b: Behaviour, systemMode: bool)
    requires TimeInv(c)
    ensures TimeInv(Ticked(c, b, systemMode)) && AllFuture(Ticked(c, b, systemMode))
    ensures c.total < Ticked(c, b, systemMode).total && c.fired <= Ticked(c, b, systemMode).fired
  {
    var c1 := Advance(c, systemMode);
    LaterOk(c, c1);
    DrainedOk(c1, b, false);
    DrainedExactly(c1, b);
    hide TimeInv, Drained, Due;
    LaterOk(Drained(c1, b, false), Ticked(c, b, systemMode));
  }

  lemma IdledOk(c: Clock, b: Behaviour)
    requires TimeInv(c)
    ensures TimeInv(Idled(c, b).clock) && c.total <= Idled(c, b).clock.total && c.fired <= Idled(c, b).clock.fired
  {
    CheckOk(c, b, true, true);
    var r := Check(c, b, true, true);
    hide TimeInv, Check;
    if r.any {
      DrainedOk(r.clock, b, true);
      LaterOk(Drained(r.clock, b, true), Idled(c, b).clock);
    }
  }

  /**
   `Idle` leaves only later entries unless, once the clock has moved to the
   first, the queue ends in a due timer and nobody asks for another interrupt.
   */
  lemma IdledLeaves(c: Clock, b: Behaviour)
    requires TimeInv(c)
    ensures AllFuture(Idled(c, b).clock) <==> !(c.pending != [] && TimerStays(Advanced(c), b))
    ensures c.pending != [] && TimerStays(Advanced(c), b) ==> Idled(c, b).clock.pending == [c.pending[|c.pending| - 1]]
  {
    if c.pending != [] {
      hide TimeInv, TimerStays, Drained, Check;
      if |c.pending| == 1 && c.pending[0].item.kind == TimerInt {
        AloneStays(c, b, true);
      } else {
        FirstIdleCheck(c, b);
        IdleLeaves(Check(c, b, true, true).clock, b);
      }
    }
  }

  /** The clock-advancing check handles the first entry, and the timer will stay or not as before. */
  lemma FirstIdleCheck(c: Clock, b: Behaviour)
    requires TimeInv(c) && c.pending != [] && !(|c.pending| == 1 && c.pending[0].item.kind == TimerInt)
    ensures var r := Check(c, b, true, true);
            && r.any && TimeInv(r.clock) && (TimerStays(Advanced(c), b) <==> TimerStays(r.clock, b))
            && (TimerStays(r.clock, b) ==> r.clock.pending[|r.clock.pending| - 1] == c.pending[|c.pending| - 1])
  {
    var now := Advanced(c);
    AdvancedOk(c);
    CheckOk(c, b, true, true);
    TimerStep(now, b);
    LastStays(now, b);
    hide TimeInv, Handled;
  }

  const Start: Clock := Clock(0, 0, 0, 0, [], [], false)

  /** A disk and a timer interrupt for the same time, and handlers that ask for nothing. */
  lemma DueTimerCanRemain()
    ensures var b: Behaviour := (n, p) => Response([], false);
            var c := Run(Start, b, [Schedule(Request(1, 0, 5, DiskInt)), Schedule(Request(2, 0, 5, TimerInt))]);
            TimeInv(c) && Idled(c, b).any && !AllFuture(Idled(c, b).clock)
  {
    var b: Behaviour := (n, p) => Response([], false);
    var disk, timer := Request(1, 0, 5, DiskInt), Request(2, 0, 5, TimerInt);
    var x, y := NewEntry(disk, 0), NewEntry(timer, 0);
    var ops := [Schedule(disk), Schedule(timer)];
    assert ops[..1] == [Schedule(disk)] && ops[..1][..0] == [];
    assert Inserted([], x) == [x];
    PlaceUnique([x], y.key, 1);
    assert Inserted([x], y) == [x, y];
    assert Run(Start, b, ops[..1]) == Start.(pending := [x]);
    var c := Run(Start, b, ops);
    assert c == Start.(pending := [x, y]);
    assert TimerStays(Advanced(c), b);
    IdledLeaves(c, b);
  }

  lemma NextOk(c: Clock, b: Behaviour, op: Op)
    requires TimeInv(c)
    ensures TimeInv(Next(c, b, op)) && c.total <= Next(c, b, op).total && c.fired <= Next(c, b, op).fired
  {
    match op
    case Tick(systemMode) => TickedOk(c, b, systemMode);
    case Idle => IdledOk(c, b);
    case Schedule(r) => InsertedOk(c.pending, NewEntry(r, c.total), c.fired);
  }

  ghost function Run(c: Clock, b: Behaviour, ops: seq<Op>): Clock {
    if ops == [] then c else Next(Run(c, b, ops[..|ops| - 1]), b, ops[|ops| - 1])
  }

  /**
   Over any run with any handlers: interrupts are handled in the order of their
   times and never early, the clock never goes back, and every tick is counted
   once as idle, system or user time.
   */
  lemma {:induction false} RunOk(c: Clock, b: Behaviour, ops: seq<Op>)
    requires TimeInv(c)
    ensures TimeInv(Run(c, b, ops)) && c.total <= Run(c, b, ops).total && c.fired <= Run(c, b, ops).fired
  {
    if ops != [] {
      RunOk(c, b, ops[..|ops| - 1]);
      hide TimeInv;
      NextOk(Run(c, b, ops[..|ops| - 1]), b, ops[|ops| - 1]);
    }
  }

  // ---- every interrupt is somebody's request ----

  /** What a request made at time `asked` is owed. */
  function Wanted(r: Request, asked: int): PendingInterrupt {
    PendingInterrupt(r.handler, r.arg, asked + r.fromNow, r.kind)
  }

  function Count(b: bool): nat { if b then 1 else 0 }

  /** How many of the requests, made at time `asked`, want `p`. */
  function Wanting(p: PendingInterrupt, rs: seq<Request>, asked: int): nat {
    if rs == [] then 0 else Count(p == Wanted(rs[0], asked)) + Wanting(p, rs[1..], asked)
  }

  /** How often the handlers run so far asked for `p`. */
  ghost function AskedByHandlers(p: PendingInterrupt, b: Behaviour, fired: seq<Firing>): nat {
    if fired == [] then 0
    else
      var n := |fired| - 1;
      AskedByHandlers(p, b, fired[..n]) + Wanting(p, b(n, fired[n].item).requests, fired[n].at)
  }

  ghost predicate Wants(c: Clock, op: Op, p: PendingInterrupt) { op.Schedule? && p == Wanted(op.r, c.total) }

  /** How often the code that is interrupted asked for `p`. */
  ghost function AskedByOps(p: PendingInterrupt, c: Clock, b: Behaviour, ops: seq<Op>): nat {
    if ops == [] then 0
    else
      var n := |ops| - 1;
      AskedByOps(p, c, b, ops[..n]) + Count(Wants(Run(c, b, ops[..n]), ops[n], p))
  }

  /** How often `p` is on the queue. */
  function Waiting(p: PendingInterrupt, q: Queue): nat {
    if q == [] then 0 else Count(p == q[0].item) + Waiting(p, q[1..])
  }

  /** How often `p` was handled. */
  function Served(p: PendingInterrupt, fired: seq<Firing>): nat {
    if fired == [] then 0 else Served(p, fired[..|fired| - 1]) + Count(p == fired[|fired| - 1].item)
  }

  lemma {:induction false} WaitingConcat(p: PendingInterrupt, x: Queue, y: Queue)
    ensures Waiting(p, x + y) == Waiting(p, x) + Waiting(p, y)
  {
    if x == [] {
      assert x + y == y;
    } else {
      WaitingConcat(p, x[1..], y);
      assert (x + y)[0] == x[0] && (x + y)[1..] == x[1..] + y;
    }
  }

  lemma WaitingInserted(p: PendingInterrupt, q: Queue, e: Entry<PendingInterrupt>)
    ensures Waiting(p, Inserted(q, e)) == Waiting(p, q) + Count(p == e.item)
  {
    var k := Place(q, e.key);
    WaitingConcat(p, q[..k], q[k..]);
    WaitingConcat(p, q[..k], [e] + q[k..]);
    WaitingConcat(p, [e], q[k..]);
    assert q == q[..k] + q[k..] && Inserted(q, e) == q[..k] + ([e] + q[k..]);
    assert Waiting(p, [e]) == Count(p == e.item);
  }

  lemma {:induction false} WaitingScheduled(p: PendingInterrupt, q: Queue, rs: seq<Request>, now: int)
    ensures Waiting(p, Scheduled(q, rs, now)) == Waiting(p, q) + Wanting(p, rs, now)
    decreases |rs|
  {
    if rs != [] {
      WaitingInserted(p, q, NewEntry(rs[0], now));
      hide Put, Place;
      WaitingScheduled(p, Inserted(q, NewEntry(rs[0], now)), rs[1..], now);
    }
  }

  /** Served or waiting as often as the handlers asked, and others `n` times. */
  ghost predicate Accounted(p: PendingInterrupt, c: Clock, b: Behaviour, n: nat) {
    Served(p, c.fired) + Waiting(p, c.pending) == AskedByHandlers(p, b, c.fired) + n
  }

  lemma HandledAccounted(p: PendingInterrupt, c: Clock, e: Entry<PendingInterrupt>, b: Behaviour, n: nat)
    requires Accounted(p, c.(pending := [e] + c.pending), b, n)
    ensures Accounted(p, Handled(c, e, b), b, n)
  {
    var fired := c.fired + [Firing(e.item, c.total)];
    WaitingScheduled(p, c.pending, b(|c.fired|, e.item).requests, c.total);
    hide Scheduled, Wanting;
    assert ([e] + c.pending)[1..] == c.pending;
    assert fired[..|fired| - 1] == c.fired;
  }

  lemma CheckAccounted(p: PendingInterrupt, c: Clock, b: Behaviour, advance: bool, idle: bool, n: nat)
    requires Accounted(p, c, b, n)
    ensures Accounted(p, Check(c, b, advance, idle).clock, b, n)
  {
    if c.pending != [] {
      var e, rest, now := c.pending[0], c.pending[1..], Advanced(c);
      assert c.pending == [e] + rest;
      WaitingInserted(p, rest, e);
      HandledAccounted(p, now.(pending := rest), e, b, n);
      hide Put, Place, Handled;
    }
  }

  lemma {:induction false} DrainedAccounted(p: PendingInterrupt, c: Clock, b: Behaviour, idle: bool, n: nat)
    requires Accounted(p, c, b, n)
    ensures Accounted(p, Drained(c, b, idle), b, n)
    decreases Due(c.pending, c.total)
  {
    CheckAccounted(p, c, b, false, idle, n);
    var r := Check(c, b, false, idle);
    CheckDue(c, b, idle);
    hide Accounted, Check;
    if r.any {
      DrainedAccounted(p, r.clock, b, idle, n);
    }
  }

  lemma NextAccounted(p: PendingInterrupt, c: Clock, b: Behaviour, op: Op, n: nat)
    requires Accounted(p, c, b, n)
    ensures Accounted(p, Next(c, b, op), b, n + Count(Wants(c, op, p)))
  {
    hide Put, Place, Check, Drained;
    match op
    case Tick(systemMode) => DrainedAccounted(p, Advance(c, systemMode), b, false, n);
    case Idle =>
      CheckAccounted(p, c, b, true, true, n);
      DrainedAccounted(p, Check(c, b, true, true).clock, b, true, n);
    case Schedule(r) => WaitingInserted(p, c.pending, NewEntry(r, c.total));
  }

  /**
   Over any run, each interrupt has been handled or is pending exactly as often
   as it was asked for, by the code that was interrupted and by handlers: with
   its own handler and argument, and due `fromNow` after it was asked for.
   */
  lemma {:induction false} RequestsConserved(p: PendingInterrupt, b: Behaviour, ops: seq<Op>)
    ensures var c := Run(Start, b, ops);
            Served(p, c.fired) + Waiting(p, c.pending)
            == AskedByHandlers(p, b, c.fired) + AskedByOps(p, Start, b, ops)
  {
    if ops != [] {
      var before := ops[..|ops| - 1];
      RequestsConserved(p, b, before);
      NextAccounted(p, Run(Start, b, before), b, ops[|ops| - 1], AskedByOps(p, Start, b, before));
      hide Next, Wants;
    }
  }

  // ---- never early ----

  /** `r` was asked for at time `asked`, by an operation of the run or by a handler it ran. */
  ghost predicate Asked(b: Behaviour, ops: seq<Op>, fired: seq<Firing>, r: Request, asked: int) {
    || (exists j :: 0 <= j < |ops| && ops[j] == Schedule(r) && asked == Run(Start, b, ops[..j]).total)
    || (exists i :: 0 <= i < |fired| && r in b(i, fired[i].item).requests && asked == fired[i].at)
  }

  lemma {:induction false} WantedBy(p: PendingInterrupt, rs: seq<Request>, asked: int) returns (r: Request)
    requires Wanting(p, rs, asked) > 0
    ensures r in rs && p == Wanted(r, asked)
  {
    if p == Wanted(rs[0], asked) {
      r := rs[0];
    } else {
      r := WantedBy(p, rs[1..], asked);
    }
  }

  lemma {:induction false} AskedByHandler(p: PendingInterrupt, b: Behaviour, fired: seq<Firing>)
    returns (i: nat, r: Request)
    requires AskedByHandlers(p, b, fired) > 0
    ensures i < |fired| && r in b(i, fired[i].item).requests && p == Wanted(r, fired[i].at)
  {
    var n := |fired| - 1;
    if AskedByHandlers(p, b, fired[..n]) > 0 {
      i, r := AskedByHandler(p, b, fired[..n]);
    } else {
      i := n;
      r := WantedBy(p, b(n, fired[n].item).requests, fired[n].at);
    }
  }

  lemma {:induction false} AskedByOp(p: PendingInterrupt, b: Behaviour, ops: seq<Op>) returns (j: nat, r: Request)
    requires AskedByOps(p, Start, b, ops) > 0
    ensures j < |ops| && ops[j] == Schedule(r) && p == Wanted(r, Run(Start, b, ops[..j]).total)
  {
    hide Run;
    var n := |ops| - 1;
    if AskedByOps(p, Start, b, ops[..n]) > 0 {
      j, r := AskedByOp(p, b, ops[..n]);
      assert ops[..n][..j] == ops[..j];
    } else {
      j, r := n, ops[n].r;
    }
  }

  lemma {:induction false} ServedHas(fired: seq<Firing>, i: nat)
    requires i < |fired|
    ensures Served(fired[i].item, fired) > 0
  {
    if i < |fired| - 1 {
      ServedHas(fired[..|fired| - 1], i);
    }
  }

  /** Whoever asked for `p`, in a run that has handled `fired`. */
  lemma AskedBySomebody(p: PendingInterrupt, b: Behaviour, ops: seq<Op>, fired: seq<Firing>)
    returns (r: Request, asked: int)
    requires AskedByHandlers(p, b, fired) + AskedByOps(p, Start, b, ops) > 0
    ensures Asked(b, ops, fired, r, asked) && p == Wanted(r, asked)
  {
    hide Run, AskedByHandlers, AskedByOps;
    if AskedByHandlers(p, b, fired) > 0 {
      var i;
      i, r := AskedByHandler(p, b, fired);
      asked := fired[i].at;
    } else {
      var j;
      j, r := AskedByOp(p, b, ops);
      asked := Run(Start, b, ops[..j]).total;
    }
  }

  lemma FiredInTime(c: Clock, i: nat)
    requires TimeInv(c) && i < |c.fired|
    ensures c.fired[i].item.when <= c.fired[i].at
  {
    hide QueueOk, InOrder;
  }

  lemma BootOk(b: Behaviour, ops: seq<Op>)
    ensures TimeInv(Run(Start, b, ops))
  {
    assert TimeInv(Start);
    hide TimeInv, Next;
    RunOk(Start, b, ops);
  }

  /**
   Every interrupt that is handled, in any run, was asked for by somebody, with
   the handler and argument it is handled with, and is handled no earlier than
   the delay asked for.
   */
  lemma NeverEarly(b: Behaviour, ops: seq<Op>, i: nat) returns (r: Request, asked: int)
    requires i < |Run(Start, b, ops).fired|
    ensures var fired := Run(Start, b, ops).fired;
            && Asked(b, ops, fired, r, asked) && asked + r.fromNow <= fired[i].at
            && fired[i].item == PendingInterrupt(r.handler, r.arg, asked + r.fromNow, r.kind)
  {
    var c := Run(Start, b, ops);
    var p := c.fired[i].item;
    hide TimeInv, Run, Served, Waiting, AskedByHandlers, AskedByOps, Asked;
    BootOk(b, ops);
    FiredInTime(c, i);
    RequestsConserved(p, b, ops);
    ServedHas(c.fired, i);
    r, asked := AskedBySomebody(p, b, ops, c.fired);
  }

  // ---- which account a tick goes to, and who yields ----

  /** Handlers take no time, and ask for a context switch on behalf of the one they interrupt. */
  lemma {:induction false} DrainedAccounts(c: Clock, b: Behaviour, idle: bool)
    ensures var d := Drained(c, b, idle);
            && d.total == c.total && d.idle == c.idle && d.system == c.system && d.user == c.user
            && c.fired <= d.fired
            && (d.yieldOnReturn <==>
                 c.yieldOnReturn || exists i :: |c.fired| <= i < |d.fired| && b(i, d.fired[i].item).yielding)
    decreases Due(c.pending, c.total)
  {
    var r, d := Check(c, b, false, idle), Drained(c, b, idle);
    CheckDue(c, b, idle);
    if r.any {
      var e := c.pending[0];
      assert r.clock.fired == c.fired + [Firing(e.item, c.total)];
      assert r.clock.yieldOnReturn == (c.yieldOnReturn || b(|c.fired|, e.item).yielding);
      assert r.clock.idle == c.idle && r.clock.system == c.system && r.clock.user == c.user;
      hide Check;
      DrainedAccounts(r.clock, b, idle);
      assert d.fired[|c.fired|] == Firing(e.item, c.total);
    }
  }

  /** A tick costs 10 units of system time, or 1 of user time, and a context switch is asked for if a handler did. */
  lemma TickAccounts(c: Clock, b: Behaviour, systemMode: bool)
    ensures var d := Ticked(c, b, systemMode);
            && d.idle == c.idle && c.fired <= d.fired && !d.yieldOnReturn
            && (if systemMode then d.total == c.total + 10 && d.system == c.system + 10 && d.user == c.user
                else d.total == c.total + 1 && d.system == c.system && d.user == c.user + 1)
            && (YieldAsked(c, b, systemMode) <==>
                 c.yieldOnReturn || exists i :: |c.fired| <= i < |d.fired| && b(i, d.fired[i].item).yielding)
  {
    DrainedAccounts(Advance(c, systemMode), b, false);
    hide Drained;
  }

  /**
   `Idle` moves the clock to the first entry, if that lies ahead, and counts the
   time as idle; it gives up exactly when nothing, or only a timer, is pending.
   */
  lemma IdleAccounts(c: Clock, b: Behaviour)
    ensures Idled(c, b).any <==> c.pending != [] && !(|c.pending| == 1 && c.pending[0].item.kind == TimerInt)
    ensures var d := Idled(c, b).clock;
            && d.system == c.system && d.user == c.user && d.idle - c.idle == d.total - c.total
            && d.total == if c.pending != [] && c.pending[0].key > c.total then c.pending[0].key else c.total
  {
    DrainedAccounts(Check(c, b, true, true).clock, b, true);
    hide Drained, Scheduled, Put, Place;
  }

  // ---- the simulation's object ----

  datatype IntStatus = IntOff | IntOn

  datatype MachineStatus = IdleMode | SystemMode | UserMode

  class Statistics {
    var totalTicks: int
    var idleTicks: int
    var systemTicks: int
    var userTicks: int

    constructor ()
      ensures totalTicks == idleTicks == systemTicks == userTicks == 0
    {
      totalTicks, idleTicks, systemTicks, userTicks := 0, 0, 0, 0;
    }
  }

  class Interrupt {
    const stats: Statistics
    const pending: List<PendingInterrupt>
    const behave: Behaviour
    var level: IntStatus
    var status: MachineStatus
    var inHandler: bool
    var yieldOnReturn: bool
    var handled: nat            // number of interrupts handled, which the handlers' behaviour may depend on
    ghost var fired: seq<Firing>

    ghost predicate Valid()
      reads this, pending, pending.spine
    {
      pending.Valid() && handled == |fired|
    }

    ghost function View(): Clock
      reads this, stats, pending, pending.spine
    {
      Clock(stats.totalTicks, stats.idleTicks, stats.systemTicks, stats.userTicks, pending.Contents(), fired,
            yieldOnReturn)
    }

    constructor (handlers: Behaviour)
      ensures Valid() && level == IntOff && status == SystemMode && !inHandler && behave == handlers
      ensures View() == Clock(0, 0, 0, 0, [], [], false) && TimeInv(View())
      ensures fresh(stats) && fresh(pending)
    {
      stats := new Statistics();
      pending := new List<PendingInterrupt>();
      behave := handlers;
      level, status, inHandler, yieldOnReturn, handled, fired := IntOff, SystemMode, false, false, 0, [];
    }

    /** Puts a request on the queue, behind entries for the same time. */
    method Schedule(r: Request)
      requires Valid()
      modifies pending, pending.repr
      ensures Valid()
              && View() == old(View()).(pending := Inserted(old(View()).pending, NewEntry(r, old(View()).total)))
      ensures var when := old(stats.totalTicks) + r.fromNow;
              multiset(View().pending) == multiset(old(View()).pending)
                                          + multiset{Entry(PendingInterrupt(r.handler, r.arg, when, r.kind), when)}
      ensures fresh(pending.repr - old(pending.repr))
    {
      var e := NewEntry(r, stats.totalTicks);
      InsertedElements(pending.Contents(), e);
      hide Put, Place;
      pending.SortedInsert(e.item, e.key);
    }

    /** What a handler asks for, in order. */
    method ScheduleAll(requests: seq<Request>)
      requires Valid()
      modifies pending, pending.repr
      ensures Valid() && View() == old(View()).(pending := Scheduled(old(View()).pending, requests, old(View()).total))
      ensures fresh(pending.repr - old(pending.repr))
    {
      ghost var c := View();
      hide Put, Place;
      var i := 0;
      while i < |requests|
        invariant 0 <= i <= |requests| && Valid() && View() == c.(pending := pending.Contents())
        invariant Scheduled(pending.Contents(), requests[i..], c.total) == Scheduled(c.pending, requests, c.total)
        invariant fresh(pending.repr - old(pending.repr))
      {
        ghost var rest := requests[i..];
        assert rest[0] == requests[i] && rest[1..] == requests[i + 1..];
        Schedule(requests[i]);
        i := i + 1;
      }
    }

    /** An interrupt handler at work. */
    method Handle(p: PendingInterrupt)
      requires Valid()
      modifies this`handled, this`fired, this`yieldOnReturn, pending, pending.repr
      ensures Valid() && View() == Handled(old(View()), Entry(p, p.when), behave)
      ensures fresh(pending.repr - old(pending.repr))
    {
      var response := behave(handled, p);
      fired := fired + [Firing(p, stats.totalTicks)];
      handled := handled + 1;
      if response.yielding {
        yieldOnReturn := true;
      }
      ScheduleAll(response.requests);
    }

    method TakeFirst() returns (toOccur: Option<PendingInterrupt>, when: int)
      requires Valid()
      modifies pending
      ensures Valid() && pending.repr == old(pending.repr)
      ensures var q := old(View()).pending;
              if q == [] then toOccur == None && View() == old(View())
              else toOccur == Some(q[0].item) && when == q[0].key && View() == old(View()).(pending := q[1..])
    {
      toOccur, when := pending.SortedRemove();
    }

    method PutBack(p: PendingInterrupt, when: int)
      requires Valid()
      modifies pending, pending.repr
      ensures Valid() && View() == old(View()).(pending := Inserted(old(View()).pending, Entry(p, when)))
      ensures fresh(pending.repr - old(pending.repr))
    {
      pending.SortedInsert(p, when);
    }

    /** The machine runs a handler in system mode, and then goes on in the mode it was in. */
    method CallHandler(p: PendingInterrupt)
      requires Valid()
      modifies this, pending, pending.repr
      ensures Valid() && View() == Handled(old(View()), Entry(p, p.when), behave)
      ensures level == old(level) && status == old(status) && !inHandler && fresh(pending.repr - old(pending.repr))
    {
      hide Handled, List.Valid, List.Contents;
      var oldStatus := status;
      inHandler := true;
      status := SystemMode;
      Handle(p);
      status := oldStatus;
      inHandler := false;
    }

    /** Handles the first interrupt if it is due, or moves the clock to it; otherwise puts it back. */
    method CheckIfDue(advanceClock: bool) returns (any: bool)
      requires Valid() && level == IntOff && !inHandler && QueueOk(View().pending)
      modifies this, stats, pending, pending.repr
      ensures Valid() && level == IntOff && !inHandler && status == old(status)
      ensures Checked(any, View()) == Check(old(View()), behave, advanceClock, old(status) == IdleMode)
      ensures fresh(pending.repr - old(pending.repr))
    {
      ghost var c := View();
      assert c.pending != [] ==> c.pending[0].key == c.pending[0].item.when;
      hide Put, Place, Scheduled, List.Valid, List.Contents, QueueOk;
      var toOccur, when := TakeFirst();
      any := false;
      if toOccur.Some? {
        if when > stats.totalTicks && !advanceClock {
          PutBack(toOccur.value, when);
        } else {
          any := Occur(toOccur.value, when, c);
        }
      }
    }

    /** The time of an interrupt taken off the queue has come, or the clock is moved to it. */
    method Occur(p: PendingInterrupt, when: int, ghost c: Clock) returns (any: bool)
      requires Valid() && level == IntOff && !inHandler && when == p.when && c.pending != []
               && c.pending[0] == Entry(p, when)
      requires View() == c.(pending := c.pending[1..])
      modifies this, stats, pending, pending.repr
      ensures Valid() && level == IntOff && !inHandler && status == old(status)
              && fresh(pending.repr - old(pending.repr))
      ensures Checked(any, View()) == Check(c, behave, true, old(status) == IdleMode)
    {
      hide Put, Place, Scheduled, List.Valid, List.Contents;
      if when > stats.totalTicks {
        stats.idleTicks := stats.idleTicks + (when - stats.totalTicks);
        stats.totalTicks := when;
      }
      assert View() == Advanced(c).(pending := c.pending[1..]);
      var empty := pending.IsEmpty();
      any := !(status == IdleMode && p.kind == TimerInt && empty);
      if any {
        CallHandler(p);
      } else {
        PutBack(p, when);
      }
    }

    /** Handles interrupts until none is due; the number due is what shrinks. */
    method Drain()
      requires Valid() && level == IntOff && !inHandler && TimeInv(View())
      modifies this, stats, pending, pending.repr
      ensures Valid() && level == IntOff && !inHandler && status == old(status)
              && fresh(pending.repr - old(pending.repr))
      ensures View() == Drained(old(View()), behave, old(status) == IdleMode)
    {
      ghost var c, idle := View(), status == IdleMode;
      hide List.Valid, List.Contents;
      var any := true;
      while any
        invariant Valid() && level == IntOff && !inHandler && status == old(status)
                  && fresh(pending.repr - old(pending.repr))
        invariant TimeInv(View())
        invariant any ==> Drained(View(), behave, idle) == Drained(c, behave, idle)
        invariant !any ==> View() == Drained(c, behave, idle)
        decreases any, Due(View().pending, View().total)
      {
        ghost var now := View();
        CheckDue(now, behave, idle);
        CheckOk(now, behave, false, idle);
        hide Check, TimeInv;
        any := CheckIfDue(false);
      }
    }

    method AdvanceClock()
      requires Valid() && status != IdleMode
      modifies stats
      ensures Valid() && View() == Advance(old(View()), status == SystemMode)
    {
      if status == SystemMode {
        stats.totalTicks := stats.totalTicks + SystemTick;
        stats.systemTicks := stats.systemTicks + SystemTick;
      } else {
        stats.totalTicks := stats.totalTicks + UserTick;
        stats.userTicks := stats.userTicks + UserTick;
      }
    }

    /** Advances the clock and handles what has become due; says whether a handler asked for a context switch. */
    method OneTick() returns (yielding: bool)
      requires Valid() && !inHandler && TimeInv(View()) && status != IdleMode
      modifies this, stats, pending, pending.repr
      ensures Valid() && level == IntOn && !inHandler && status == old(status)
              && fresh(pending.repr - old(pending.repr))
      ensures View() == Ticked(old(View()), behave, old(status) == SystemMode)
      ensures yielding == YieldAsked(old(View()), behave, old(status) == SystemMode)
      ensures yielding <==> old(yieldOnReturn)
                            || exists i :: |old(fired)| <= i < |fired| && behave(i, fired[i].item).yielding
    {
      TickAccounts(View(), behave, status == SystemMode);
      LaterOk(View(), Advance(View(), status == SystemMode));
      hide TimeInv, Drained, List.Valid, List.Contents;
      AdvanceClock();
      DrainOff();
      yielding := TakeYield();
    }

    method TakeYield() returns (yielding: bool)
      requires Valid()
      modifies this`yieldOnReturn
      ensures Valid() && View() == old(View()).(yieldOnReturn := false) && yielding == old(yieldOnReturn)
    {
      yielding := yieldOnReturn;
      yieldOnReturn := false;
    }

    /** Handlers run with interrupts disabled, and leave them enabled. */
    method DrainOff()
      requires Valid() && !inHandler && TimeInv(View()) && status != IdleMode
      modifies this, stats, pending, pending.repr
      ensures Valid() && level == IntOn && !inHandler && status == old(status)
              && fresh(pending.repr - old(pending.repr))
      ensures View() == Drained(old(View()), behave, false)
    {
      hide TimeInv, Drained, List.Valid, List.Contents;
      level := IntOff;
      Drain();
      level := IntOn;
    }

    /** With nothing to run, moves the clock to the next interrupt; false if there is none to wait for. */
    method Idle() returns (goOn: bool)
      requires Valid() && level == IntOff && !inHandler && TimeInv(View())
      modifies this, stats, pending, pending.repr
      ensures Valid() && level == IntOff && !inHandler && fresh(pending.repr - old(pending.repr))
      ensures Checked(goOn, View()) == Idled(old(View()), behave) && (goOn ==> status == SystemMode)
    {
      hide TimeInv, Drained, Check, List.Valid, List.Contents, QueueOk;
      goOn := CheckIdle();
      if goOn {
        WakeUp();
      }
    }

    method CheckIdle() returns (any: bool)
      requires Valid() && level == IntOff && !inHandler && TimeInv(View())
      modifies this, stats, pending, pending.repr
      ensures Valid() && level == IntOff && !inHandler && status == IdleMode && fresh(pending.repr - old(pending.repr))
      ensures Checked(any, View()) == Check(old(View()), behave, true, true) && TimeInv(View())
    {
      assert QueueOk(View().pending);
      hide TimeInv, Drained, Check, List.Valid, List.Contents, QueueOk;
      CheckOk(View(), behave, true, true);
      status := IdleMode;
      any := CheckIfDue(true);
    }

    /** The rest of what is due is handled too, before the machine leaves the idle mode. */
    method WakeUp()
      requires Valid() && level == IntOff && !inHandler && TimeInv(View()) && status == IdleMode
      modifies this, stats, pending, pending.repr
      ensures Valid() && level == IntOff && !inHandler && fresh(pending.repr - old(pending.repr))
              && status == SystemMode
      ensures View() == Drained(old(View()), behave, true).(yieldOnReturn := false)
    {
      hide TimeInv, Drained, List.Valid, List.Contents;
      Drain();
      yieldOnReturn := false;
      status := SystemMode;
    }

    /** Enabling interrupts costs a tick. */
    method SetLevel(now: IntStatus) returns (was: IntStatus, yielding: bool)
      requires Valid() && TimeInv(View()) && status != IdleMode && (now == IntOff || !inHandler)
      modifies this, stats, pending, pending.repr
      ensures Valid() && was == old(level) && level == now && inHandler == old(inHandler) && status == old(status)
      ensures View() == if now == IntOn && was == IntOff then Ticked(old(View()), behave, status == SystemMode)
                        else old(View())
      ensures yielding <==> now == IntOn && was == IntOff && YieldAsked(old(View()), behave, status == SystemMode)
    {
      was := level;
      yielding := false;
      level := now;
      if now == IntOn && was == IntOff {
        yielding := OneTick();
      }
    }
  }
}
