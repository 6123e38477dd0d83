/**
 The timing of the simulated disk: seeks, rotation and the track buffer.

 The disk turns past one sector every `RotationTime` ticks from time zero, so
 between two multiples of `RotationTime` one whole sector passes the head.
 */
module Disks {
  const SectorsPerTrack: int := 32
  const NumTracks: int := 32
  const NumSectors: int := SectorsPerTrack * NumTracks
  const RotationTime: int := 500
  const SeekTime: int := 500

  predicate OnDisk(sector: int) { 0 <= sector < NumSectors }

  function Abs(x: int): int { if x < 0 then -x else x }

  /** The time to move the head to another sector's track. */
  function SeekFor(last: int, sector: int): int {
    Abs(sector / SectorsPerTrack - last / SectorsPerTrack) * SeekTime
  }

  /** Tracks are runs of 32 sectors, and a seek costs 500 for each track moved, in either direction. */
  lemma SeekPerTrack(track: nat, x: nat, moved: nat, y: nat)
    requires x < 32 && y < 32
    ensures SeekFor(32 * track + x, 32 * (track + moved) + y) == 500 * moved
    ensures SeekFor(32 * (track + moved) + y, 32 * track + x) == 500 * moved
  {
    assert (32 * track + x) / 32 == track && (32 * (track + moved) + y) / 32 == track + moved;
  }

  /** The time from `t` to the next sector boundary. */
  function ToBoundary(t: int): int {
    if t % RotationTime > 0 then RotationTime - t % RotationTime else 0
  }

  function ModuloDiff(to: int, from: int): int {
    ((to % SectorsPerTrack - from % SectorsPerTrack) + SectorsPerTrack) % SectorsPerTrack
  }

  /** When the head is on the track and at a sector boundary. */
  function Settled(now: int, last: int, sector: int): int {
    now + SeekFor(last, sector) + ToBoundary(now + SeekFor(last, sector))
  }

  predicate BufferHit(now: int, last: int, bufferInit: int, sector: int, writing: bool) {
    && !writing && SeekFor(last, sector) == 0
    && (Settled(now, last, sector) - bufferInit) / RotationTime > ModuloDiff(sector, bufferInit / RotationTime)
  }

  function Latency(now: int, last: int, bufferInit: int, sector: int, writing: bool): int {
    if BufferHit(now, last, bufferInit, sector, writing) then RotationTime
    else
      var settled := Settled(now, last, sector);
      (settled - now) + ModuloDiff(sector, settled / RotationTime) * RotationTime + RotationTime
  }

  // ---- what the arithmetic means ----

  /** The sector passes the head of its track in the `k`th slot of `RotationTime` ticks. */
  predicate InSlot(sector: int, k: int) { k % SectorsPerTrack == sector % SectorsPerTrack }

  /** At time `t` the sector starts to pass under the head of its track. */
  predicate Arrives(sector: int, t: int) {
    0 <= t && t % RotationTime == 0 && InSlot(sector, t / RotationTime)
  }

  /** `ModuloDiff` counts the slots to the next one of the sector. */
  lemma ModuloDiffMeans(to: int, from: nat)
    requires 0 <= to
    ensures 0 <= ModuloDiff(to, from) < SectorsPerTrack && InSlot(to, from + ModuloDiff(to, from))
    ensures forall k :: from <= k < from + ModuloDiff(to, from) ==> !InSlot(to, k)
  {
    var f, q := from % SectorsPerTrack, from / SectorsPerTrack;
    assert from == SectorsPerTrack * q + f;
    RotateBy(q, f, ModuloDiff(to, from));
    forall k | from <= k < from + ModuloDiff(to, from) ensures !InSlot(to, k) {
      RotateBy(q, f, k - from);
    }
  }

  lemma RotateBy(q: nat, f: nat, d: nat)
    requires f < SectorsPerTrack && d < SectorsPerTrack
    ensures (SectorsPerTrack * q + f + d) % SectorsPerTrack
            == if f + d < SectorsPerTrack then f + d else f + d - SectorsPerTrack
  {
  }

  lemma SettledAtBoundary(now: int, last: int, sector: int)
    requires 0 <= now && OnDisk(last) && OnDisk(sector)
    ensures Settled(now, last, sector) % RotationTime == 0
    ensures now + SeekFor(last, sector) <= Settled(now, last, sector) < now + SeekFor(last, sector) + RotationTime
    ensures 0 <= SeekFor(last, sector) <= 31 * SeekTime
  {
    Round(now + SeekFor(last, sector));
  }

  lemma Round(t: nat)
    ensures (t + ToBoundary(t)) % RotationTime == 0 && 0 <= ToBoundary(t) < RotationTime
  {
    var q := t / RotationTime;
    assert t == RotationTime * q + t % RotationTime;
    if t % RotationTime > 0 {
      assert t + ToBoundary(t) == RotationTime * (q + 1);
    }
  }

  /**
   A request that the buffer does not serve ends exactly when its sector has
   passed under the head for the first time after the seek.
   */
  lemma LatencyExact(now: int, last: int, bufferInit: int, sector: int, writing: bool)
    requires 0 <= now && OnDisk(last) && OnDisk(sector) && !BufferHit(now, last, bufferInit, sector, writing)
    ensures var start := now + Latency(now, last, bufferInit, sector, writing) - RotationTime;
            && Arrives(sector, start) && now + SeekFor(last, sector) <= start
            && forall t :: now + SeekFor(last, sector) <= t < start ==> !Arrives(sector, t)
  {
    SettledAtBoundary(now, last, sector);
    var settled := Settled(now, last, sector);
    var k := settled / RotationTime;
    ModuloDiffMeans(sector, k);
    var start := now + Latency(now, last, bufferInit, sector, writing) - RotationTime;
    assert start == settled + ModuloDiff(sector, k) * RotationTime;
    Boundary(k + ModuloDiff(sector, k));
    forall t | now + SeekFor(last, sector) <= t < start ensures !Arrives(sector, t) {
      if t % RotationTime == 0 {
        NoEarlier(settled, t, k, ModuloDiff(sector, k));
        assert !InSlot(sector, t / RotationTime);
      }
    }
  }

  lemma Boundary(k: nat)
    ensures (RotationTime * k) % RotationTime == 0 && RotationTime * k / RotationTime == k
  {
  }

  lemma NoEarlier(settled: nat, t: nat, k: nat, m: nat)
    requires settled == RotationTime * k && t % RotationTime == 0
             && settled - RotationTime < t < settled + m * RotationTime
    ensures 0 <= t / RotationTime - k < m
  {
    var j := t / RotationTime;
    assert t == RotationTime * j;
  }

  /** Every latency is between one sector and the longest seek and turn, so an interrupt can be scheduled. */
  lemma LatencyBounds(now: int, last: int, bufferInit: int, sector: int, writing: bool)
    requires 0 <= now && OnDisk(last) && OnDisk(sector)
    ensures 500 <= Latency(now, last, bufferInit, sector, writing) <= 31999
  {
    SettledAtBoundary(now, last, sector);
    ModuloDiffMeans(sector, Settled(now, last, sector) / RotationTime);
  }

  lemma LongestLatency()
    ensures Latency(1, 0, 0, 1023, true) == 31999 && Latency(0, 0, 0, 0, true) == 500
  {
    SettledFar();
    SettledHere();
    hide Settled, ModuloDiff, Latency;
    LatencyOf(1, 0, 1023, 16000, 31);
    LatencyOf(0, 0, 0, 0, 0);
  }

  lemma SettledFar()
    ensures Settled(1, 0, 1023) == 16000 && ModuloDiff(1023, 16000 / RotationTime) == 31
  {
    assert 16000 / RotationTime == 32;
  }

  lemma SettledHere()
    ensures Settled(0, 0, 0) == 0 && ModuloDiff(0, 0 / RotationTime) == 0
  {
  }

  /** The latency of a write, from the time the head settles and the sectors it then waits for. */
  lemma LatencyOf(now: int, last: int, sector: int, settled: int, sectors: int)
    requires Settled(now, last, sector) == settled && ModuloDiff(sector, settled / RotationTime) == sectors
    ensures Latency(now, last, 0, sector, true) == settled - now + (sectors + 1) * RotationTime
  {
    hide Settled, ModuloDiff;
  }

  /** The track buffer, filled from `bufferInit` on, holds the sector by time `t`. */
  ghost predicate Passed(sector: int, bufferInit: int, t: int) {
    exists s :: bufferInit <= s && s + RotationTime <= t && Arrives(sector, s)
  }

  /**
   A read on the current track is served from the buffer, in the time of one
   sector, exactly when the whole sector has passed since the head came to the
   track, by the next boundary.
   */
  lemma BufferHitMeans(now: int, last: int, bufferInit: int, sector: int)
    requires 0 <= bufferInit <= now && bufferInit % RotationTime == 0 && OnDisk(last) && OnDisk(sector)
    requires SeekFor(last, sector) == 0
    ensures BufferHit(now, last, bufferInit, sector, false) <==> Passed(sector, bufferInit, Settled(now, last, sector))
    ensures Passed(sector, bufferInit, Settled(now, last, sector))
            ==> Latency(now, last, bufferInit, sector, false) == 500
  {
    SettledAtBoundary(now, last, sector);
    var settled, k := Settled(now, last, sector), bufferInit / RotationTime;
    var n, d := settled / RotationTime, ModuloDiff(sector, k);
    ModuloDiffMeans(sector, k);
    assert settled == RotationTime * n && bufferInit == RotationTime * k;
    SlotsBetween(k, n);
    hide ModuloDiff, Settled;
    if n - k > d {
      Boundary(k + d);
      assert Arrives(sector, RotationTime * (k + d));
      assert Passed(sector, bufferInit, settled);
    }
    if Passed(sector, bufferInit, settled) {
      var s :| bufferInit <= s && s + RotationTime <= settled && Arrives(sector, s);
      assert s == RotationTime * (s / RotationTime);
      assert InSlot(sector, s / RotationTime);
    }
  }

  lemma SlotsBetween(k: nat, n: nat)
    requires k <= n
    ensures (RotationTime * n - RotationTime * k) / RotationTime == n - k
  {
    Boundary(n - k);
  }

  // ---- the disk's own state ----

  class Disk {
    var active: bool
    var lastSector: int
    var bufferInit: int
    var due: int          // when the interrupt of the request under way is to occur

    /**
     The buffer started at a sector boundary, and in the past of any request: a
     request that moves the head completes only after the head has settled.
     */
    ghost predicate Valid(now: int)
      reads this
    {
      && 0 <= now && OnDisk(lastSector) && 0 <= bufferInit && bufferInit % RotationTime == 0
      && bufferInit <= if active then due else now
    }

    constructor ()
      ensures Valid(0) && !active && lastSector == 0 && bufferInit == 0
    {
      active, lastSector, bufferInit, due := false, 0, 0, 0;
    }

    /** Seek time, and the time from then to the next sector boundary. */
    method TimeToSeek(newSector: int, now: int) returns (seek: int, rotation: int)
      requires OnDisk(newSector) && OnDisk(lastSector) && 0 <= now
      ensures seek == SeekFor(lastSector, newSector) && rotation == ToBoundary(now + seek)
      ensures now + seek + rotation == Settled(now, lastSector, newSector)
    {
      var newTrack, oldTrack := newSector / SectorsPerTrack, lastSector / SectorsPerTrack;
      seek := Abs(newTrack - oldTrack) * SeekTime;
      var over := (now + seek) % RotationTime;
      rotation := 0;
      if over > 0 {
        rotation := RotationTime - over;
      }
    }

    method ComputeLatency(newSector: int, writing: bool, now: int) returns (ticks: int)
      requires Valid(now) && OnDisk(newSector)
      ensures ticks == Latency(now, lastSector, bufferInit, newSector, writing)
    {
      var seek, rotation := TimeToSeek(newSector, now);
      var timeAfter := now + seek + rotation;
      if !writing && seek == 0
         && (timeAfter - bufferInit) / RotationTime > ModuloDiff(newSector, bufferInit / RotationTime) {
        return RotationTime;
      }
      rotation := rotation + ModuloDiff(newSector, timeAfter / RotationTime) * RotationTime;
      return seek + rotation + RotationTime;
    }

    /** Remembers the sector, and when the head will be on its track. */
    method UpdateLast(newSector: int, now: int)
      requires OnDisk(lastSector) && OnDisk(newSector) && 0 <= now
      modifies this`lastSector, this`bufferInit
      ensures lastSector == newSector
      ensures bufferInit == if SeekFor(old(lastSector), newSector) != 0 then Settled(now, old(lastSector), newSector)
                            else old(bufferInit)
    {
      var seek, rotate := TimeToSeek(newSector, now);
      if seek != 0 {
        bufferInit := now + seek + rotate;
      }
      lastSector := newSector;
    }

    /** A read or write request on an idle disk: its interrupt comes after the latency. */
    method Request(sector: int, writing: bool, now: int) returns (ticks: int)
      requires Valid(now) && !active && OnDisk(sector)
      modifies this
      ensures Valid(now) && active && lastSector == sector && due == now + ticks
      ensures ticks == Latency(now, old(lastSector), old(bufferInit), sector, writing) && 500 <= ticks <= 31999
    {
      ticks := ComputeLatency(sector, writing, now);
      LatencyBounds(now, lastSector, bufferInit, sector, writing);
      LatencyCoversSeek(now, lastSector, bufferInit, sector, writing);
      SettledAtBoundary(now, lastSector, sector);
      active := true;
      UpdateLast(sector, now);
      due := now + ticks;
    }

    /** The request is complete; called no earlier than its interrupt is due. */
    method HandleInterrupt(now: int)
      requires active && due <= now && Valid(now)
      modifies this`active
      ensures !active && Valid(now)
    {
      active := false;
    }
  }

  lemma LatencyCoversSeek(now: int, last: int, bufferInit: int, sector: int, writing: bool)
    requires 0 <= now && OnDisk(last) && OnDisk(sector)
    ensures SeekFor(last, sector) != 0 ==>
            Settled(now, last, sector) <= now + Latency(now, last, bufferInit, sector, writing)
    ensures now < now + Latency(now, last, bufferInit, sector, writing)
  {
    SettledAtBoundary(now, last, sector);
    ModuloDiffMeans(sector, Settled(now, last, sector) / RotationTime);
    LatencyBounds(now, last, bufferInit, sector, writing);
  }
}
