/** The timer table and its scheduler: every second it fires what is due and re-arms it. */
module Timers {
  import opened Common
  import opened Schedule

  datatype Timer = Timer(
    name: string,
    unit: string,
    schedule: Schedule,
    enabled: bool,
    nextFire: U64,            // ticks (every, boot+) or Unix time (calendar)
    lastFire: Option<U64>)

  /** The two clocks the scheduler reads: Unix time and ticks. */
  datatype Clock = Clock(epoch: U64, ticks: U64)

  predicate Monotonic(s: Schedule)
  {
    s.EveryTicks? || s.BootPlus?
  }

  /** The reading that concerns a schedule. */
  function Reading(s: Schedule, now: Clock): U64
  {
    if Monotonic(s) then now.ticks else now.epoch
  }

  function Next(s: Schedule, now: Clock): U64
    requires InRange(s)
  {
    ComputeNext(s, now.epoch, now.ticks)
  }

  predicate Due(t: Timer, now: Clock)
  {
    t.enabled && t.nextFire <= Reading(t.schedule, now)
  }

  /** timer_fired on one timer. */
  function Fired(t: Timer, now: Clock): Timer
    requires InRange(t.schedule)
  {
    t.(lastFire := Some(Reading(t.schedule, now)),
       nextFire := Next(t.schedule, now),
       enabled := t.enabled && !t.schedule.BootPlus?)
  }

  /** One scheduler pass over one timer. */
  function AfterScan(t: Timer, now: Clock): Timer
    requires InRange(t.schedule)
  {
    if Due(t, now) then Fired(t, now) else t
  }

  predicate AllInRange(ts: seq<Timer>)
  {
    forall i | 0 <= i < |ts| :: InRange(ts[i].schedule)
  }

  /** The due timers among the first n, in table order. */
  function DueAmong(ts: seq<Timer>, n: nat, now: Clock): seq<nat>
    requires n <= |ts|
  {
    if n == 0 then []
    else DueAmong(ts, n - 1, now) + if Due(ts[n - 1], now) then [n - 1] else []
  }

  /** Exactly the due ones, each once. */
  lemma {:induction false} DueAmongExact(ts: seq<Timer>, n: nat, now: Clock)
    requires n <= |ts|
    ensures forall i: nat :: i in DueAmong(ts, n, now) <==> i < n && Due(ts[i], now)
    ensures forall j, k | 0 <= j < k < |DueAmong(ts, n, now)| :: DueAmong(ts, n, now)[j] < DueAmong(ts, n, now)[k]
  {
    if n > 0 {
      DueAmongExact(ts, n - 1, now);
      var prev := DueAmong(ts, n - 1, now);
      assert forall j | 0 <= j < |prev| :: prev[j] in prev;
    }
  }

  lemma {:induction false} DisabledAddNothing(ts: seq<Timer>, lo: nat, hi: nat, now: Clock)
    requires lo <= hi <= |ts|
    requires forall i | lo <= i < hi :: !ts[i].enabled
    ensures DueAmong(ts, hi, now) == DueAmong(ts, lo, now)
  {
    if lo < hi { DisabledAddNothing(ts, lo, hi - 1, now); }
  }

  /** The table while a pass is under way: the timers before `done` have been dealt with. */
  ghost predicate Scanned(was: seq<Timer>, ts: seq<Timer>, done: nat, now: Clock)
    requires AllInRange(was)
  {
    && done <= |was| == |ts|
    && (forall i | 0 <= i < done :: ts[i] == AfterScan(was[i], now))
    && (forall i | done <= i < |was| :: ts[i] == was[i])
  }

  lemma ScanStep(was: seq<Timer>, ts: seq<Timer>, done: nat, idx: nat, now: Clock)
    requires AllInRange(was) && Scanned(was, ts, done, now) && done <= idx < |was|
    requires forall i | done <= i < idx :: !was[i].enabled
    ensures Scanned(was, ts[idx := AfterScan(was[idx], now)], idx + 1, now)
  {
  }

  /** What the pass has started so far, one timer further. */
  lemma StartedStep(was: seq<Timer>, done: nat, idx: nat, now: Clock)
    requires done <= idx < |was| && forall i | done <= i < idx :: !was[i].enabled
    ensures DueAmong(was, idx + 1, now) == DueAmong(was, done, now) + if Due(was[idx], now) then [idx] else []
  {
    DisabledAddNothing(was, done, idx, now);
  }

  /** Entries k and on of the snapshot list every enabled timer from `done` on. */
  ghost predicate Lists(snapshot: seq<(nat, Schedule, U64)>, k: nat, was: seq<Timer>, done: nat)
  {
    forall i: nat | done <= i < |was| && was[i].enabled :: exists l :: k <= l < |snapshot| && snapshot[l].0 == i
  }

  lemma ListsStep(snapshot: seq<(nat, Schedule, U64)>, k: nat, was: seq<Timer>, done: nat)
    requires k < |snapshot| && Lists(snapshot, k, was, done) && done <= snapshot[k].0 < |was|
    requires forall i, j | 0 <= i < j < |snapshot| :: snapshot[i].0 < snapshot[j].0
    ensures Lists(snapshot, k + 1, was, snapshot[k].0 + 1)
    ensures forall i | done <= i < snapshot[k].0 :: !was[i].enabled
  {
    var next := k + 1;
    forall i: nat | snapshot[k].0 + 1 <= i < |was| && was[i].enabled
      ensures exists l :: next <= l < |snapshot| && snapshot[l].0 == i
    {
      var l :| k <= l < |snapshot| && snapshot[l].0 == i;
    }
  }

  class TimerTable {
    var timers: seq<Timer>

    constructor ()
      ensures timers == []
    {
      timers := [];
    }

    /** Loading arms the timer for its first firing; a second timer of the same name is skipped. */
    method Load(t: Timer, now: Clock) returns (loaded: bool)
      requires InRange(t.schedule) && AllInRange(timers)
      modifies this
      ensures AllInRange(timers)
      ensures loaded <==> forall i | 0 <= i < |old(timers)| :: old(timers)[i].name != t.name
      ensures timers == if loaded then old(timers) + [t.(nextFire := Next(t.schedule, now))] else old(timers)
    {
      var next := ComputeNext(t.schedule, now.epoch, now.ticks);
      var i := 0;
      while i < |timers|
        invariant i <= |timers|
        invariant timers == old(timers)
        invariant forall j | 0 <= j < i :: timers[j].name != t.name
      {
        if timers[i].name == t.name { return false; }
        i := i + 1;
      }
      timers := timers + [t.(nextFire := next)];
      return true;
    }

    /** The enabled timers, with their index, schedule and armed instant. */
    method DueSnapshot() returns (r: seq<(nat, Schedule, U64)>)
      ensures forall k | 0 <= k < |r| ::
                r[k].0 < |timers| && timers[r[k].0].enabled
                && r[k].1 == timers[r[k].0].schedule && r[k].2 == timers[r[k].0].nextFire
      ensures forall i: nat | i < |timers| && timers[i].enabled :: exists k :: 0 <= k < |r| && r[k].0 == i
      ensures forall j, k | 0 <= j < k < |r| :: r[j].0 < r[k].0
    {
      r := [];
      var i := 0;
      while i < |timers|
        invariant i <= |timers|
        invariant forall k | 0 <= k < |r| ::
                    r[k].0 < i && timers[r[k].0].enabled
                    && r[k].1 == timers[r[k].0].schedule && r[k].2 == timers[r[k].0].nextFire
        invariant forall j: nat | j < i && timers[j].enabled :: exists k :: 0 <= k < |r| && r[k].0 == j
        invariant forall j, k | 0 <= j < k < |r| :: r[j].0 < r[k].0
      {
        if timers[i].enabled {
          ghost var was := r;
          r := r + [(i, timers[i].schedule, timers[i].nextFire)];
          assert r[|was|].0 == i;
          assert forall k | 0 <= k < |was| :: r[k] == was[k];
        }
        i := i + 1;
      }
    }

    /** Records a firing; None for an index out of range. */
    method TimerFired(idx: nat, now: Clock) returns (unit: Option<string>)
      requires AllInRange(timers)
      modifies this
      ensures AllInRange(timers)
      ensures idx >= |old(timers)| ==> unit == None && timers == old(timers)
      ensures idx < |old(timers)| ==>
                unit == Some(old(timers)[idx].unit) && timers == old(timers)[idx := Fired(old(timers)[idx], now)]
    {
      if idx >= |timers| { return None; }
      var t := timers[idx];
      var last := if t.schedule.EveryTicks? || t.schedule.BootPlus? then now.ticks else now.epoch;
      var next := ComputeNext(t.schedule, now.epoch, now.ticks);
      var enabled := if t.schedule.BootPlus? then false else t.enabled;
      timers := timers[idx := t.(lastFire := Some(last), nextFire := next, enabled := enabled)];
      return Some(t.unit);
    }

    /** The scheduler's body for one snapshot entry. */
    method FireIfDue(idx: nat, schedule: Schedule, nextFire: U64, now: Clock) returns (fired: bool)
      requires AllInRange(timers) && idx < |timers|
      requires timers[idx].enabled && timers[idx].schedule == schedule && timers[idx].nextFire == nextFire
      modifies this
      ensures AllInRange(timers)
      ensures timers == old(timers)[idx := AfterScan(old(timers)[idx], now)]
      ensures fired <==> Due(old(timers)[idx], now)
    {
      var due := if schedule.EveryTicks? || schedule.BootPlus? then now.ticks >= nextFire else now.epoch >= nextFire;
      if !due { return false; }
      var unit := TimerFired(idx, now);
      return unit.Some?;
    }

    /** One pass of the scheduler: every due timer fires once and is re-armed; the others stay. */
    method Scan(now: Clock) returns (started: seq<nat>)
      requires AllInRange(timers)
      modifies this
      ensures AllInRange(timers) && |timers| == |old(timers)|
      ensures forall i | 0 <= i < |timers| :: timers[i] == AfterScan(old(timers)[i], now)
      ensures started == DueAmong(old(timers), |old(timers)|, now)
    {
      started := [];
      var snapshot := DueSnapshot();
      ghost var was, done := timers, 0;
      var k := 0;
      while k < |snapshot|
        invariant k <= |snapshot| && AllInRange(timers) && Scanned(was, timers, done, now)
        invariant k < |snapshot| ==> done <= snapshot[k].0
        invariant Lists(snapshot, k, was, done)
        invariant started == DueAmong(was, done, now)
      {
        var (idx, schedule, nextFire) := snapshot[k];
        ListsStep(snapshot, k, was, done);
        ScanStep(was, timers, done, idx, now);
        StartedStep(was, done, idx, now);
        var fired := FireIfDue(idx, schedule, nextFire, now);
        if fired { started := started + [idx]; }
        done := idx + 1;
        k := k + 1;
      }
      DisabledAddNothing(was, done, |was|, now);
    }
  }
}
