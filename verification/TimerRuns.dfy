/** What a timer does over every sequence of scheduler passes. */
module TimerRuns {
  import opened Common
  import opened Schedule
  import opened Timers
  import ScheduleRoundTrip

  /** One timer from the moment it is loaded: pass k sees clocks[k + 1]; clocks[0] is the clock at
      load.  The clocks are arbitrary unless a theorem says otherwise (the RTC may be set back). */
  ghost predicate IsRun(states: seq<Timer>, clocks: seq<Clock>)
  {
    && |states| == |clocks| >= 1
    && InRange(states[0].schedule)
    && states[0].nextFire == Next(states[0].schedule, clocks[0])
    && (forall k | 0 <= k < |states| :: states[k].schedule == states[0].schedule)
    && (forall k | 0 <= k < |states| - 1 :: states[k + 1] == AfterScan(states[k], clocks[k + 1]))
  }

  /** Pass k fires the timer. */
  predicate FiresAt(states: seq<Timer>, clocks: seq<Clock>, k: nat)
    requires |states| == |clocks| && k + 1 < |states|
  {
    Due(states[k], clocks[k + 1])
  }

  /** The next instant computed at this reading lies ahead of it: a positive period that does not run
      over the end of the clock, or a matching instant left. */
  ghost predicate Advances(s: Schedule, now: Clock)
  {
    match s
    case EveryTicks(n) => 0 < n && now.ticks + n <= U64_MAX
    case BootPlus(_) => true
    case _ => MatchLeft(s, now.epoch)
  }

  ghost predicate AllAdvance(s: Schedule, clocks: seq<Clock>)
  {
    forall i | 0 <= i < |clocks| :: Advances(s, clocks[i])
  }

  lemma NextIsAheadIff(s: Schedule, now: Clock)
    requires InRange(s) && !s.BootPlus?
    ensures Advances(s, now) <==> Reading(s, now) < Next(s, now)
  {
    if Calendar(s) { NextIsLeast(s, now.epoch, now.ticks); }
  }

  /** The armed instant never moves back, and moves ahead of the clock when the timer fires. */
  lemma {:induction false} ArmedGrows(states: seq<Timer>, clocks: seq<Clock>, j: nat, k: nat)
    requires IsRun(states, clocks) && AllAdvance(states[0].schedule, clocks) && !states[0].schedule.BootPlus?
    requires j <= k < |states|
    ensures states[j].nextFire <= states[k].nextFire
    ensures j < k && FiresAt(states, clocks, j) ==>
              Next(states[0].schedule, clocks[j + 1]) <= states[k].nextFire
    decreases k - j
  {
    if j < k {
      NextIsAheadIff(states[0].schedule, clocks[j + 1]);
      assert states[j + 1] == AfterScan(states[j], clocks[j + 1]);
      ArmedGrows(states, clocks, j + 1, k);
    }
  }

  /** boot+ timers: once fired, never enabled again. */
  lemma {:induction false} BootPlusSpent(states: seq<Timer>, clocks: seq<Clock>, j: nat, k: nat)
    requires IsRun(states, clocks) && states[0].schedule.BootPlus?
    requires j < k < |states| && FiresAt(states, clocks, j)
    ensures !states[k].enabled
    decreases k
  {
    if k == j + 1 {
      assert states[k] == AfterScan(states[j], clocks[k]);
    } else {
      BootPlusSpent(states, clocks, j, k - 1);
      assert states[k] == AfterScan(states[k - 1], clocks[k]);
    }
  }

  /** No instant fires twice, however the clocks jump, while the next instant lies ahead: the instants of two firings increase strictly,
      and a later firing happens at a reading past the earlier one. */
  lemma NoInstantFiresTwice(states: seq<Timer>, clocks: seq<Clock>, j: nat, k: nat)
    requires IsRun(states, clocks) && AllAdvance(states[0].schedule, clocks)
    requires j < k < |states| - 1
    requires FiresAt(states, clocks, j) && FiresAt(states, clocks, k)
    ensures states[j].nextFire < states[k].nextFire
    ensures Reading(states[0].schedule, clocks[j + 1]) < Reading(states[0].schedule, clocks[k + 1])
  {
    if states[0].schedule.BootPlus? {
      BootPlusSpent(states, clocks, j, k);
    } else {
      ArmedGrows(states, clocks, j, k);
      NextIsAheadIff(states[0].schedule, clocks[j + 1]);
    }
  }

  ghost predicate TicksForward(clocks: seq<Clock>)
  {
    forall i | 0 <= i < |clocks| - 1 :: clocks[i].ticks <= clocks[i + 1].ticks
  }

  /** Two firings of `every N` are at least N ticks apart. */
  lemma EveryKeepsItsPeriod(states: seq<Timer>, clocks: seq<Clock>, j: nat, k: nat)
    requires IsRun(states, clocks) && states[0].schedule.EveryTicks?
    requires j < k < |states| - 1
    requires FiresAt(states, clocks, j) && FiresAt(states, clocks, k)
    requires TicksForward(clocks)
    requires forall i | 0 <= i < |clocks| :: clocks[i].ticks + states[0].schedule.ticks <= U64_MAX
    ensures clocks[j + 1].ticks + states[0].schedule.ticks <= clocks[k + 1].ticks
  {
    if states[0].schedule.ticks == 0 {
      TicksGrow(clocks, j + 1, k + 1);
    } else {
      ArmedGrows(states, clocks, j, k);
    }
  }

  lemma {:induction false} TicksGrow(clocks: seq<Clock>, i: nat, j: nat)
    requires i <= j < |clocks| && TicksForward(clocks)
    ensures clocks[i].ticks <= clocks[j].ticks
  {
    if i < j {
      TicksGrow(clocks, i, j - 1);
      assert clocks[j - 1].ticks <= clocks[j - 1 + 1].ticks;
    }
  }

  // ----- where the next instant is not ahead --------------------------------------------------

  /** A timer loaded and then looked at twice, all at one reading. */
  function Standstill(t: Timer, now: Clock): (seq<Timer>, seq<Clock>)
    requires InRange(t.schedule)
  {
    ([t, AfterScan(t, now), AfterScan(AfterScan(t, now), now)], [now, now, now])
  }

  function Loaded(s: Schedule, now: Clock): Timer
    requires InRange(s)
  {
    Timer("", "", s, true, Next(s, now), None)
  }

  /** If the next instant is not ahead, it fires again at once. */
  lemma NotAheadRepeats(s: Schedule, now: Clock)
    requires InRange(s) && !Advances(s, now)
    ensures var (states, clocks) := Standstill(Loaded(s, now), now);
            && IsRun(states, clocks) && FiresAt(states, clocks, 0) && FiresAt(states, clocks, 1)
            && states[0].nextFire == states[1].nextFire && TicksForward(clocks) && EpochForward(clocks)
  {
    NextIsAheadIff(s, now);
    var t := Loaded(s, now);
    var (states, clocks) := Standstill(t, now);
    assert states[0] == t && states[1] == AfterScan(t, now) && states[2] == AfterScan(states[1], now);
    assert clocks[0] == now && clocks[1] == now && clocks[2] == now;
  }

  /** `every 0s` parses, and fires one instant at every pass. */
  lemma EveryZeroRepeats(now: Clock)
    ensures Parse("every 0s") == Some(EveryTicks(0)) && !Advances(EveryTicks(0), now)
  {
    ScheduleRoundTrip.ParseReadsShow(EveryTicks(0));
    assert ScheduleRoundTrip.Show(EveryTicks(0)) == "every 0s";
  }

  lemma WrapsToZero(n: U64)
    requires n == 0x4000_0000_0000_0000
    ensures Wrap(n * 100) == 0
  {
  }

  /** So does 2^62 s, whose ticks wrap around to none. */
  lemma EveryWrapsToZero(n: U64, now: Clock)
    requires n == 0x4000_0000_0000_0000
    ensures Parse("every " + (ScheduleRoundTrip.Decimal(n) + "s")) == Some(EveryTicks(0)) && !Advances(EveryTicks(0), now)
  {
    ScheduleRoundTrip.SecondsRead(n);
    WrapsToZero(n);
  }

  /** The pass after which the armed instant was computed (0: at load); it has not fired since, and what
      it remembers as its last firing is the reading of that pass. */
  lemma {:induction false} LastArmed(states: seq<Timer>, clocks: seq<Clock>, k: nat) returns (a: nat)
    requires IsRun(states, clocks) && k < |states|
    ensures a <= k && states[k].nextFire == Next(states[0].schedule, clocks[a]) && (a > 0 ==> FiresAt(states, clocks, a - 1))
    ensures forall i | a <= i < k :: !FiresAt(states, clocks, i)
    ensures states[k].lastFire == if a == 0 then states[0].lastFire
                                  else Some(if Calendar(states[0].schedule) then clocks[a].epoch else clocks[a].ticks)
  {
    a := k;
    if k > 0 {
      assert states[k - 1 + 1] == AfterScan(states[k - 1], clocks[k - 1 + 1]);
      if !FiresAt(states, clocks, k - 1) { a := LastArmed(states, clocks, k - 1); }
    }
  }

  lemma {:induction false} EveryStaysEnabled(states: seq<Timer>, clocks: seq<Clock>, k: nat)
    requires IsRun(states, clocks) && states[0].schedule.EveryTicks? && states[0].enabled && k < |states|
    ensures states[k].enabled
  {
    if k > 0 {
      EveryStaysEnabled(states, clocks, k - 1);
      assert states[k - 1 + 1] == AfterScan(states[k - 1], clocks[k - 1 + 1]);
    }
  }

  /** `every N` fires exactly on time: at the first pass that reads N ticks or more past the reading of its
      last firing (or of its load), and at no pass before, as long as that instant fits into 64 bits. */
  lemma EveryFiresOnTime(states: seq<Timer>, clocks: seq<Clock>, k: nat) returns (a: nat)
    requires IsRun(states, clocks) && states[0].schedule.EveryTicks? && states[0].enabled && k < |states| - 1
    ensures a <= k && (a > 0 ==> FiresAt(states, clocks, a - 1)) && forall i | a <= i < k :: !FiresAt(states, clocks, i)
    ensures clocks[a].ticks + states[0].schedule.ticks <= U64_MAX ==>
              (FiresAt(states, clocks, k) <==> clocks[a].ticks + states[0].schedule.ticks <= clocks[k + 1].ticks)
  {
    a := LastArmed(states, clocks, k);
    EveryStaysEnabled(states, clocks, k);
  }

  /** An interval timer whose next instant is at no reading ahead fires at every pass. */
  lemma NeverAheadFiresAlways(states: seq<Timer>, clocks: seq<Clock>, k: nat)
    requires IsRun(states, clocks) && states[0].schedule.EveryTicks? && states[0].enabled && TicksForward(clocks)
    requires k < |states| - 1 && forall i | 0 <= i < |clocks| :: !Advances(states[0].schedule, clocks[i])
    ensures FiresAt(states, clocks, k)
  {
    EveryStaysEnabled(states, clocks, k);
    var a := LastArmed(states, clocks, k);
    NextIsAheadIff(states[0].schedule, clocks[a]);
    TicksGrow(clocks, a, k + 1);
  }

  /** And 184467440737095516 s, a period that fits but reaches over the end of the clock from the 16th
      tick on: loaded then, it fires at every pass. */
  lemma EveryRunsOver(n: U64, states: seq<Timer>, clocks: seq<Clock>, k: nat)
    requires n == 184_467_440_737_095_516
    requires IsRun(states, clocks) && states[0].enabled && TicksForward(clocks) && clocks[0].ticks >= 16 && k < |states| - 1
    ensures n * 100 <= U64_MAX && Parse("every " + (ScheduleRoundTrip.Decimal(n) + "s")) == Some(EveryTicks(n * 100))
    ensures states[0].schedule == EveryTicks(n * 100) ==> FiresAt(states, clocks, k)
  {
    ScheduleRoundTrip.SecondsRead(n);
    if states[0].schedule == EveryTicks(n * 100) {
      forall i | 0 <= i < |clocks|
        ensures !Advances(states[0].schedule, clocks[i])
      {
        TicksGrow(clocks, 0, i);
      }
      NeverAheadFiresAlways(states, clocks, k);
    }
  }

  /** Sums that wrap around are still different. */
  lemma WrapInjective(a: U64, b: U64, n: U64)
    requires a < b
    ensures Wrap(a + n) != Wrap(b + n)
  {
  }

  /** While the tick count increases from pass to pass, `every N` repeats no instant, whatever N: what
      goes wrong then is the period, not the instant. */
  lemma StrictTicksRepeatNothing(states: seq<Timer>, clocks: seq<Clock>, j: nat, k: nat)
    requires IsRun(states, clocks) && states[0].schedule.EveryTicks?
    requires forall i, i' | 0 <= i < i' < |clocks| :: clocks[i].ticks < clocks[i'].ticks
    requires j < k < |states| - 1 && FiresAt(states, clocks, j) && FiresAt(states, clocks, k)
    ensures states[j].nextFire != states[k].nextFire
  {
    var a := LastArmed(states, clocks, j);
    var b := LastArmed(states, clocks, k);
    assert a <= j < b;
    WrapInjective(clocks[a].ticks, clocks[b].ticks, states[0].schedule.ticks);
  }

  /** In a run of this schedule an instant fires twice. */
  ghost predicate Repeats(states: seq<Timer>, clocks: seq<Clock>, j: nat, k: nat)
  {
    && IsRun(states, clocks) && j < k < |states| - 1
    && FiresAt(states, clocks, j) && FiresAt(states, clocks, k) && states[j].nextFire == states[k].nextFire
  }

  ghost predicate Within(clocks: seq<Clock>, readings: Clock -> bool)
  {
    forall i | 0 <= i < |clocks| :: readings(clocks[i])
  }

  /** A schedule repeats no instant in any run over the given clock readings exactly when its next
      instant lies ahead at each of them. */
  lemma RepeatsNothingIffAdvances(s: Schedule, readings: Clock -> bool)
    requires InRange(s)
    ensures (forall now | readings(now) :: Advances(s, now)) <==>
            forall states: seq<Timer>, clocks: seq<Clock>, j, k | Repeats(states, clocks, j, k) && Within(clocks, readings) :: states[0].schedule != s
  {
    if forall now | readings(now) :: Advances(s, now) {
      forall states: seq<Timer>, clocks: seq<Clock>, j, k | Repeats(states, clocks, j, k) && Within(clocks, readings)
        ensures states[0].schedule != s
      {
        if states[0].schedule == s { NoInstantFiresTwice(states, clocks, j, k); }
      }
    } else {
      var now :| readings(now) && !Advances(s, now);
      NotAheadRepeats(s, now);
      var (states, clocks) := Standstill(Loaded(s, now), now);
      assert Repeats(states, clocks, 0, 1) && Within(clocks, readings);
    }
  }

  /** Some two firings of `every N` come less than N ticks apart. */
  ghost predicate TooSoon(states: seq<Timer>, clocks: seq<Clock>, j: nat, k: nat)
  {
    && IsRun(states, clocks) && states[0].schedule.EveryTicks? && TicksForward(clocks) && j < k < |states| - 1
    && FiresAt(states, clocks, j) && FiresAt(states, clocks, k)
    && clocks[k + 1].ticks < clocks[j + 1].ticks + states[0].schedule.ticks
  }

  /** `every N` keeps its period over the given readings exactly when none of them is within N ticks of
      the end of the clock, or N is zero. */
  lemma KeepsPeriodIff(n: U64, readings: Clock -> bool)
    ensures n == 0 || (forall now | readings(now) :: now.ticks + n <= U64_MAX) <==>
            forall states: seq<Timer>, clocks: seq<Clock>, j, k | TooSoon(states, clocks, j, k) && Within(clocks, readings) :: states[0].schedule != EveryTicks(n)
  {
    if n == 0 || forall now | readings(now) :: now.ticks + n <= U64_MAX {
      forall states: seq<Timer>, clocks: seq<Clock>, j, k | TooSoon(states, clocks, j, k) && Within(clocks, readings)
        ensures states[0].schedule != EveryTicks(n)
      {
        if states[0].schedule == EveryTicks(n) { EveryKeepsItsPeriod(states, clocks, j, k); }
      }
    } else {
      var now :| readings(now) && now.ticks + n > U64_MAX;
      NotAheadRepeats(EveryTicks(n), now);
      var (states, clocks) := Standstill(Loaded(EveryTicks(n), now), now);
      assert TooSoon(states, clocks, 0, 1) && Within(clocks, readings);
    }
  }

  /** boot+N fires at the first pass that reads N ticks or more, and at no other. */
  lemma {:induction false} BootPlusFiresOnce(states: seq<Timer>, clocks: seq<Clock>, k: nat)
    requires IsRun(states, clocks) && states[0].schedule.BootPlus? && states[0].enabled
    requires k < |states| - 1
    ensures FiresAt(states, clocks, k) <==>
            && states[0].schedule.ticks <= clocks[k + 1].ticks
            && forall i | 1 <= i <= k :: clocks[i].ticks < states[0].schedule.ticks
  {
    BootPlusArmed(states, clocks, k);
  }

  lemma {:induction false} BootPlusArmed(states: seq<Timer>, clocks: seq<Clock>, k: nat)
    requires IsRun(states, clocks) && states[0].schedule.BootPlus? && states[0].enabled
    requires k < |states|
    ensures states[k].nextFire == states[0].schedule.ticks
    ensures states[k].enabled <==> forall i | 1 <= i <= k :: clocks[i].ticks < states[0].schedule.ticks
  {
    if k > 0 {
      BootPlusArmed(states, clocks, k - 1);
      assert states[k - 1 + 1] == AfterScan(states[k - 1], clocks[k - 1 + 1]);
    }
  }

  /** The armed instant is the first match after the last reading of the clock. */
  ghost predicate Armed(t: Timer, epoch: nat)
  {
    && epoch < t.nextFire
    && Matches(t.schedule, t.nextFire)
    && forall i: nat | epoch < i < t.nextFire :: !Matches(t.schedule, i)
  }

  ghost predicate EpochForward(clocks: seq<Clock>)
  {
    forall i | 0 <= i < |clocks| - 1 :: clocks[i].epoch <= clocks[i + 1].epoch
  }

  lemma {:induction false} StaysArmed(states: seq<Timer>, clocks: seq<Clock>, k: nat)
    requires IsRun(states, clocks) && Calendar(states[0].schedule) && states[0].enabled
    requires EpochForward(clocks) && AllAdvance(states[0].schedule, clocks)
    requires k < |states|
    ensures Armed(states[k], clocks[k].epoch) && states[k].enabled
  {
    var s := states[0].schedule;
    assert Advances(s, clocks[k]);
    NextIsLeast(s, clocks[k].epoch, clocks[k].ticks);
    if k > 0 {
      StaysArmed(states, clocks, k - 1);
      assert states[k - 1 + 1] == AfterScan(states[k - 1], clocks[k - 1 + 1]);
      assert clocks[k - 1].epoch <= clocks[k - 1 + 1].epoch;
    }
  }

  /** A matching instant has gone by between two readings. */
  ghost predicate Passed(s: Schedule, from: Clock, to: Clock)
  {
    exists t: nat :: from.epoch < t <= to.epoch && Matches(s, t)
  }

  /** While the clock does not run backwards, a calendar timer fires at a pass exactly when a
      matching instant has gone by since the pass before: none is missed, none is made up. */
  lemma CalendarFiresExactly(states: seq<Timer>, clocks: seq<Clock>, k: nat)
    requires IsRun(states, clocks) && Calendar(states[0].schedule) && states[0].enabled
    requires EpochForward(clocks) && AllAdvance(states[0].schedule, clocks)
    requires k < |states| - 1
    ensures FiresAt(states, clocks, k) <==> Passed(states[0].schedule, clocks[k], clocks[k + 1])
  {
    StaysArmed(states, clocks, k);
  }

  /** At some pass the timer fires without a match, or not although there was one. */
  ghost predicate Inexact(states: seq<Timer>, clocks: seq<Clock>, k: nat)
  {
    && IsRun(states, clocks) && states[0].enabled && EpochForward(clocks) && k < |states| - 1
    && FiresAt(states, clocks, k) != Passed(states[0].schedule, clocks[k], clocks[k + 1])
  }

  /** It is exact over the given readings exactly when each leaves a matching instant ahead. */
  lemma CalendarExactIff(s: Schedule, readings: Clock -> bool)
    requires Calendar(s) && InRange(s)
    ensures (forall now | readings(now) :: MatchLeft(s, now.epoch)) <==>
            forall states: seq<Timer>, clocks: seq<Clock>, k | Inexact(states, clocks, k) && Within(clocks, readings) :: states[0].schedule != s
  {
    if forall now | readings(now) :: MatchLeft(s, now.epoch) {
      forall states: seq<Timer>, clocks: seq<Clock>, k | Inexact(states, clocks, k) && Within(clocks, readings)
        ensures states[0].schedule != s
      {
        if states[0].schedule == s { CalendarFiresExactly(states, clocks, k); }
      }
    } else {
      var now :| readings(now) && !MatchLeft(s, now.epoch);
      NotAheadRepeats(s, now);
      var (states, clocks) := Standstill(Loaded(s, now), now);
      assert Inexact(states, clocks, 0) && Within(clocks, readings);
    }
  }
}
