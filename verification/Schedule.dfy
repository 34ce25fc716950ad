/** Timer schedules: parsing, and the next instant at which a schedule fires. */
module Schedule {
  import opened Common

  datatype Schedule =
    | EveryTicks(ticks: U64)
    | BootPlus(ticks: U64)
    | Hourly(minute: nat)
    | Daily(hour: nat, minute: nat)
    | Weekly(dow: nat, hour: nat, minute: nat)  // 0 = Sunday .. 6 = Saturday

  const HOUR: nat := 3_600
  const DAY: nat := 86_400

  /** What the parser guarantees of a calendar schedule. */
  predicate InRange(s: Schedule)
  {
    match s
    case Hourly(m) => m < 60
    case Daily(h, m) => h < 24 && m < 60
    case Weekly(d, h, m) => d < 7 && h < 24 && m < 60
    case _ => true
  }

  predicate Calendar(s: Schedule)
  {
    s.Hourly? || s.Daily? || s.Weekly?
  }

  // ----- calendar arithmetic ------------------------------------------------------------------

  // Fields of a Unix time.  1970-01-01 was a Thursday.
  function SecondOf(t: nat): nat { t % 60 }
  function MinuteOf(t: nat): nat { t / 60 % 60 }
  function HourOf(t: nat): nat { t / 3_600 % 24 }
  function WeekdayOf(t: nat): nat { (t / 86_400 + 4) % 7 }

  /** The fields are those of the calendar: they make up the instant, each stays in its range, 1970-01-01
      was a Thursday, and the weekday goes on by one with every day. */
  lemma FieldsDetermined(t: nat)
    ensures t == t / 86_400 * 86_400 + HourOf(t) * 3_600 + MinuteOf(t) * 60 + SecondOf(t)
    ensures HourOf(t) < 24 && MinuteOf(t) < 60 && SecondOf(t) < 60
    ensures t < 86_400 ==> WeekdayOf(t) == 4
    ensures WeekdayOf(t + 86_400) == (WeekdayOf(t) + 1) % 7
  {
    var minutes := t / 60;
    assert t == minutes * 60 + SecondOf(t);
    assert minutes == minutes / 60 * 60 + MinuteOf(t);
    assert minutes / 60 == t / 3_600;
    assert t / 3_600 == t / 3_600 / 24 * 24 + HourOf(t);
    assert t / 3_600 / 24 == t / 86_400;
    assert (t + 86_400) / 86_400 == t / 86_400 + 1;
    NextWeekday(t / 86_400);
  }

  lemma NextWeekday(days: nat)
    ensures (days + 1 + 4) % 7 == ((days + 4) % 7 + 1) % 7
  {
  }

  /** Instant t matches the schedule: full minute, right minute, hour and weekday. */
  predicate Matches(s: Schedule, t: nat)
  {
    && SecondOf(t) == 0
    && match s
       case Hourly(m) => MinuteOf(t) == m
       case Daily(h, m) => MinuteOf(t) == m && HourOf(t) == h
       case Weekly(d, h, m) => MinuteOf(t) == m && HourOf(t) == h && WeekdayOf(t) == d
       case _ => false
  }

  /** compute_next, in wrapping arithmetic. */
  function ComputeNext(s: Schedule, epochNow: U64, nowTicks: U64): U64
    requires s.Weekly? ==> s.dow < 7
  {
    match s
    case EveryTicks(n) => Wrap(nowTicks + n)
    case BootPlus(n) => n
    case Hourly(minute) =>
      var cand := Wrap(epochNow - epochNow % HOUR + minute * 60);
      if cand > epochNow then cand else Wrap(cand + HOUR)
    case Daily(hour, minute) =>
      var cand := Wrap(epochNow - epochNow % DAY + hour * HOUR + minute * 60);
      if cand > epochNow then cand else Wrap(cand + DAY)
    case Weekly(dow, hour, minute) =>
      var days := epochNow / DAY;
      var dowNow := (days + 4) % 7;
      var delta := (dow + 7 - dowNow) % 7;
      var cand := Wrap((days + delta) * DAY + hour * HOUR + minute * 60);
      if cand > epochNow then cand else Wrap(cand + 7 * DAY)
  }

  /** Where a calendar schedule's search starts, and how far it is from one match to the next. */
  function Candidate(s: Schedule, now: nat): nat
    requires Calendar(s) && InRange(s)
  {
    match s
    case Hourly(minute) => now - now % HOUR + minute * 60
    case Daily(hour, minute) => now - now % DAY + hour * HOUR + minute * 60
    case Weekly(dow, hour, minute) =>
      var days := now / DAY;
      (days + (dow + 7 - (days + 4) % 7) % 7) * DAY + hour * HOUR + minute * 60
  }

  function Period(s: Schedule): nat
  {
    match s
    case Hourly(_) => HOUR
    case Daily(_, _) => DAY
    case _ => 7 * DAY
  }

  /** The next firing in unbounded arithmetic. */
  function FirstAfter(s: Schedule, now: nat): nat
    requires Calendar(s) && InRange(s)
  {
    var cand := Candidate(s, now);
    if cand > now then cand else cand + Period(s)
  }

  lemma CandidateNear(s: Schedule, now: nat)
    requires Calendar(s) && InRange(s)
    ensures Candidate(s, now) <= now + 8 * DAY
  {
    if s.Weekly? {
      var days := now / DAY;
      assert days * DAY <= now;
      assert (days + 6) * DAY == days * DAY + 6 * DAY;
    }
  }

  /** Wrapping either makes no difference or leads back behind the clock. */
  lemma WrapNext(cand: nat, period: nat, now: U64)
    requires cand <= now + 8 * DAY && period <= 7 * DAY
    ensures var next := if cand > now then cand else cand + period;
            var c := Wrap(cand);
            var r := if c > now then c else Wrap(c + period);
            if next <= U64_MAX then r == next else r <= now
  {
  }

  lemma NextWraps(s: Schedule, now: U64, ticks: U64)
    requires Calendar(s) && InRange(s)
    ensures if FirstAfter(s, now) <= U64_MAX then ComputeNext(s, now, ticks) == FirstAfter(s, now) else ComputeNext(s, now, ticks) <= now
  {
    CandidateNear(s, now);
    WrapNext(Candidate(s, now), Period(s), now);
  }

  /** Positions within the hour, the day and the week. */
  lemma HourlyMatch(m: nat, t: nat)
    requires m < 60
    ensures Matches(Hourly(m), t) <==> t % HOUR == m * 60
  {
    var q, r := t / HOUR, t % HOUR;
    assert t == q * 3_600 + r;
    assert t / 60 == q * 60 + r / 60;
    assert t % 60 == r % 60;
  }

  lemma DailyMatch(h: nat, m: nat, t: nat)
    requires h < 24 && m < 60
    ensures Matches(Daily(h, m), t) <==> t % DAY == h * HOUR + m * 60
  {
    HourlyMatch(m, t);
    var q, r := t / DAY, t % DAY;
    assert t == q * 86_400 + r;
    assert t / 3_600 == q * 24 + r / 3_600;
    assert t % 3_600 == r % 3_600;
    assert r == r / 3_600 * 3_600 + r % 3_600;
  }

  lemma WeeklyMatch(d: nat, h: nat, m: nat, t: nat)
    requires d < 7 && h < 24 && m < 60
    ensures Matches(Weekly(d, h, m), t) <==> t % DAY == h * HOUR + m * 60 && (t / DAY + 4) % 7 == d
  {
    DailyMatch(h, m, t);
  }

  /** The weekday and the time of day together are a position within the week that begins Thursday
      1970-01-01 less four days. */
  lemma WeekPosition(d: nat, o: nat, t: nat)
    requires d < 7 && o < DAY
    ensures t % DAY == o && (t / DAY + 4) % 7 == d <==> (t + 4 * DAY) % (7 * DAY) == d * DAY + o
  {
    var u := t + 4 * DAY;
    assert u / DAY == t / DAY + 4 && u % DAY == t % DAY;
    WeekSplit(u);
  }

  lemma WeekSplit(u: nat)
    ensures u % (7 * DAY) == (u / DAY % 7) * DAY + u % DAY
  {
    var days, r := u / DAY, u % DAY;
    var q, k := days / 7, days % 7;
    assert u == 86_400 * days + r && days == 7 * q + k;
    RemainderOfWeek(u, q, 86_400 * k + r);
  }

  lemma RemainderOfWeek(u: nat, q: nat, r: nat)
    requires u == 604_800 * q + r && r < 604_800
    ensures u % (7 * DAY) == r
  {
  }

  lemma NextHourly(m: nat, now: nat, t: nat)
    requires m < 60
    ensures var next := FirstAfter(Hourly(m), now);
            now < next && next % HOUR == m * 60 && (now < t < next ==> t % HOUR != m * 60)
  {
  }

  lemma NextDaily(h: nat, m: nat, now: nat, t: nat)
    requires h < 24 && m < 60
    ensures var next := FirstAfter(Daily(h, m), now);
            now < next && next % DAY == h * HOUR + m * 60 && (now < t < next ==> t % DAY != h * HOUR + m * 60)
  {
    var o := h * HOUR + m * 60;
    assert o < DAY;
  }

  lemma DaysAhead(d: nat, days: nat)
    requires d < 7
    ensures (days + (d + 7 - (days + 4) % 7) % 7 + 4) % 7 == d
  {
  }

  lemma AtDay(k: nat, o: nat)
    requires o < DAY
    ensures (k * DAY + o) / DAY == k && (k * DAY + o) % DAY == o
  {
  }

  /** Least instant after `now` at a given position of the week. */
  lemma NextInWeek(d: nat, o: nat, now: nat, t: nat)
    requires d < 7 && o < DAY
    ensures var days := now / DAY;
            var cand := (days + (d + 7 - (days + 4) % 7) % 7) * DAY + o;
            var next := if cand > now then cand else cand + 7 * DAY;
            && now < next && (next + 4 * DAY) % (7 * DAY) == d * DAY + o
            && (now < t < next ==> (t + 4 * DAY) % (7 * DAY) != d * DAY + o)
  {
    var days := now / DAY;
    var delta := (d + 7 - (days + 4) % 7) % 7;
    var cand := (days + delta) * DAY + o;
    DaysAhead(d, days);
    AtDay(days + delta, o);
    WeekPosition(d, o, cand);
    WeekShift(cand, d * DAY + o);
    var next := if cand > now then cand else cand + 7 * DAY;
    assert now < next <= now + 7 * DAY;
    assert (next + 4 * DAY) % (7 * DAY) == d * DAY + o;
    if now < t < next {
      CloseInstants(t, next);
    }
  }

  lemma WeekShift(c: nat, r: nat)
    requires (c + 4 * DAY) % (7 * DAY) == r
    ensures (c + 7 * DAY + 4 * DAY) % (7 * DAY) == r
  {
  }

  /** Two instants less than a week apart have different positions within the week. */
  lemma CloseInstants(t: nat, next: nat)
    requires t < next < t + 7 * DAY
    ensures (t + 4 * DAY) % (7 * DAY) != (next + 4 * DAY) % (7 * DAY)
  {
  }

  lemma FirstIsLeast(s: Schedule, now: nat)
    requires Calendar(s) && InRange(s)
    ensures now < FirstAfter(s, now) && Matches(s, FirstAfter(s, now))
    ensures forall t: nat | now < t < FirstAfter(s, now) :: !Matches(s, t)
  {
    var next := FirstAfter(s, now);
    forall t: nat
      ensures now < next && Matches(s, next) && (now < t < next ==> !Matches(s, t))
    {
      match s
      case Hourly(m) =>
        HourlyMatch(m, next);
        HourlyMatch(m, t);
        NextHourly(m, now, t);
      case Daily(h, m) =>
        DailyMatch(h, m, next);
        DailyMatch(h, m, t);
        NextDaily(h, m, now, t);
      case Weekly(d, h, m) =>
        var o := h * HOUR + m * 60;
        WeeklyMatch(d, h, m, next);
        WeeklyMatch(d, h, m, t);
        WeekPosition(d, o, next);
        WeekPosition(d, o, t);
        NextInWeek(d, o, now, t);
    }
  }

  /** A matching instant is left before the 64-bit clock ends. */
  ghost predicate MatchLeft(s: Schedule, now: U64)
  {
    exists t: nat :: now < t <= U64_MAX && Matches(s, t)
  }

  /** For a calendar schedule the next firing is the least instant strictly after now that matches
      the minute, hour and weekday asked for, as long as there is one; otherwise it is not ahead. */
  lemma NextIsLeast(s: Schedule, now: U64, ticks: U64)
    requires Calendar(s) && InRange(s)
    ensures MatchLeft(s, now) ==>
              && now < ComputeNext(s, now, ticks) && Matches(s, ComputeNext(s, now, ticks))
              && forall t: nat | now < t < ComputeNext(s, now, ticks) :: !Matches(s, t)
    ensures !MatchLeft(s, now) ==> ComputeNext(s, now, ticks) <= now
  {
    FirstIsLeast(s, now);
    NextWraps(s, now, ticks);
  }

  /** There is always one but in the clock's last week. */
  lemma MatchWithinWeek(s: Schedule, now: U64)
    requires Calendar(s) && InRange(s) && now + 8 * DAY <= U64_MAX
    ensures MatchLeft(s, now)
  {
    FirstIsLeast(s, now);
    CandidateNear(s, now);
  }

  // ----- parsing ------------------------------------------------------------------------------

  predicate IsSpace(c: char) { c == ' ' || '\t' <= c <= '\r' }

  function TrimStart(s: string): string
  {
    if s != "" && IsSpace(s[0]) then TrimStart(s[1..]) else s
  }

  function TrimEnd(s: string): string
  {
    if s != "" && IsSpace(s[|s| - 1]) then TrimEnd(s[..|s| - 1]) else s
  }

  function Trim(s: string): string
  {
    TrimEnd(TrimStart(s))
  }

  function StripPrefix(s: string, p: string): Option<string>
  {
    if p <= s then Some(s[|p|..]) else None
  }

  /** Splits at the first occurrence of c. */
  function SplitOnce(s: string, c: char): Option<(string, string)>
  {
    if s == "" then None
    else if s[0] == c then Some(("", s[1..]))
    else
      var rest := SplitOnce(s[1..], c);
      if rest.None? then None else Some(([s[0]] + rest.value.0, rest.value.1))
  }

  predicate IsDigit(c: char) { '0' <= c <= '9' }

  function DigitValue(c: char): nat
    requires IsDigit(c)
  {
    c as int - '0' as int
  }

  predicate AllDigits(s: string)
  {
    forall k | 0 <= k < |s| :: IsDigit(s[k])
  }

  function DecimalValue(s: string): nat
    requires AllDigits(s)
  {
    if s == "" then 0 else DecimalValue(s[..|s| - 1]) * 10 + DigitValue(s[|s| - 1])
  }

  /** str::parse of an unsigned integer: an optional '+', then digits; overflow is an error. */
  function ParseUnsigned(s: string, max: nat): Option<nat>
  {
    var digits := if s != "" && s[0] == '+' then s[1..] else s;
    if digits == "" || !AllDigits(digits) then None
    else if DecimalValue(digits) > max then None
    else Some(DecimalValue(digits))
  }

  const U32_MAX: nat := 0xFFFF_FFFF

  function Secs(s: string): Option<nat>
  {
    var t := Trim(s);
    if t == "" || t[|t| - 1] != 's' then None else ParseUnsigned(t[..|t| - 1], U64_MAX)
  }

  function Num(s: string, max: nat): (r: Option<nat>)
    ensures r.Some? ==> r.value <= max
  {
    var v := ParseUnsigned(Trim(s), U32_MAX);
    if v.None? || v.value > max then None else v
  }

  function HourMinute(s: string): (r: Option<(nat, nat)>)
    ensures r.Some? ==> r.value.0 < 24 && r.value.1 < 60
  {
    var hm := SplitOnce(Trim(s), ':');
    if hm.None? then None
    else
      var h, m := Num(hm.value.0, 23), Num(hm.value.1, 59);
      if h.None? || m.None? then None else Some((h.value, m.value))
  }

  function Lower(c: char): char
  {
    if 'A' <= c <= 'Z' then ((c as int) + 32) as char else c
  }

  function Weekday(s: string): (r: Option<nat>)
    ensures r.Some? ==> r.value < 7
  {
    var l := seq(|s|, k requires 0 <= k < |s| => Lower(s[k]));
    if l == "sun" then Some(0) else if l == "mon" then Some(1) else if l == "tue" then Some(2)
    else if l == "wed" then Some(3) else if l == "thu" then Some(4) else if l == "fri" then Some(5)
    else if l == "sat" then Some(6) else None
  }

  function ParseHourly(rest: string): Option<Schedule>
  {
    var m := StripPrefix(Trim(rest), ":");
    if m.None? then None
    else
      var minute := Num(m.value, 59);
      if minute.None? then None else Some(Hourly(minute.value))
  }

  function ParseDaily(rest: string): Option<Schedule>
  {
    var hm := HourMinute(rest);
    if hm.None? then None else Some(Daily(hm.value.0, hm.value.1))
  }

  function ParseWeekly(rest: string): Option<Schedule>
  {
    var parts := SplitOnce(Trim(rest), ' ');
    if parts.None? then None
    else
      var d, hm := Weekday(parts.value.0), HourMinute(parts.value.1);
      if d.None? || hm.None? then None else Some(Weekly(d.value, hm.value.0, hm.value.1))
  }

  function Keyword(s: Schedule): string
  {
    match s
    case EveryTicks(_) => "every "
    case BootPlus(_) => "boot+"
    case Hourly(_) => "hourly "
    case Daily(_, _) => "daily "
    case Weekly(_, _, _) => "weekly "
  }

  /** schedule_parse.  Whatever it accepts is in range and of the kind its keyword says; seconds become
      ticks in wrapping arithmetic. */
  function Parse(input: string): (r: Option<Schedule>)
    ensures r.Some? ==> InRange(r.value) && Keyword(r.value) <= Trim(input)
  {
    var s := Trim(input);
    var every, boot := StripPrefix(s, "every "), StripPrefix(s, "boot+");
    var hourly, daily, weekly := StripPrefix(s, "hourly "), StripPrefix(s, "daily "), StripPrefix(s, "weekly ");
    if every.Some? then (var n := Secs(every.value); if n.None? then None else Some(EveryTicks(Wrap(n.value * 100))))
    else if boot.Some? then (var n := Secs(boot.value); if n.None? then None else Some(BootPlus(Wrap(n.value * 100))))
    else if hourly.Some? then ParseHourly(hourly.value)
    else if daily.Some? then ParseDaily(daily.value)
    else if weekly.Some? then ParseWeekly(weekly.value)
    else None
  }
}
