/** Every schedule the code can represent has a spelling the parser accepts, and reads back as itself. */
module ScheduleRoundTrip {
  import opened Common
  import opened Schedule

  function Digit(d: nat): (c: char)
    requires d < 10
    ensures IsDigit(c) && DigitValue(c) == d
  {
    (d + '0' as int) as char
  }

  function Two(n: nat): string
    requires n < 100
  {
    [Digit(n / 10), Digit(n % 10)]
  }

  function Decimal(n: nat): (s: string)
    ensures s != "" && forall k | 0 <= k < |s| :: IsDigit(s[k])
    ensures DecimalValue(s) == n
  {
    if n < 10 then
      assert DecimalValue([Digit(n)]) == DecimalValue("") * 10 + n;
      [Digit(n)]
    else
      var s := Decimal(n / 10) + [Digit(n % 10)];
      assert s[..|s| - 1] == Decimal(n / 10);
      s
  }

  function DayName(d: nat): string
    requires d < 7
  {
    ["Sun", "Mon", "Tue", "Wed", "Thu", "Fri", "Sat"][d]
  }

  function HhMm(h: nat, m: nat): string
    requires h < 24 && m < 60
  {
    Two(h) + ":" + Two(m)
  }

  /** Tick counts come from whole seconds. */
  predicate Spellable(s: Schedule)
  {
    && InRange(s)
    && (s.EveryTicks? || s.BootPlus? ==> s.ticks % 100 == 0)
  }

  function Show(s: Schedule): string
    requires Spellable(s)
  {
    match s
    case EveryTicks(n) => "every " + (Decimal(n / 100) + "s")
    case BootPlus(n) => "boot+" + (Decimal(n / 100) + "s")
    case Hourly(m) => "hourly " + (":" + Two(m))
    case Daily(h, m) => "daily " + HhMm(h, m)
    case Weekly(d, h, m) => "weekly " + (DayName(d) + " " + HhMm(h, m))
  }

  lemma NothingToTrim(s: string)
    requires s != "" && !IsSpace(s[0]) && !IsSpace(s[|s| - 1])
    ensures Trim(s) == s
  {
  }

  lemma TwoDigits(n: nat, max: nat)
    requires n <= max < 100
    ensures Num(Two(n), max) == Some(n)
  {
    var s := Two(n);
    NothingToTrim(s);
    assert s[..1] == [Digit(n / 10)];
    assert DecimalValue(s[..1]) == DecimalValue("") * 10 + n / 10;
    assert DecimalValue(s) == n;
  }

  lemma {:induction false} SplitAt(a: string, c: char, b: string)
    requires c !in a
    ensures SplitOnce(a + [c] + b, c) == Some((a, b))
  {
    var s := a + [c] + b;
    if a == "" {
      assert s[1..] == b;
    } else {
      SplitAt(a[1..], c, b);
      assert s[1..] == a[1..] + [c] + b;
      assert [a[0]] + a[1..] == a;
    }
  }

  lemma HourMinuteReads(h: nat, m: nat)
    requires h < 24 && m < 60
    ensures HourMinute(HhMm(h, m)) == Some((h, m))
  {
    var s := HhMm(h, m);
    NothingToTrim(s);
    SplitAt(Two(h), ':', Two(m));
    assert s == Two(h) + [':'] + Two(m);
    TwoDigits(h, 23);
    TwoDigits(m, 59);
  }

  lemma SecsReads(n: nat)
    requires n <= U64_MAX
    ensures Secs(Decimal(n) + "s") == Some(n)
  {
    var s := Decimal(n) + "s";
    NothingToTrim(s);
    assert s[..|s| - 1] == Decimal(n);
    assert Decimal(n)[0] != '+';
  }

  lemma WeekdayReads(d: nat)
    requires d < 7
    ensures Weekday(DayName(d)) == Some(d)
    ensures |DayName(d)| == 3 && ' ' !in DayName(d) && !IsSpace(DayName(d)[0])
  {
    var n := DayName(d);
    var l := seq(|n|, k requires 0 <= k < |n| => Lower(n[k]));
    assert l == [Lower(n[0]), Lower(n[1]), Lower(n[2])];
    assert "sun"[0] == 's' && "mon"[0] == 'm' && "tue"[0] == 't' && "wed"[0] == 'w' && "thu"[0] == 't' && "fri"[0] == 'f' && "sat"[0] == 's';
    assert "sun"[1] == 'u' && "sat"[1] == 'a' && "tue"[1] == 'u' && "thu"[1] == 'h';
  }

  /** Stripping the keyword leaves the rest; a different first letter rules the other keywords out. */
  lemma StripOwn(p: string, rest: string)
    ensures StripPrefix(p + rest, p) == Some(rest)
  {
    assert (p + rest)[|p|..] == rest;
  }

  lemma StripOther(s: string, p: string)
    requires s != "" && p != "" && s[0] != p[0]
    ensures StripPrefix(s, p) == None
  {
  }

  lemma KeywordsDiffer(s: string, c: char)
    requires s != "" && s[0] == c
    ensures c != 'e' ==> StripPrefix(s, "every ") == None
    ensures c != 'b' ==> StripPrefix(s, "boot+") == None
    ensures c != 'h' ==> StripPrefix(s, "hourly ") == None
    ensures c != 'd' ==> StripPrefix(s, "daily ") == None
    ensures c != 'w' ==> StripPrefix(s, "weekly ") == None
  {
    if c != 'e' { StripOther(s, "every "); }
    if c != 'b' { StripOther(s, "boot+"); }
    if c != 'h' { StripOther(s, "hourly "); }
    if c != 'd' { StripOther(s, "daily "); }
    if c != 'w' { StripOther(s, "weekly "); }
  }

  lemma KeywordLine(keyword: string, rest: string)
    requires keyword != "" && !IsSpace(keyword[0]) && rest != "" && !IsSpace(rest[|rest| - 1])
    ensures Trim(keyword + rest) == keyword + rest && (keyword + rest)[0] == keyword[0]
    ensures StripPrefix(keyword + rest, keyword) == Some(rest)
  {
    NothingToTrim(keyword + rest);
    StripOwn(keyword, rest);
  }

  lemma EveryReads(rest: string, n: U64)
    requires Secs(rest) == Some(n) && rest != "" && !IsSpace(rest[|rest| - 1])
    ensures Parse("every " + rest) == Some(EveryTicks(Wrap(n * 100)))
  {
    KeywordLine("every ", rest);
  }

  lemma BootReads(rest: string, n: U64)
    requires Secs(rest) == Some(n) && rest != "" && !IsSpace(rest[|rest| - 1])
    ensures Parse("boot+" + rest) == Some(BootPlus(Wrap(n * 100)))
  {
    KeywordLine("boot+", rest);
    KeywordsDiffer("boot+" + rest, 'b');
  }

  lemma WrapFitsIff(n: nat)
    ensures Wrap(n) == n <==> n <= U64_MAX
  {
  }

  /** What `every Ns` and `boot+Ns` mean: 100 N ticks exactly when that fits into 64 bits. */
  lemma SecondsRead(n: U64)
    ensures Parse("every " + (Decimal(n) + "s")) == Some(EveryTicks(Wrap(n * 100)))
    ensures Parse("boot+" + (Decimal(n) + "s")) == Some(BootPlus(Wrap(n * 100)))
    ensures Wrap(n * 100) == n * 100 <==> n * 100 <= U64_MAX
  {
    var rest := Decimal(n) + "s";
    SecsReads(n);
    EveryReads(rest, n);
    BootReads(rest, n);
    WrapFitsIff(n * 100);
  }

  lemma WholeSeconds(ticks: U64, n: nat)
    requires ticks % 100 == 0 && n == ticks / 100
    ensures n <= U64_MAX && Wrap(n * 100) == ticks
  {
  }

  lemma MonotonicReads(s: Schedule, n: nat)
    requires Spellable(s) && (s.EveryTicks? || s.BootPlus?) && n == s.ticks / 100
    ensures Parse(Show(s)) == Some(s)
  {
    WholeSeconds(s.ticks, n);
    SecsReads(n);
    if s.EveryTicks? { EveryReads(Decimal(n) + "s", n); } else { BootReads(Decimal(n) + "s", n); }
  }

  lemma CalendarReads(s: Schedule)
    requires Spellable(s) && Calendar(s)
    ensures Parse(Show(s)) == Some(s)
  {
    match s
    case Hourly(m) =>
      KeywordLine("hourly ", ":" + Two(m));
      KeywordsDiffer(Show(s), 'h');
      NothingToTrim(":" + Two(m));
      StripOwn(":", Two(m));
      TwoDigits(m, 59);
    case Daily(h, m) =>
      KeywordLine("daily ", HhMm(h, m));
      KeywordsDiffer(Show(s), 'd');
      HourMinuteReads(h, m);
    case Weekly(d, h, m) =>
      WeekdayReads(d);
      var rest := DayName(d) + " " + HhMm(h, m);
      KeywordLine("weekly ", rest);
      KeywordsDiffer(Show(s), 'w');
      NothingToTrim(rest);
      SplitAt(DayName(d), ' ', HhMm(h, m));
      assert rest == DayName(d) + [' '] + HhMm(h, m);
      HourMinuteReads(h, m);
  }

  /** The parser reads back every schedule from its spelling. */
  lemma ParseReadsShow(s: Schedule)
    requires Spellable(s)
    ensures Parse(Show(s)) == Some(s)
  {
    if Calendar(s) { CalendarReads(s); } else { MonotonicReads(s, s.ticks / 100); }
  }
}
