/** The language of schedules, as a grammar, and that the parser accepts exactly its sentences. */
module ScheduleGrammar {
  import opened Common
  import opened Schedule

  // ----- white space ------------------------------------------------------------------------------

  predicate Blank(s: string)
  {
    forall i | 0 <= i < |s| :: IsSpace(s[i])
  }

  predicate Tight(s: string)
  {
    s == "" || (!IsSpace(s[0]) && !IsSpace(s[|s| - 1]))
  }

  predicate PaddedBy(x: string, core: string, a: string, b: string)
  {
    x == a + core + b && Blank(a) && Blank(b)
  }

  /** x is `core` with white space before and after, and core has none of its own there. */
  ghost predicate Padded(x: string, core: string)
  {
    Tight(core) && exists a, b :: PaddedBy(x, core, a, b)
  }

  lemma {:induction false} StartTrimmed(x: string) returns (a: string)
    ensures x == a + TrimStart(x) && Blank(a)
    ensures TrimStart(x) == "" || !IsSpace(TrimStart(x)[0])
  {
    a := "";
    if x != "" && IsSpace(x[0]) {
      var r := StartTrimmed(x[1..]);
      a := [x[0]] + r;
      assert x == [x[0]] + x[1..];
    }
  }

  lemma {:induction false} EndTrimmed(x: string) returns (b: string)
    ensures x == TrimEnd(x) + b && Blank(b)
    ensures TrimEnd(x) == "" || !IsSpace(TrimEnd(x)[|TrimEnd(x)| - 1])
  {
    b := "";
    if x != "" && IsSpace(x[|x| - 1]) {
      var n := |x| - 1;
      var r := EndTrimmed(x[..n]);
      b := r + [x[n]];
      assert x == x[..n] + [x[n]];
    }
  }

  lemma {:induction false} SkipStart(a: string, z: string)
    requires Blank(a) && (z == "" || !IsSpace(z[0]))
    ensures TrimStart(a + z) == z
  {
    if a == "" {
      assert a + z == z;
    } else {
      SkipStart(a[1..], z);
      assert (a + z)[1..] == a[1..] + z;
    }
  }

  lemma {:induction false} SkipEnd(z: string, b: string)
    requires Blank(b) && (z == "" || !IsSpace(z[|z| - 1]))
    ensures TrimEnd(z + b) == z
  {
    if b == "" {
      assert z + b == z;
    } else {
      var n := |b| - 1;
      SkipEnd(z, b[..n]);
      assert (z + b)[..|z + b| - 1] == z + b[..n];
    }
  }

  lemma TrimIff(x: string, core: string)
    ensures Trim(x) == core <==> Padded(x, core)
  {
    var a := StartTrimmed(x);
    var y := TrimStart(x);
    var b := EndTrimmed(y);
    if Trim(x) == core {
      assert x == a + core + b;
      if core != "" { assert core[0] == y[0]; }
      assert PaddedBy(x, core, a, b);
    }
    if Padded(x, core) {
      var c, d :| PaddedBy(x, core, c, d);
      UnpadTo(x, core, c, d);
    }
  }

  lemma UnpadTo(x: string, core: string, a: string, b: string)
    requires Tight(core) && PaddedBy(x, core, a, b)
    ensures Trim(x) == core
  {
    if core == "" {
      assert x == (a + b) + "";
      SkipStart(a + b, "");
    } else {
      assert x == a + (core + b);
      SkipStart(a, core + b);
      SkipEnd(core, b);
    }
  }

  // ----- numbers ----------------------------------------------------------------------------------

  predicate Digits(s: string)
  {
    s != "" && AllDigits(s)
  }

  /** Decimal digits, perhaps after a plus sign. */
  ghost predicate Unsigned(s: string, max: nat, n: nat)
  {
    && n <= max
    && ((Digits(s) && DecimalValue(s) == n) || (s != "" && s[0] == '+' && Digits(s[1..]) && DecimalValue(s[1..]) == n))
  }

  lemma UnsignedIff(s: string, max: nat, n: nat)
    ensures ParseUnsigned(s, max) == Some(n) <==> Unsigned(s, max, n)
  {
    var digits := if s != "" && s[0] == '+' then s[1..] else s;
    if s != "" && s[0] == '+' { assert !IsDigit(s[0]) && !Digits(s); }
    assert ParseUnsigned(s, max) == if Digits(digits) && DecimalValue(digits) <= max then Some(DecimalValue(digits)) else None;
  }

  ghost predicate Number(x: string, max: nat, n: nat)
  {
    n <= max && exists core :: Padded(x, core) && Unsigned(core, U32_MAX, n)
  }

  lemma NumberIff(x: string, max: nat, n: nat)
    ensures Num(x, max) == Some(n) <==> Number(x, max, n)
  {
    var core := Trim(x);
    TrimIff(x, core);
    UnsignedIff(core, U32_MAX, n);
    if Number(x, max, n) {
      var c :| Padded(x, c) && Unsigned(c, U32_MAX, n);
      TrimIff(x, c);
    }
  }

  /** A number of seconds: digits and an s. */
  ghost predicate Seconds(x: string, n: nat)
  {
    exists num :: SecondsBy(x, num, n)
  }

  ghost predicate SecondsBy(x: string, num: string, n: nat)
  {
    Padded(x, num + "s") && Unsigned(num, U64_MAX, n)
  }

  lemma SecondsIff(x: string, n: nat)
    ensures Secs(x) == Some(n) <==> Seconds(x, n)
  {
    var t := Trim(x);
    TrimIff(x, t);
    if Secs(x) == Some(n) {
      var num := t[..|t| - 1];
      assert t == num + "s";
      UnsignedIff(num, U64_MAX, n);
      assert SecondsBy(x, num, n);
    }
    if Seconds(x, n) {
      var num :| SecondsBy(x, num, n);
      TrimIff(x, num + "s");
      assert t[..|t| - 1] == num;
      UnsignedIff(num, U64_MAX, n);
    }
  }

  // ----- times of day and days --------------------------------------------------------------------

  lemma {:induction false} SplitIff(s: string, c: char, a: string, b: string)
    ensures SplitOnce(s, c) == Some((a, b)) <==> s == a + [c] + b && c !in a
  {
    if s != "" {
      if s[0] == c {
        if s == a + [c] + b && c !in a { assert a == ""; assert s[1..] == b; }
        if a == "" && s[1..] == b { assert s == a + [c] + b; }
      } else if a != "" {
        SplitIff(s[1..], c, a[1..], b);
        if s == a + [c] + b { assert s[1..] == a[1..] + [c] + b; }
        assert a == [a[0]] + a[1..];
        if s[0] == a[0] && s[1..] == a[1..] + [c] + b { assert s == [s[0]] + s[1..]; }
      }
    }
  }

  ghost predicate TimeBy(x: string, a: string, b: string, h: nat, m: nat)
  {
    ':' !in a && Padded(x, a + ":" + b) && Number(a, 23, h) && Number(b, 59, m)
  }

  /** HH:MM. */
  ghost predicate TimeOfDay(x: string, h: nat, m: nat)
  {
    exists a, b :: TimeBy(x, a, b, h, m)
  }

  lemma TimeIff(x: string, h: nat, m: nat)
    ensures HourMinute(x) == Some((h, m)) <==> TimeOfDay(x, h, m)
  {
    var t := Trim(x);
    TrimIff(x, t);
    if HourMinute(x) == Some((h, m)) {
      var (a, b) := SplitOnce(t, ':').value;
      SplitIff(t, ':', a, b);
      NumberIff(a, 23, h);
      NumberIff(b, 59, m);
      assert TimeBy(x, a, b, h, m);
    }
    if TimeOfDay(x, h, m) {
      var a, b :| TimeBy(x, a, b, h, m);
      TrimIff(x, a + ":" + b);
      SplitIff(t, ':', a, b);
      NumberIff(a, 23, h);
      NumberIff(b, 59, m);
    }
  }

  const SMALL: seq<string> := ["sun", "mon", "tue", "wed", "thu", "fri", "sat"]
  const LARGE: seq<string> := ["SUN", "MON", "TUE", "WED", "THU", "FRI", "SAT"]

  /** Three letters of a day's name, each small or large. */
  predicate IsDay(s: string, d: nat)
  {
    d < 7 && |s| == 3 && |SMALL[d]| == |LARGE[d]| == 3 && forall i | 0 <= i < 3 :: s[i] == SMALL[d][i] || s[i] == LARGE[d][i]
  }

  lemma LetterIff(c: char, small: char, large: char)
    requires 'a' <= small <= 'z' && large as int == small as int - 32
    ensures Lower(c) == small <==> c == small || c == large
  {
  }

  lemma LettersIff(s: string, small: string, large: string)
    requires |s| == |small| == |large| == 3
    requires forall i | 0 <= i < 3 :: 'a' <= small[i] <= 'z' && large[i] as int == small[i] as int - 32
    ensures [Lower(s[0]), Lower(s[1]), Lower(s[2])] == small <==> forall i | 0 <= i < 3 :: s[i] == small[i] || s[i] == large[i]
  {
    LetterIff(s[0], small[0], large[0]);
    LetterIff(s[1], small[1], large[1]);
    LetterIff(s[2], small[2], large[2]);
    var l := [Lower(s[0]), Lower(s[1]), Lower(s[2])];
    if l == small { assert l[0] == small[0] && l[1] == small[1] && l[2] == small[2]; }
  }

  lemma NamesDiffer(d: nat, e: nat)
    requires d < e < 7
    ensures SMALL[d] != SMALL[e]
  {
    assert "sun"[0] == 's' && "mon"[0] == 'm' && "tue"[0] == 't' && "wed"[0] == 'w' && "thu"[0] == 't' && "fri"[0] == 'f' && "sat"[0] == 's';
    assert "sun"[1] == 'u' && "sat"[1] == 'a' && "tue"[1] == 'u' && "thu"[1] == 'h';
  }

  lemma LookedUp(l: string, d: nat)
    ensures (if l == "sun" then Some(0) else if l == "mon" then Some(1) else if l == "tue" then Some(2)
             else if l == "wed" then Some(3) else if l == "thu" then Some(4) else if l == "fri" then Some(5)
             else if l == "sat" then Some(6) else None) == Some(d)
            <==> d < 7 && l == SMALL[d]
  {
    if d < 7 && l == SMALL[d] {
      forall e | 0 <= e < d
        ensures l != SMALL[e]
      {
        NamesDiffer(e, d);
      }
      assert SMALL[0] == "sun" && SMALL[1] == "mon" && SMALL[2] == "tue" && SMALL[3] == "wed" && SMALL[4] == "thu" && SMALL[5] == "fri";
    }
  }

  lemma DayIff(s: string, d: nat)
    ensures Weekday(s) == Some(d) <==> IsDay(s, d)
  {
    var l := seq(|s|, k requires 0 <= k < |s| => Lower(s[k]));
    LookedUp(l, d);
    if d < 7 && |s| == 3 {
      assert l == [Lower(s[0]), Lower(s[1]), Lower(s[2])];
      CasesPair(d);
      LettersIff(s, SMALL[d], LARGE[d]);
    }
  }

  lemma CasesPair(d: nat)
    requires d < 7
    ensures |SMALL[d]| == |LARGE[d]| == 3
    ensures forall i | 0 <= i < 3 :: 'a' <= SMALL[d][i] <= 'z' && LARGE[d][i] as int == SMALL[d][i] as int - 32
  {
  }

  // ----- schedules --------------------------------------------------------------------------------

  ghost predicate HourlyBy(x: string, num: string, m: nat)
  {
    Padded(x, ":" + num) && Number(num, 59, m)
  }

  ghost predicate WeeklyBy(x: string, day: string, time: string, d: nat, h: nat, m: nat)
  {
    ' ' !in day && Padded(x, day + " " + time) && IsDay(day, d) && TimeOfDay(time, h, m)
  }

  /** What follows the keyword. */
  ghost predicate Argument(x: string, s: Schedule)
  {
    match s
    case EveryTicks(t) => exists n: U64 :: Seconds(x, n) && t == Wrap(n * 100)
    case BootPlus(t) => exists n: U64 :: Seconds(x, n) && t == Wrap(n * 100)
    case Hourly(m) => exists num :: HourlyBy(x, num, m)
    case Daily(h, m) => TimeOfDay(x, h, m)
    case Weekly(d, h, m) => exists day, time :: WeeklyBy(x, day, time, d, h, m)
  }

  /** A sentence: keyword and argument, with white space around. */
  ghost predicate Spells(input: string, s: Schedule)
  {
    exists rest :: Padded(input, Keyword(s) + rest) && Argument(rest, s)
  }

  lemma HourlyIff(x: string, s: Schedule)
    ensures ParseHourly(x) == Some(s) <==> s.Hourly? && Argument(x, s)
  {
    var t := Trim(x);
    TrimIff(x, t);
    if ParseHourly(x) == Some(s) {
      var num := t[1..];
      assert t == ":" + num;
      NumberIff(num, 59, s.minute);
      assert HourlyBy(x, num, s.minute);
    }
    if s.Hourly? && Argument(x, s) {
      var num :| HourlyBy(x, num, s.minute);
      TrimIff(x, ":" + num);
      NumberIff(num, 59, s.minute);
      assert (":" + num)[1..] == num;
    }
  }

  lemma DailyIff(x: string, s: Schedule)
    ensures ParseDaily(x) == Some(s) <==> s.Daily? && Argument(x, s)
  {
    if s.Daily? { TimeIff(x, s.hour, s.minute); }
    if ParseDaily(x) == Some(s) { assert s.Daily?; }
  }

  lemma WeeklyIff(x: string, s: Schedule)
    ensures ParseWeekly(x) == Some(s) <==> s.Weekly? && Argument(x, s)
  {
    var t := Trim(x);
    TrimIff(x, t);
    if ParseWeekly(x) == Some(s) {
      var (day, time) := SplitOnce(t, ' ').value;
      SplitIff(t, ' ', day, time);
      DayIff(day, s.dow);
      TimeIff(time, s.hour, s.minute);
      assert WeeklyBy(x, day, time, s.dow, s.hour, s.minute);
    }
    if s.Weekly? && Argument(x, s) {
      var day, time :| WeeklyBy(x, day, time, s.dow, s.hour, s.minute);
      TrimIff(x, day + " " + time);
      SplitIff(t, ' ', day, time);
      DayIff(day, s.dow);
      TimeIff(time, s.hour, s.minute);
    }
  }

  lemma TicksIff(x: string, s: Schedule, every: bool)
    ensures var n := Secs(x);
            (n.Some? && s == if every then EveryTicks(Wrap(n.value * 100)) else BootPlus(Wrap(n.value * 100)))
            <==> (if every then s.EveryTicks? else s.BootPlus?) && Argument(x, s)
  {
    var v := Secs(x);
    if v.Some? { SecondsIff(x, v.value); }
    if (if every then s.EveryTicks? else s.BootPlus?) && Argument(x, s) {
      var n: U64 :| Seconds(x, n) && s.ticks == Wrap(n * 100);
      SecondsIff(x, n);
    }
  }

  // ----- keywords ---------------------------------------------------------------------------------

  function KindOf(s: Schedule): nat
  {
    match s
    case EveryTicks(_) => 0
    case BootPlus(_) => 1
    case Hourly(_) => 2
    case Daily(_, _) => 3
    case Weekly(_, _, _) => 4
  }

  lemma FirstLetters()
    ensures "every "[0] == 'e' && "boot+"[0] == 'b' && "hourly "[0] == 'h' && "daily "[0] == 'd' && "weekly "[0] == 'w'
  {
  }

  /** What the parser does with what follows the keyword of a schedule of this kind. */
  function ParseArgument(k: Schedule, rest: string): Option<Schedule>
  {
    match k
    case EveryTicks(_) => (var n := Secs(rest); if n.None? then None else Some(EveryTicks(Wrap(n.value * 100))))
    case BootPlus(_) => (var n := Secs(rest); if n.None? then None else Some(BootPlus(Wrap(n.value * 100))))
    case Hourly(_) => ParseHourly(rest)
    case Daily(_, _) => ParseDaily(rest)
    case Weekly(_, _, _) => ParseWeekly(rest)
  }

  lemma ByKeyword(input: string, k: Schedule, rest: string)
    requires Trim(input) == Keyword(k) + rest
    ensures Parse(input) == ParseArgument(k, rest)
  {
    var s := Trim(input);
    assert Keyword(k) <= s && s[|Keyword(k)|..] == rest;
    FirstLetters();
    assert s[0] == Keyword(k)[0];
  }

  lemma ArgumentIff(k: Schedule, rest: string, s: Schedule)
    requires Keyword(k) == Keyword(s)
    ensures ParseArgument(k, rest) == Some(s) <==> Argument(rest, s)
  {
    SameKind(k, s);
    match k
    case EveryTicks(_) => TicksIff(rest, s, true);
    case BootPlus(_) => TicksIff(rest, s, false);
    case Hourly(_) => HourlyIff(rest, s);
    case Daily(_, _) => DailyIff(rest, s);
    case Weekly(_, _, _) => WeeklyIff(rest, s);
  }

  lemma SameKind(k: Schedule, s: Schedule)
    requires Keyword(k) == Keyword(s)
    ensures KindOf(k) == KindOf(s)
  {
    FirstLetters();
    assert Keyword(k)[0] == Keyword(s)[0];
  }

  lemma Decided(input: string, s: Schedule, rest: string)
    requires Trim(input) == Keyword(s) + rest
    ensures Parse(input) == Some(s) <==> Argument(rest, s)
  {
    ByKeyword(input, s, rest);
    ArgumentIff(s, rest, s);
  }

  lemma KeywordThenRest(t: string, s: Schedule) returns (rest: string)
    requires Keyword(s) <= t
    ensures t == Keyword(s) + rest
  {
    rest := t[|Keyword(s)|..];
  }

  lemma Accepted(input: string, s: Schedule) returns (rest: string)
    requires Parse(input) == Some(s)
    ensures Trim(input) == Keyword(s) + rest && Argument(rest, s)
  {
    rest := KeywordThenRest(Trim(input), s);
    Decided(input, s, rest);
  }

  /** The parser accepts exactly the sentences of the grammar, and reads each as what it spells. */
  lemma ParseIff(input: string, s: Schedule)
    ensures Parse(input) == Some(s) <==> Spells(input, s)
  {
    if Parse(input) == Some(s) {
      var rest := Accepted(input, s);
      TrimIff(input, Keyword(s) + rest);
    }
    if Spells(input, s) {
      var rest :| Padded(input, Keyword(s) + rest) && Argument(rest, s);
      TrimIff(input, Keyword(s) + rest);
      Decided(input, s, rest);
    }
  }
}
