/** The two renderings of elapsed time: `FormatTime` (with its helper
    `TimeIntToStr`), used for activity totals, and the coarser online-time
    string of the public online snapshot. */
module Duration {
  import opened Text
  import opened Clock

  const SecondsPerDay := 86400

  /** `TimeIntToStr`: a time field padded with '0' to two digits, so that
      every field below 100 is exactly two digits wide. */
  function TimeIntToStr(time: nat): (r: string)
    ensures time < 100 ==> |r| == 2
  {
    Padded(time, 2)
  }

  /** The field is all decimal digits and reads back as the value it shows. */
  lemma TimeIntToStrDigits(time: nat)
    ensures AllDigits(TimeIntToStr(time)) && DigitsValue(TimeIntToStr(time)) == time
  {
    PaddedDigits(time, 2);
  }

  /** The padding is the conditional of the source: a '0' in front of the
      decimal digits below ten, the digits alone from ten on. */
  lemma TimeIntToStrCases(time: nat)
    ensures time < 10 ==> TimeIntToStr(time) == "0" + NatToString(time)
    ensures time >= 10 ==> TimeIntToStr(time) == NatToString(time)
  {
  }

  /** The `Days`, `Hours`, `Minutes` and `Seconds` components of `TimeSpan.FromSeconds`. */
  datatype Span = Span(days: nat, hours: nat, minutes: nat, seconds: nat)

  function SpanOf(total: nat): (f: Span)
    ensures f.days == total / SecondsPerDay
    ensures f.hours < 24 && f.minutes < 60 && f.seconds < 60
    ensures f.days * SecondsPerDay + f.hours * 3600 + f.minutes * 60 + f.seconds == total
  {
    var minutes, hours := total / 60, total / 3600;
    DivChain(total);
    Span(hours / 24, hours % 24, minutes % 60, total % 60)
  }

  /** Whole hours are whole minutes counted by sixty, and the seconds add up. */
  lemma DivChain(total: nat)
    ensures total / 3600 == total / 60 / 60
    ensures total / 3600 / 24 == total / SecondsPerDay
    ensures (total / 3600 / 24) * SecondsPerDay + (total / 3600 % 24) * 3600
      + (total / 60 % 60) * 60 + total % 60 == total
  {
    var minutes := total / 60;
    var hours := total / 3600;
    assert total == minutes * 60 + total % 60;
    assert hours == minutes / 60;
    assert minutes == hours * 60 + minutes % 60;
    assert hours == (hours / 24) * 24 + hours % 24;
    QuotientOf(total, SecondsPerDay, hours / 24);
  }

  /** The components are the only decomposition of `total` with in-range fields. */
  lemma SpanUnique(total: nat, f: Span)
    requires f.hours < 24 && f.minutes < 60 && f.seconds < 60
    requires f.days * SecondsPerDay + f.hours * 3600 + f.minutes * 60 + f.seconds == total
    ensures SpanOf(total) == f
  {
    var g := SpanOf(total);
    var cf := f.hours * 3600 + f.minutes * 60 + f.seconds;
    var cg := g.hours * 3600 + g.minutes * 60 + g.seconds;
    assert 0 <= cf < SecondsPerDay && 0 <= cg < SecondsPerDay;
    assert f.days == g.days;
    assert f.hours == g.hours;
    assert f.minutes == g.minutes;
  }

  /** The components agree with the truncating `TimeSpan.Hours` and
      `TimeSpan.Minutes` of the same span counted in ticks. */
  lemma SpanAgreesWithTicks(total: nat)
    ensures SpanOf(total).hours == SpanHours(total * TicksPerSecond)
    ensures SpanOf(total).minutes == SpanMinutes(total * TicksPerSecond)
  {
    assert total * TicksPerSecond / TicksPerHour == total / 3600;
    assert total * TicksPerSecond / TicksPerMinute == total / 60;
  }

  /** `r` ends in `HH:MM:SS`: two digits each, separated by ':', reading
      `h`, `m` and `s`. */
  predicate ClockTail(r: string, h: nat, m: nat, s: nat) {
    var n := |r|;
    && n >= 8 && r[n - 6] == ':' && r[n - 3] == ':'
    && AllDigits(r[n - 8..n - 6]) && AllDigits(r[n - 5..n - 3]) && AllDigits(r[n - 2..])
    && DigitsValue(r[n - 8..n - 6]) == h && DigitsValue(r[n - 5..n - 3]) == m
    && DigitsValue(r[n - 2..]) == s
  }

  /** `r` starts with the unpadded day count and "d ", before an eight-character clock. */
  predicate DayHead(r: string, days: nat) {
    |r| >= 10 && r[..|r| - 10] == NatToString(days) && r[|r| - 10..|r| - 8] == "d "
  }

  /** `HH:MM:SS` of three fields. */
  function Clock8(h: nat, m: nat, s: nat): (r: string)
    requires h < 100 && m < 100 && s < 100
    ensures |r| == 8
  {
    TimeIntToStr(h) + ":" + TimeIntToStr(m) + ":" + TimeIntToStr(s)
  }

  /** The three fields stand at their places, two digits each, between the ':' separators. */
  lemma Clock8Fields(h: nat, m: nat, s: nat)
    requires h < 100 && m < 100 && s < 100
    ensures ClockTail(Clock8(h, m, s), h, m, s)
  {
    var r := Clock8(h, m, s);
    TimeIntToStrDigits(h);
    TimeIntToStrDigits(m);
    TimeIntToStrDigits(s);
    assert r[..2] == TimeIntToStr(h) && r[3..5] == TimeIntToStr(m) && r[6..] == TimeIntToStr(s);
  }

  /** Reads a rendering back: the last eight characters as `HH:MM:SS`, and
      any digits before a trailing "d " as whole days; -1 when too short. */
  function ReadDuration(r: string): int {
    var n := |r|;
    if n < 8 then -1
    else
      var clock := DigitsValue(r[n - 8..n - 6]) * 3600 + DigitsValue(r[n - 5..n - 3]) * 60
                   + DigitsValue(r[n - 2..]);
      if n >= 10 then DigitsValue(r[..n - 10]) * SecondsPerDay + clock else clock
  }

  /** The day count and "d " in front of a clock. */
  function WithDays(days: nat, clock: string): string {
    NatToString(days) + "d " + clock
  }

  /** The clock keeps its place at the end, behind the day count and "d ". */
  lemma WithDaysParts(days: nat, clock: string)
    requires |clock| == 8
    ensures var r := WithDays(days, clock);
      && DayHead(r, days) && r[|r| - 8..] == clock
      && r[|r| - 8..|r| - 6] == clock[..2] && r[|r| - 5..|r| - 3] == clock[3..5] && r[|r| - 2..] == clock[6..]
      && r[|r| - 6] == clock[2] && r[|r| - 3] == clock[5]
  {
    var r := WithDays(days, clock);
    assert r[..|r| - 10] == NatToString(days);
    assert r[|r| - 10..|r| - 8] == "d ";
    assert r[|r| - 8..] == clock;
    assert r[|r| - 8..|r| - 6] == clock[..2] && r[|r| - 5..|r| - 3] == clock[3..5];
    assert r[|r| - 2..] == clock[6..];
  }

  /** The days add whole days to what the clock reads. */
  lemma WithDaysReadsBack(days: nat, clock: string)
    requires |clock| == 8
    ensures ReadDuration(WithDays(days, clock)) == days * SecondsPerDay + ReadDuration(clock)
  {
    WithDaysParts(days, clock);
    NatToStringRoundTrip(days);
  }

  /** `FormatTime`: `HH:MM:SS` below one day, `{days}d HH:MM:SS` from one day on. */
  function FormatTime(seconds: nat): string {
    var f := SpanOf(seconds);
    var clock := Clock8(f.hours, f.minutes, f.seconds);
    if seconds < SecondsPerDay then clock else WithDays(f.days, clock)
  }

  /** Reading a rendering back gives the seconds it was made from. */
  lemma FormatTimeReadsBack(seconds: nat)
    ensures ReadDuration(FormatTime(seconds)) == seconds
  {
    var f := SpanOf(seconds);
    Clock8Fields(f.hours, f.minutes, f.seconds);
    if seconds >= SecondsPerDay {
      WithDaysReadsBack(f.days, Clock8(f.hours, f.minutes, f.seconds));
    }
  }

  /** Renderings of different durations differ. */
  lemma FormatTimeInjective(a: nat, b: nat)
    requires FormatTime(a) == FormatTime(b)
    ensures a == b
  {
    FormatTimeReadsBack(a);
    FormatTimeReadsBack(b);
  }

  /** The layout of `FormatTime`: every clock field two digits wide (hours
      below 24, minutes and seconds below 60), exactly the clock below one
      day, and the unpadded day count and "d " in front of it from one day on. */
  lemma FormatTimeLayout(seconds: nat)
    ensures var f := SpanOf(seconds); ClockTail(FormatTime(seconds), f.hours, f.minutes, f.seconds)
    ensures seconds < SecondsPerDay ==> |FormatTime(seconds)| == 8
    ensures seconds >= SecondsPerDay ==> DayHead(FormatTime(seconds), seconds / SecondsPerDay)
  {
    var f := SpanOf(seconds);
    Clock8Fields(f.hours, f.minutes, f.seconds);
    if seconds >= SecondsPerDay {
      WithDaysParts(f.days, Clock8(f.hours, f.minutes, f.seconds));
    }
  }

  /** Worked values of the format. */
  lemma FormatTimeExamples()
    ensures FormatTime(0) == "00:00:00"
    ensures FormatTime(59) == "00:00:59"
    ensures FormatTime(3661) == "01:01:01"
  {
    assert TimeIntToStr(0) == "00" && TimeIntToStr(1) == "01" && TimeIntToStr(59) == "59";
    assert SpanOf(0) == Span(0, 0, 0, 0) && SpanOf(59) == Span(0, 0, 0, 59);
    assert SpanOf(3661) == Span(0, 1, 1, 1);
    assert Clock8(0, 0, 0) == "00:00:00" && Clock8(0, 0, 59) == "00:00:59";
    assert Clock8(1, 1, 1) == "01" + ":" + "01" + ":" + "01" == "01:01:01";
    assert FormatTime(0) == Clock8(0, 0, 0);
    assert FormatTime(59) == Clock8(0, 0, 59);
    assert FormatTime(3661) == Clock8(1, 1, 1);
  }

  /** From one day on, the day count comes first. */
  lemma FormatTimeDayExample()
    ensures FormatTime(90000) == "1d 01:00:00"
  {
    assert TimeIntToStr(0) == "00" && TimeIntToStr(1) == "01";
    assert SpanOf(90000) == Span(1, 1, 0, 0);
    assert Clock8(1, 0, 0) == "01" + ":" + "00" + ":" + "00" == "01:00:00";
    assert NatToString(1) == "1";
    assert WithDays(1, "01:00:00") == "1d 01:00:00";
    assert FormatTime(90000) == WithDays(1, Clock8(1, 0, 0));
  }

  /** The online time of the public snapshot, from the span `now - SessionStart`
      in ticks: `"{h}h"` and two-digit minutes when the hours component is
      positive, otherwise `"{m}m"`. */
  function OnlineTime(spanTicks: int): string {
    HoursMinutes(SpanHours(spanTicks), SpanMinutes(spanTicks))
  }

  /** The text of an hours and a minutes component. */
  function HoursMinutes(h: int, m: int): string {
    if h > 0 then IntToString(h) + "h" + (if m < 10 then "0" else "") + IntToString(m)
    else IntToString(m) + "m"
  }

  /** For a non-negative span, the hours shown are the hours left after whole
      days (0..23), the minutes are padded exactly as `TimeIntToStr` pads
      them, and no 'm' follows them. */
  lemma OnlineTimeShape(spanTicks: int)
    requires spanTicks >= 0
    ensures var h, m := spanTicks / TicksPerHour % 24, spanTicks / TicksPerMinute % 60;
      && SpanHours(spanTicks) == h && SpanMinutes(spanTicks) == m
      && (h > 0 ==> OnlineTime(spanTicks) == NatToString(h) + "h" + TimeIntToStr(m))
      && (h == 0 ==> OnlineTime(spanTicks) == NatToString(m) + "m")
  {
  }

  /** Whole days are dropped: a span one day longer shows the same text. */
  lemma OnlineTimeDropsDays(spanTicks: int)
    requires spanTicks >= 0
    ensures OnlineTime(spanTicks + TicksPerDay) == OnlineTime(spanTicks)
  {
    HoursIgnoreDay(spanTicks);
    MinutesIgnoreDay(spanTicks);
  }

  lemma HoursIgnoreDay(t: int)
    requires t >= 0
    ensures SpanHours(t + TicksPerDay) == SpanHours(t)
  {
    ShiftQuotient(t, 24, TicksPerHour);
    var q := t / TicksPerHour;
    assert TruncDiv(t + TicksPerDay, TicksPerHour) == q + 24;
    RemShiftCycles(q, 1, 24);
  }

  lemma MinutesIgnoreDay(t: int)
    requires t >= 0
    ensures SpanMinutes(t + TicksPerDay) == SpanMinutes(t)
  {
    ShiftQuotient(t, 1440, TicksPerMinute);
    var p := t / TicksPerMinute;
    assert TruncDiv(t + TicksPerDay, TicksPerMinute) == p + 1440;
    RemShiftCycles(p, 24, 60);
  }

  /** Whole cycles more leave the truncating remainder of a non-negative value unchanged. */
  lemma {:induction false} RemShiftCycles(q: int, k: nat, b: int)
    requires q >= 0 && b > 0
    ensures TruncRem(q + k * b, b) == TruncRem(q, b)
  {
    if k > 0 {
      RemShiftCycles(q, k - 1, b);
      ShiftQuotient(q + (k - 1) * b, 1, b);
      assert q + k * b == q + (k - 1) * b + b;
    }
  }

  /** Adding `k` times the divisor adds `k` to the quotient. */
  lemma ShiftQuotient(a: int, k: int, b: int)
    requires b > 0
    ensures (a + k * b) / b == a / b + k
  {
    var q := a / b;
    assert q * b <= a < (q + 1) * b;
    assert (q + k) * b == q * b + k * b && (q + k + 1) * b == (q + 1) * b + k * b;
    QuotientOf(a + k * b, b, q + k);
  }

  /** Worked values with a positive hours component: an hour and a half. */
  lemma OnlineTimeHoursExample()
    ensures OnlineTime(90 * TicksPerMinute) == "1h30"
  {
    var x := 90 * TicksPerMinute;
    QuotientOf(x, TicksPerHour, 1);
    QuotientOf(x, TicksPerMinute, 90);
    assert SpanHours(x) == 1 && SpanMinutes(x) == 30;
    assert NatToString(1) == "1" && NatToString(30) == "30";
  }

  /** A day and an hour and five minutes: the day is dropped and the minutes padded. */
  lemma OnlineTimeDayDroppedExample()
    ensures OnlineTime(25 * TicksPerHour + 5 * TicksPerMinute) == "1h05"
  {
    var x := 25 * TicksPerHour + 5 * TicksPerMinute;
    QuotientOf(x, TicksPerHour, 25);
    QuotientOf(x, TicksPerMinute, 1505);
    assert SpanHours(x) == 1 && SpanMinutes(x) == 5;
    assert NatToString(1) == "1" && NatToString(5) == "5";
  }

  /** The quotient of `a` by `b` is the `q` whose multiples of `b` bracket `a`. */
  lemma QuotientOf(a: int, b: int, q: int)
    requires b > 0 && q * b <= a < (q + 1) * b
    ensures a / b == q
  {
    var r := a / b;
    assert a == r * b + a % b && 0 <= a % b < b;
    if r < q {
      MulMono(r + 1, q, b);
      assert false;
    }
    if r > q {
      MulMono(q + 1, r, b);
      assert false;
    }
  }

  lemma MulMono(x: int, y: int, b: int)
    requires x <= y && b > 0
    ensures x * b <= y * b
  {
    assert y * b == x * b + (y - x) * b;
  }

  /** Five minutes without hours show as "5m". */
  lemma OnlineTimeMinutesExample()
    ensures OnlineTime(5 * TicksPerMinute) == "5m"
  {
    var x := 5 * TicksPerMinute;
    QuotientOf(x, TicksPerHour, 0);
    QuotientOf(x, TicksPerMinute, 5);
    assert SpanHours(x) == 0 && SpanMinutes(x) == 5;
    assert NatToString(5) == "5";
  }

  /** A session whose start lies five minutes in the future shows "-5m":
      the truncating components of a negative span are negative. */
  lemma OnlineTimeNegativeExample()
    ensures OnlineTime(-5 * TicksPerMinute) == "-5m"
  {
    var x := 5 * TicksPerMinute;
    QuotientOf(x, TicksPerHour, 0);
    QuotientOf(x, TicksPerMinute, 5);
    assert TruncDiv(-x, TicksPerHour) == 0 && TruncDiv(-x, TicksPerMinute) == -5;
    assert TruncDiv(-5, 60) == 0;
    assert SpanHours(-x) == 0 && SpanMinutes(-x) == -5;
    assert NatToString(5) == "5";
    assert IntToString(-5) == "-5";
  }
}
