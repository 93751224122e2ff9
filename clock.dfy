/** `System.DateTime` and `System.TimeSpan` as the controller uses them: a
    calendar instant with sub-second ticks, its tick count on the Gregorian
    calendar, the month arithmetic behind the activity windows, the
    truncating `TimeSpan` components, the `AddSeconds(...) < now` staleness
    test, and the `yyyy-MM-ddTHH:mm:ss` rendering. */
module Clock {
  import opened Wrappers
  import opened Text

  const TicksPerMillisecond := 10_000
  const TicksPerSecond := 10_000_000
  const TicksPerMinute := 600_000_000
  const TicksPerHour := 36_000_000_000
  const TicksPerDay := 864_000_000_000

  /** A calendar instant; `fraction` is the number of 100 ns ticks within the second. */
  datatype DateTime = DateTime(year: int, month: int, day: int,
                               hour: int, minute: int, second: int, fraction: int)

  predicate IsLeapYear(y: int) {
    y % 4 == 0 && (y % 100 != 0 || y % 400 == 0)
  }

  /** `DateTime.DaysInMonth`. */
  function DaysInMonth(y: int, m: int): (d: int)
    requires 1 <= m <= 12
    ensures 28 <= d <= 31
    ensures d == 29 <==> m == 2 && IsLeapYear(y)
  {
    if m == 2 then (if IsLeapYear(y) then 29 else 28)
    else if m == 4 || m == 6 || m == 9 || m == 11 then 30
    else 31
  }

  /** The range a `DateTime` can hold: years 1 to 9999 and in-range fields. */
  predicate ValidDateTime(t: DateTime) {
    && 1 <= t.year <= 9999
    && 1 <= t.month <= 12
    && 1 <= t.day <= DaysInMonth(t.year, t.month)
    && 0 <= t.hour < 24 && 0 <= t.minute < 60 && 0 <= t.second < 60
    && 0 <= t.fraction < TicksPerSecond
  }

  /** Days from 0001-01-01 to the first day of year `y`. */
  function DaysBeforeYear(y: int): int {
    var p := y - 1;
    365 * p + p / 4 - p / 100 + p / 400
  }

  /** Days from the first of the year to the first of month `m` (months
      outside 1..12 are read as the nearest in range). */
  function DaysBeforeMonth(y: int, m: int): int {
    var leap := if IsLeapYear(y) && m > 2 then 1 else 0;
    leap + (
      if m <= 1 then 0 else if m == 2 then 31 else if m == 3 then 59
      else if m == 4 then 90 else if m == 5 then 120 else if m == 6 then 151
      else if m == 7 then 181 else if m == 8 then 212 else if m == 9 then 243
      else if m == 10 then 273 else if m == 11 then 304 else 334)
  }

  /** `DateTime.Ticks`: the instant's position on the time line, on which
      every comparison and subtraction of instants is made. */
  function Ticks(t: DateTime): int {
    (DaysBeforeYear(t.year) + DaysBeforeMonth(t.year, t.month) + t.day - 1) * TicksPerDay
    + t.hour * TicksPerHour + t.minute * TicksPerMinute + t.second * TicksPerSecond + t.fraction
  }

  /** The day after the last day of month `m` is the first day of the next month. */
  lemma MonthAfter(y: int, m: int)
    requires 1 <= m < 12
    ensures DaysBeforeMonth(y, m) + DaysInMonth(y, m) == DaysBeforeMonth(y, m + 1)
  {
  }

  /** The day after 31 December is 1 January of the next year. */
  lemma YearAfter(y: int)
    requires y >= 1
    ensures DaysBeforeYear(y) + DaysBeforeMonth(y, 12) + DaysInMonth(y, 12) == DaysBeforeYear(y + 1)
  {
    var p := y - 1;
    assert (p + 1) / 4 == p / 4 + (if y % 4 == 0 then 1 else 0);
    assert (p + 1) / 100 == p / 100 + (if y % 100 == 0 then 1 else 0);
    assert (p + 1) / 400 == p / 400 + (if y % 400 == 0 then 1 else 0);
  }

  /** The two calendar-month windows of the activity reports: the first
      instant of the current month, and the first instant and the last
      millisecond (23:59:59.999 on its last day) of the previous month. */
  datatype MonthWindows = MonthWindows(startNow: DateTime, startLast: DateTime, endLast: DateTime)

  /** `new DateTime(now.Year, now.Month, 1)`, then `AddMonths(-1)` and
      `DaysInMonth`; `None` where `AddMonths(-1)` throws, in January of year 1. */
  function Windows(now: DateTime): (w: Option<MonthWindows>)
    requires ValidDateTime(now)
    ensures w.None? <==> now.year == 1 && now.month == 1
    ensures w.Some? ==>
      && ValidDateTime(w.value.startNow) && ValidDateTime(w.value.startLast) && ValidDateTime(w.value.endLast)
      && w.value.startNow == DateTime(now.year, now.month, 1, 0, 0, 0, 0)
      && w.value.startLast.year * 12 + w.value.startLast.month + 1 == now.year * 12 + now.month
      && w.value.startLast.day == 1 && w.value.startLast.hour == 0 && w.value.startLast.minute == 0
      && w.value.startLast.second == 0 && w.value.startLast.fraction == 0
      && w.value.endLast.hour == 23 && w.value.endLast.minute == 59 && w.value.endLast.second == 59
      && w.value.endLast.fraction == 999 * TicksPerMillisecond
      && w.value.endLast.year == w.value.startLast.year && w.value.endLast.month == w.value.startLast.month
      && w.value.endLast.day == DaysInMonth(w.value.startLast.year, w.value.startLast.month)
  {
    if now.year == 1 && now.month == 1 then None
    else
      var startNow := DateTime(now.year, now.month, 1, 0, 0, 0, 0);
      var py := if now.month == 1 then now.year - 1 else now.year;
      var pm := if now.month == 1 then 12 else now.month - 1;
      Some(MonthWindows(startNow, DateTime(py, pm, 1, 0, 0, 0, 0),
                        DateTime(py, pm, DaysInMonth(py, pm), 23, 59, 59, 999 * TicksPerMillisecond)))
  }

  /** The previous-month window precedes the current month and ends exactly
      one millisecond before it; the current window starts no later than now. */
  lemma WindowsAdjacent(now: DateTime)
    requires ValidDateTime(now) && Windows(now).Some?
    ensures var w := Windows(now).value;
      && Ticks(w.startLast) < Ticks(w.endLast)
      && Ticks(w.startNow) - Ticks(w.endLast) == TicksPerMillisecond
      && Ticks(w.startNow) <= Ticks(now)
      && Ticks(w.startNow) + DaysInMonth(now.year, now.month) * TicksPerDay > Ticks(now)
  {
    var w := Windows(now).value;
    var (py, pm) := (w.startLast.year, w.startLast.month);
    if now.month == 1 {
      YearAfter(py);
    } else {
      MonthAfter(py, pm);
    }
  }

  /** `TimeSpan` arithmetic truncates toward zero, like C# `/` on `long`. */
  function TruncDiv(a: int, b: int): (q: int)
    requires b > 0
    ensures a >= 0 ==> 0 <= q * b <= a < q * b + b
    ensures a < 0 ==> q * b - b < a <= q * b <= 0
  {
    DivBounds(if a >= 0 then a else -a, b);
    if a >= 0 then a / b else
      var k := (-a) / b;
      assert -k * b == -(k * b);
      -k
  }

  /** The whole multiples of `b` below a non-negative `n`: the largest one is
      at most `n` and within `b` of it. */
  lemma DivBounds(n: int, b: int)
    requires n >= 0 && b > 0
    ensures 0 <= (n / b) * b <= n < (n / b) * b + b
  {
    assert n == (n / b) * b + n % b;
  }

  /** C# `%` on `long`: the remainder takes the sign of the dividend. */
  function TruncRem(a: int, b: int): (r: int)
    requires b > 0
    ensures a == TruncDiv(a, b) * b + r
    ensures a >= 0 ==> 0 <= r < b
    ensures a < 0 ==> -b < r <= 0
  {
    a - TruncDiv(a, b) * b
  }

  /** `TimeSpan.Hours` of a span of `ticks`: whole hours left after whole days. */
  function SpanHours(ticks: int): int {
    TruncRem(TruncDiv(ticks, TicksPerHour), 24)
  }

  /** `TimeSpan.Minutes`: whole minutes left after whole hours. */
  function SpanMinutes(ticks: int): int {
    TruncRem(TruncDiv(ticks, TicksPerMinute), 60)
  }

  /** The staleness test `last.AddSeconds(ttl) < now`: strictly later than
      the instant the entry expires. */
  predicate IsStale(last: DateTime, ttlSeconds: int, now: DateTime) {
    Ticks(last) + ttlSeconds * TicksPerSecond < Ticks(now)
  }

  /** Once stale, an entry stays stale: the test is monotone in `now`, so an
      entry that is fresh now was fresh at every earlier instant too. */
  lemma StaleMonotone(last: DateTime, ttlSeconds: int, now: DateTime, later: DateTime)
    requires Ticks(now) <= Ticks(later)
    ensures IsStale(last, ttlSeconds, now) ==> IsStale(last, ttlSeconds, later)
    ensures !IsStale(last, ttlSeconds, later) ==> !IsStale(last, ttlSeconds, now)
  {
  }

  /** The expiry instant itself, `ttl` seconds after `last`, still counts as
      fresh; every instant after it is stale. */
  lemma FreshAtExpiry(last: DateTime, ttlSeconds: int, expiry: DateTime)
    requires Ticks(expiry) == Ticks(last) + ttlSeconds * TicksPerSecond
    ensures !IsStale(last, ttlSeconds, expiry)
    ensures forall later: DateTime :: Ticks(later) > Ticks(expiry) ==> IsStale(last, ttlSeconds, later)
  {
  }

  /** `a`, `sep1`, `b`, `sep2`, `c` for two-digit-or-wider fields; the
      shape shared by the date (`yyyy-MM-dd`) and the time (`HH:mm:ss`). */
  function Fields3(a: string, sep1: char, b: string, sep2: char, c: string): string {
    a + [sep1] + b + [sep2] + c
  }

  /** With two-character second and third fields, each field stands at its place. */
  lemma Fields3Parts(a: string, sep1: char, b: string, sep2: char, c: string)
    requires |b| == 2 && |c| == 2
    ensures var r := Fields3(a, sep1, b, sep2, c);
      && |r| == |a| + 6
      && r[..|a|] == a && r[|a|] == sep1 && r[|a| + 1..|a| + 3] == b
      && r[|a| + 3] == sep2 && r[|a| + 4..] == c
  {
    var r := Fields3(a, sep1, b, sep2, c);
    assert r[..|a|] == a && r[|a| + 1..|a| + 3] == b && r[|a| + 4..] == c;
  }

  /** `ToString("yyyy-MM-ddTHH:mm:ss")`. */
  function FormatStamp(t: DateTime): string
    requires ValidDateTime(t)
  {
    Fields3(Padded(t.year, 4), '-', Padded(t.month, 2), '-', Padded(t.day, 2)) + "T"
    + Fields3(Padded(t.hour, 2), ':', Padded(t.minute, 2), ':', Padded(t.second, 2))
  }

  /** Three padded fields between two separators: the first `w` wide, the
      others two wide, each reading back as its value. */
  lemma PaddedFields3(x: nat, w: nat, sep1: char, y: nat, sep2: char, z: nat)
    requires |NatToString(x)| <= w && y < 100 && z < 100
    ensures var r := Fields3(Padded(x, w), sep1, Padded(y, 2), sep2, Padded(z, 2));
      && |r| == w + 6 && r[w] == sep1 && r[w + 3] == sep2
      && DigitsValue(r[..w]) == x && DigitsValue(r[w + 1..w + 3]) == y && DigitsValue(r[w + 4..]) == z
  {
    var a, b, c := Padded(x, w), Padded(y, 2), Padded(z, 2);
    DigitCount(y);
    DigitCount(z);
    assert |a| == w && |b| == 2 && |c| == 2;
    PaddedDigits(x, w);
    PaddedDigits(y, 2);
    PaddedDigits(z, 2);
    Fields3Parts(a, sep1, b, sep2, c);
  }

  /** The stamp of a valid date is nineteen characters with the separators
      at their places, and each field reads back as its component. */
  lemma FormatStampLayout(t: DateTime)
    requires ValidDateTime(t)
    ensures var r := FormatStamp(t);
      && |r| == 19
      && r[4] == '-' && r[7] == '-' && r[10] == 'T' && r[13] == ':' && r[16] == ':'
      && DigitsValue(r[0..4]) == t.year && DigitsValue(r[5..7]) == t.month
      && DigitsValue(r[8..10]) == t.day && DigitsValue(r[11..13]) == t.hour
      && DigitsValue(r[14..16]) == t.minute && DigitsValue(r[17..19]) == t.second
  {
    DigitCount(t.year);
    DigitCount(t.hour);
    PaddedFields3(t.year, 4, '-', t.month, '-', t.day);
    PaddedFields3(t.hour, 2, ':', t.minute, ':', t.second);
    var date := Fields3(Padded(t.year, 4), '-', Padded(t.month, 2), '-', Padded(t.day, 2));
    var time := Fields3(Padded(t.hour, 2), ':', Padded(t.minute, 2), ':', Padded(t.second, 2));
    StampJoin(date, time);
  }

  /** A ten-character date and an eight-character time around the 'T'. */
  lemma StampJoin(date: string, time: string)
    requires |date| == 10 && |time| == 8
    ensures var r := date + "T" + time;
      && |r| == 19 && r[10] == 'T'
      && r[4] == date[4] && r[7] == date[7] && r[13] == time[2] && r[16] == time[5]
      && r[0..4] == date[..4] && r[5..7] == date[5..7] && r[8..10] == date[8..]
      && r[11..13] == time[..2] && r[14..16] == time[3..5] && r[17..19] == time[6..]
  {
    var r := date + "T" + time;
    assert r[0..4] == date[..4] && r[5..7] == date[5..7] && r[8..10] == date[8..];
    assert r[11..13] == time[..2] && r[14..16] == time[3..5] && r[17..19] == time[6..];
  }

  /** Below 10^k a number has at most k digits (for k up to 4). */
  lemma DigitCount(n: nat)
    ensures n < 100 ==> |NatToString(n)| <= 2
    ensures n < 10000 ==> |NatToString(n)| <= 4
  {
    if n >= 10 {
      DigitCount(n / 10);
    }
  }
}
