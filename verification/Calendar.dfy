/** Calendar conversions of Clock.c and calendar.c, both against one closed form for the days before a year. */
module Calendar {
  import opened Prelude

  const DAY := 86400
  const EPOCH_YEAR := 1970
  const EPOCH_DAYS := 719528
  const LAST_DAY := 2932896
  const YEAR_LIMIT := 65535

  predicate Leap(y: nat) { y % 4 == 0 && (y % 100 != 0 || y % 400 == 0) }
  function YearDays(y: nat): nat { if Leap(y) then 366 else 365 }

  function DaysIn(y: nat, m: nat): nat
    requires 1 <= m <= 12
  {
    if m == 2 then if Leap(y) then 29 else 28
    else if m == 4 || m == 6 || m == 9 || m == 11 then 30 else 31
  }

  /** Days from the start of 1970 to the start of the year. */
  function DaysBefore(y: nat): int { 365 * y + Upto(y, 4) - Upto(y, 100) + Upto(y, 400) - EPOCH_DAYS }

  /** How many years before `y` are multiples of `n`. */
  function Upto(y: nat, n: nat): nat
    requires n > 0
  {
    (y + n - 1) / n
  }

  /** Days of the year before the month. */
  function MonthStart(y: nat, m: nat): nat
    requires 1 <= m <= 13
  {
    if m == 1 then 0 else MonthStart(y, m - 1) + DaysIn(y, m - 1)
  }

  datatype DateTime = DateTime(year: nat, month: nat, day: nat, hour: nat, minute: nat, second: nat)

  predicate ValidDate(d: DateTime) {
    && 1 <= d.month <= 12 && 1 <= d.day <= DaysIn(d.year, d.month) && d.hour < 24 && d.minute < 60 && d.second < 60
  }

  function YearDay(d: DateTime): nat
    requires ValidDate(d)
  {
    MonthStart(d.year, d.month) + d.day - 1
  }

  /** The second a date and time names, counted from the start of 1970. */
  function Seconds(d: DateTime): int
    requires ValidDate(d)
  {
    (DaysBefore(d.year) + YearDay(d)) * DAY + d.hour * 3600 + d.minute * 60 + d.second
  }

  lemma {:induction false} YearStep(y: nat)
    ensures DaysBefore(y + 1) == DaysBefore(y) + YearDays(y)
  {
    hide Upto;
    UptoStep(y, 4);
    UptoStep(y, 100);
    UptoStep(y, 400);
    Century(y);
  }

  lemma {:induction false} Century(y: nat)
    ensures y % 100 == 0 ==> y % 4 == 0
    ensures y % 400 == 0 ==> y % 100 == 0
  {
    if y % 100 == 0 { assert y == 4 * (25 * (y / 100)); }
    if y % 400 == 0 { assert y == 100 * (4 * (y / 400)); }
  }

  lemma {:induction false} UptoStep(y: nat, n: nat)
    requires n == 4 || n == 100 || n == 400
    ensures Upto(y + 1, n) == Upto(y, n) + if y % n == 0 then 1 else 0
  {
  }

  lemma {:induction false} YearsGrow(a: nat, b: nat)
    requires a < b
    ensures DaysBefore(a) + YearDays(a) <= DaysBefore(b)
    decreases b - a
  {
    YearStep(a);
    if a + 1 < b { YearsGrow(a + 1, b); }
  }

  /** A day lies in one year only. */
  lemma {:induction false} YearUnique(a: nat, x: nat, b: nat, y: nat)
    requires x < YearDays(a) && y < YearDays(b) && DaysBefore(a) + x == DaysBefore(b) + y
    ensures a == b && x == y
  {
    if a < b { YearsGrow(a, b); } else if b < a { YearsGrow(b, a); }
  }

  lemma {:induction false} MonthsGrow(y: nat, a: nat, b: nat)
    requires 1 <= a < b <= 13
    ensures MonthStart(y, a) + DaysIn(y, a) <= MonthStart(y, b)
    decreases b - a
  {
    if a + 1 < b { MonthsGrow(y, a, b - 1); }
  }

  lemma {:induction false} YearLength(y: nat)
    ensures MonthStart(y, 13) == YearDays(y)
  {
    assert MonthStart(y, 2) == 31;
    assert MonthStart(y, 3) == 31 + DaysIn(y, 2);
    assert MonthStart(y, 5) == MonthStart(y, 3) + 61;
    assert MonthStart(y, 7) == MonthStart(y, 5) + 61;
    assert MonthStart(y, 9) == MonthStart(y, 7) + 62;
    assert MonthStart(y, 11) == MonthStart(y, 9) + 61;
    assert MonthStart(y, 13) == MonthStart(y, 11) + 61;
  }

  /** The Gregorian calendar: 146097 days in any 400 years, one more in a leap year than the 365 whose months begin where
      they do. */
  lemma {:induction false} Gregorian(y: nat)
    ensures DaysBefore(y + 400) == DaysBefore(y) + 146097 && DaysBefore(1970) == 0 && DaysBefore(2000) == 10957
    ensures forall m: nat :: 1 <= m <= 13 ==>
              MonthStart(y, m) == [0, 31, 59, 90, 120, 151, 181, 212, 243, 273, 304, 334, 365][m - 1] + if m > 2 && Leap(y) then 1 else 0
    ensures Leap(2000) && !Leap(1900) && Leap(2024) && !Leap(2023)
  {
    var starts := [0, 31, 59, 90, 120, 151, 181, 212, 243, 273, 304, 334, 365];
    var m := 1;
    while m < 13
      invariant 1 <= m <= 13
      invariant forall k: nat :: 1 <= k <= m ==> MonthStart(y, k) == starts[k - 1] + if k > 2 && Leap(y) then 1 else 0
    {
      m := m + 1;
    }
  }

  lemma {:induction false} YearDayBelow(d: DateTime)
    requires ValidDate(d)
    ensures YearDay(d) < YearDays(d.year)
  {
    YearLength(d.year);
    if d.month < 12 { MonthsGrow(d.year, d.month, 13); }
  }

  /** A day of the year lies in one month only. */
  lemma {:induction false} MonthUnique(y: nat, a: nat, x: nat, b: nat, z: nat)
    requires 1 <= a <= 12 && 1 <= b <= 12 && x < DaysIn(y, a) && z < DaysIn(y, b)
    requires MonthStart(y, a) + x == MonthStart(y, b) + z
    ensures a == b && x == z
  {
    if a < b { MonthsGrow(y, a, b); } else if b < a { MonthsGrow(y, b, a); }
  }

  lemma {:induction false} ClockUnique(days: int, h: nat, m: nat, s: nat, days': int, h': nat, m': nat, s': nat)
    requires h < 24 && m < 60 && s < 60 && h' < 24 && m' < 60 && s' < 60
    requires days * DAY + h * 3600 + m * 60 + s == days' * DAY + h' * 3600 + m' * 60 + s'
    ensures days == days' && h == h' && m == m' && s == s'
  {
  }

  /** Different dates name different seconds. */
  lemma {:induction false} SecondsUnique(a: DateTime, b: DateTime)
    requires ValidDate(a) && ValidDate(b) && Seconds(a) == Seconds(b)
    ensures a == b
  {
    hide DaysIn, MonthStart, DaysBefore, YearDays;
    ClockUnique(DaysBefore(a.year) + YearDay(a), a.hour, a.minute, a.second,
                DaysBefore(b.year) + YearDay(b), b.hour, b.minute, b.second);
    YearDayBelow(a);
    YearDayBelow(b);
    YearUnique(a.year, YearDay(a), b.year, YearDay(b));
    MonthUnique(a.year, a.month, a.day - 1, b.month, b.day - 1);
  }

  // ---- Clock.c ----

  /** ClockToUnixTime. */
  method ToUnixTime(t: DateTime) returns (seconds: Option<nat>)
    ensures seconds.Some? <==> t.year >= EPOCH_YEAR && ValidDate(t)
    ensures seconds.Some? ==> seconds.value == Seconds(t)
  {
    if t.year < EPOCH_YEAR || t.month < 1 || t.month > 12 || t.hour > 23 || t.minute > 59 || t.second > 59 { return None; }
    if t.day < 1 || t.day > DaysIn(t.year, t.month) { return None; }
    var days: nat := 0;
    var year := EPOCH_YEAR;
    while year < t.year
      invariant EPOCH_YEAR <= year <= t.year && days == DaysBefore(year)
    {
      YearStep(year);
      days := days + if Leap(year) then 366 else 365;
      year := year + 1;
    }
    var month := 1;
    while month < t.month
      invariant 1 <= month <= t.month && days == DaysBefore(t.year) + MonthStart(t.year, month)
    {
      days := days + DaysIn(t.year, month);
      month := month + 1;
    }
    days := days + t.day - 1;
    seconds := Some(days * DAY + t.hour * 3600 + t.minute * 60 + t.second);
  }

  /** The month loop of both conversions: month and day of a day of the year. */
  method FindMonth(year: nat, yearDay: nat) returns (month: nat, day: nat)
    requires yearDay < YearDays(year)
    ensures 1 <= month <= 12 && 1 <= day <= DaysIn(year, month) && MonthStart(year, month) + day - 1 == yearDay
  {
    var days: nat := yearDay;
    month := 1;
    YearLength(year);
    while days >= DaysIn(year, month)
      invariant 1 <= month <= 12 && MonthStart(year, month) + days == yearDay
      invariant yearDay < MonthStart(year, 13)
      decreases 12 - month
    {
      days := days - DaysIn(year, month);
      month := month + 1;
    }
    day := days + 1;
  }

  /** ClockGetDateTime at `now` seconds and an offset in minutes. */
  method GetDateTime(now: nat, offset: int) returns (date: Option<DateTime>)
    ensures date.Some? ==> ValidDate(date.value) && Seconds(date.value) == now + offset * 60 && date.value.year <= YEAR_LIMIT
    ensures date.Some? <==> -1440 <= offset <= 1440 && 0 <= now + offset * 60 < DaysBefore(YEAR_LIMIT + 1) * DAY
  {
    if offset < -1440 || offset > 1440 { return None; }
    var seconds := now + offset * 60;
    if seconds < 0 { return None; }
    var days: nat, remaining: nat := seconds / DAY, seconds % DAY;
    ghost var all := days;
    var year: nat := EPOCH_YEAR;
    while days >= YearDays(year)
      invariant EPOCH_YEAR <= year <= YEAR_LIMIT && DaysBefore(year) + days == all
      decreases YEAR_LIMIT - year
    {
      YearStep(year);
      days := days - YearDays(year);
      year := year + 1;
      if year > YEAR_LIMIT { return None; }
    }
    YearsGrow(year, YEAR_LIMIT + 1);
    var month, day := FindMonth(year, days);
    var hour, minute, second := remaining / 3600, remaining % 3600 / 60, remaining % 60;
    TimeOfDay(remaining);
    date := Some(DateTime(year, month, day, hour, minute, second));
  }

  lemma {:induction false} TimeOfDay(r: nat)
    requires r < DAY
    ensures r / 3600 < 24 && r % 3600 / 60 < 60 && r % 60 < 60 && r == r / 3600 * 3600 + r % 3600 / 60 * 60 + r % 60
    ensures r / 60 % 60 == r % 3600 / 60
  {
  }

  // ---- calendar.c ----

  /** The fields gmtime_r fills in. */
  datatype Tm = Tm(sec: nat, min: nat, hour: nat, mday: nat, mon: nat, year: int, wday: nat, yday: nat)

  /** C's division and remainder, which truncate toward zero. */
  function Quotient(a: int, b: nat): int
    requires b > 0
  {
    if a >= 0 then a / b else -(-a / b)
  }

  function Remainder(a: int, b: nat): int
    requires b > 0
  {
    a - Quotient(a, b) * b
  }

  function DateOf(t: Tm): DateTime
    requires t.year >= -1900
  {
    DateTime(t.year + 1900, t.mon + 1, t.mday, t.hour, t.min, t.sec)
  }

  lemma {:induction false} FloorSplit(a: int)
    ensures var s, d := Remainder(a, DAY), Quotient(a, DAY);
            if s < 0 then d - 1 == a / DAY && s + DAY == a % DAY else d == a / DAY && s == a % DAY
  {
  }

  /** The weekday formula works on days before 1970 too; day 0 was a Thursday. */
  lemma {:induction false} WeekdayIs(days: int)
    ensures (Remainder(days, 7) + 11) % 7 == (days + 4) % 7 && Remainder(days, 7) + 11 >= 0
  {
    if days < 0 {
      var q := -days / 7;
      assert days == -(7 * q) + Remainder(days, 7);
    }
  }

  /** The two year loops of gmtime_r, down from 1970 and up. */
  method FindYear(day: int) returns (year: nat, yday: nat)
    requires -EPOCH_DAYS <= day
    ensures yday < YearDays(year) && DaysBefore(year) + yday == day
  {
    hide YearDays;
    var days := day;
    year := EPOCH_YEAR;
    while days < 0
      invariant year <= EPOCH_YEAR && DaysBefore(year) + days == day
      decreases year
    {
      assert year > 0;
      YearStep(year - 1);
      year := year - 1;
      days := days + YearDays(year);
    }
    while days >= YearDays(year)
      invariant days >= 0 && DaysBefore(year) + days == day
      decreases days
    {
      YearStep(year);
      AtLeastOne(year);
      days := days - YearDays(year);
      year := year + 1;
    }
    yday := days;
  }

  lemma {:induction false} AtLeastOne(y: nat)
    ensures YearDays(y) > 0
  {
  }

  /** gmtime_r over all it accepts, years 0 to 9999. */
  method GmTime(timer: int) returns (result: Option<Tm>)
    ensures result.Some? <==> -EPOCH_DAYS * DAY <= timer < (LAST_DAY + 1) * DAY
    ensures result.Some? ==>
              var t := result.value;
              && t.year >= -1900 && ValidDate(DateOf(t)) && Seconds(DateOf(t)) == timer
              && t.yday == YearDay(DateOf(t)) && t.wday == (timer / DAY + 4) % 7
  {
    hide DaysBefore, YearDays, MonthStart;
    var days: int, seconds: int := Quotient(timer, DAY), Remainder(timer, DAY);
    FloorSplit(timer);
    if seconds < 0 { seconds, days := seconds + DAY, days - 1; }
    assert timer == days * DAY + seconds && 0 <= seconds < DAY;
    if days < -EPOCH_DAYS || days > LAST_DAY { return None; }
    WeekdayIs(days);
    var wday: nat := (Remainder(days, 7) + 11) % 7;
    var year, yday := FindYear(days);
    var month, day := FindMonth(year, yday);
    TimeOfDay(seconds);
    var since: int := year;
    result := Some(Tm(seconds % 60, seconds / 60 % 60, seconds / 3600, day, month - 1, since - 1900, wday, yday));
  }

  // ---- Between them ----

  /** For every valid date from 1970 on, gmtime_r of what ClockToUnixTime computes gives the same fields back, and
      ClockGetDateTime agrees with gmtime_r. */
  lemma {:induction false} RoundTrip(d: DateTime, seconds: nat, t: Tm, c: DateTime)
    requires ValidDate(d) && seconds == Seconds(d)
    requires t.year >= -1900 && ValidDate(DateOf(t)) && Seconds(DateOf(t)) == seconds
    requires ValidDate(c) && Seconds(c) == seconds
    ensures DateOf(t) == d == c
  {
    SecondsUnique(DateOf(t), d);
    SecondsUnique(c, d);
  }

  /** Every date from 1970 to 9999 is inside what gmtime_r accepts. */
  lemma {:induction false} InRange(d: DateTime)
    requires ValidDate(d) && EPOCH_YEAR <= d.year <= 9999
    ensures 0 <= Seconds(d) < (LAST_DAY + 1) * DAY
  {
    YearDayBelow(d);
    if d.year > EPOCH_YEAR { YearsGrow(EPOCH_YEAR, d.year); }
    YearsGrow(d.year, 10000);
  }
}
