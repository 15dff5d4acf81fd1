/**
 * The part of JavaScript's Date that `new Date(year, monthIndex, day, hours, minutes)` and
 * `new Date(ms)` use (sections 21.4.1 and 21.4.2.1 of ECMA-262): day numbers of the
 * proleptic Gregorian calendar, MakeDay, MakeTime, MakeDate and TimeClip. Time values are
 * exact integers of milliseconds since 1970-01-01T00:00 UTC; `None` is NaN.
 */
module JsDate {
  import opened Wrappers

  const MsPerMinute := 60_000
  const MsPerHour := 3_600_000
  const MsPerDay := 86_400_000
  /** TimeClip's bound: 10^8 days either side of the epoch. */
  const MaxTime := 8_640_000_000_000_000

  predicate IsLeapYear(y: int) {
    y % 4 == 0 && (y % 100 != 0 || y % 400 == 0)
  }

  /** Length of month `m` (1 = January) of year `y`. */
  function DaysInMonth(y: int, m: int): (n: int)
    requires 1 <= m <= 12
    ensures 28 <= n <= 31
    ensures n == 29 <==> m == 2 && IsLeapYear(y)
  {
    if m == 2 then (if IsLeapYear(y) then 29 else 28)
    else if m == 4 || m == 6 || m == 9 || m == 11 then 30
    else 31
  }

  predicate IsValidDate(y: int, m: int, d: int) {
    1 <= m <= 12 && 1 <= d <= DaysInMonth(y, m)
  }

  function NextMonth(y: int, m: int): (r: (int, int))
    requires 1 <= m <= 12
    ensures 1 <= r.1 <= 12
  {
    if m == 12 then (y + 1, 1) else (y, m + 1)
  }

  function PrevMonth(y: int, m: int): (r: (int, int))
    requires 1 <= m <= 12
    ensures 1 <= r.1 <= 12 && NextMonth(r.0, r.1) == (y, m)
  {
    if m == 1 then (y - 1, 12) else (y, m - 1)
  }

  /** Days from the first of March of year 0 (of the 400-year cycle containing `y`) to the
      first of March of year `y`, plus the cycle's offset: the year part of DaysFromCivil.
      Years are counted from March so that the leap day falls at the end. */
  function DaysBeforeMarch(y: int): int {
    var era := y / 400;
    var yoe := y % 400;
    era * 146_097 + yoe * 365 + yoe / 4 - yoe / 100
  }

  /** Day number (days since 1970-01-01) of day `d` of month `m` of year `y`; a `d` outside the
      month counts on from the first of the month. A closed form: years start in March. */
  function DaysFromCivil(y: int, m: int, d: int): int
    requires 1 <= m <= 12
  {
    var y' := if m <= 2 then y - 1 else y;
    var mp := if m > 2 then m - 3 else m + 9;
    DaysBeforeMarch(y') + (153 * mp + 2) / 5 + d - 1 - 719_468
  }

  /** Consecutive March-based years differ by 365 days, 366 when the year they run into is a
      leap year. */
  lemma YearLength(y: int)
    ensures DaysBeforeMarch(y + 1) - DaysBeforeMarch(y) == if IsLeapYear(y + 1) then 366 else 365
  {
    var era, yoe := y / 400, y % 400;
    if yoe < 399 {
      DivMod(y + 1, 400, era, yoe + 1);
      StepDiv(yoe, 4);
      StepDiv(yoe, 100);
      CycleResidue(era, yoe + 1);
    } else {
      DivMod(y + 1, 400, era + 1, 0);
      DivMod(y + 1, 4, 100 * (era + 1), 0);
    }
  }

  /** Divisibility by 4, 100 and 400 depends only on the position within a 400-year cycle. */
  lemma CycleResidue(era: int, k: int)
    requires 0 <= k < 400
    ensures (400 * era + k) % 4 == k % 4
    ensures (400 * era + k) % 100 == k % 100
    ensures (400 * era + k) % 400 == k
  {
    DivMod(400 * era + k, 4, 100 * era + k / 4, k % 4);
    DivMod(400 * era + k, 100, 4 * era + k / 100, k % 100);
    DivMod(400 * era + k, 400, era, k);
  }

  /** Euclidean division is unique: a quotient and remainder in range are the ones `/` and `%`
      give. */
  lemma DivMod(n: int, d: int, q: int, r: int)
    requires 0 < d && n == d * q + r && 0 <= r < d
    ensures n / d == q && n % d == r
  {
    var q', r' := n / d, n % d;
    assert d * (q - q') == r' - r;
    if q > q' {
      MulAtLeast(d, q - q');
    } else if q < q' {
      MulAtLeast(d, q' - q);
    }
  }

  lemma MulAtLeast(d: int, x: int)
    requires 0 < d && 1 <= x
    ensures d * x >= d
  {
  }

  /** Counting up by one moves the quotient exactly when the count becomes a multiple. */
  lemma StepDiv(k: int, d: int)
    requires 0 < d
    ensures (k + 1) / d - k / d == if (k + 1) % d == 0 then 1 else 0
  {
    var q, r := k / d, k % d;
    if r == d - 1 {
      DivMod(k + 1, d, q + 1, 0);
    } else {
      DivMod(k + 1, d, q, r + 1);
    }
  }

  /** The closed form agrees with the calendar: the first of the next month comes exactly
      DaysInMonth days after the first of this one. */
  lemma MonthLength(y: int, m: int)
    requires 1 <= m <= 12
    ensures DaysFromCivil(NextMonth(y, m).0, NextMonth(y, m).1, 1) == DaysFromCivil(y, m, 1) + DaysInMonth(y, m)
  {
    if m == 2 {
      YearLength(y - 1);
    } else if m == 1 {
      assert NextMonth(y, m) == (y, 2);
    } else if m == 12 {
      assert NextMonth(y, m) == (y + 1, 1);
    } else {
      assert NextMonth(y, m) == (y, m + 1);
    }
  }

  /** Day `d` of a month is `d - 1` days after its first. */
  lemma DayOfMonth(y: int, m: int, d: int)
    requires 1 <= m <= 12
    ensures DaysFromCivil(y, m, d) == DaysFromCivil(y, m, 1) + d - 1
  {
  }

  /** Day 0 is 1 January 1970. */
  lemma Epoch()
    ensures DaysFromCivil(1970, 1, 1) == 0
  {
  }

  /** The valid calendar date that day `d` of month `m` of year `y` denotes once the days
      beyond (or before) the month are carried into the following (or preceding) months. */
  function Normalize(y: int, m: int, d: int): (r: (int, int, int))
    requires 1 <= m <= 12
    ensures IsValidDate(r.0, r.1, r.2)
    ensures DaysFromCivil(r.0, r.1, r.2) == DaysFromCivil(y, m, d)
    decreases if d < 1 then 1 else 0, if d < 1 then 1 - d else d
  {
    if d < 1 then
      var (py, pm) := PrevMonth(y, m);
      MonthLength(py, pm);
      DayOfMonth(py, pm, d + DaysInMonth(py, pm));
      DayOfMonth(y, m, d);
      Normalize(py, pm, d + DaysInMonth(py, pm))
    else if d > DaysInMonth(y, m) then
      var (ny, nm) := NextMonth(y, m);
      MonthLength(y, m);
      DayOfMonth(ny, nm, d - DaysInMonth(y, m));
      DayOfMonth(y, m, d);
      Normalize(ny, nm, d - DaysInMonth(y, m))
    else
      (y, m, d)
  }

  /** 31 February of a common year is 3 March. */
  lemma FebruaryThirtyFirstIsMarchThird(y: int)
    requires !IsLeapYear(y)
    ensures CalendarDate(y, 1, 31) == (y, 3, 3)
  {
    assert DaysInMonth(y, 2) == 28 && NextMonth(y, 2) == (y, 3);
    assert Normalize(y, 3, 3) == (y, 3, 3);
    assert Normalize(y, 2, 31) == Normalize(y, 3, 3);
  }

  /** MakeDay(year, month, date) of section 21.4.1.28: `month` is zero-based and, like `date`,
      may lie outside its usual range; whole years are carried out of `month` first. */
  function MakeDay(year: int, month: int, date: int): int {
    DaysFromCivil(year + month / 12, month % 12 + 1, 1) + date - 1
  }

  /** MakeTime(hour, min, sec, ms) of section 21.4.1.27, on integers. */
  function MakeTime(hour: int, min: int, sec: int, ms: int): int {
    hour * MsPerHour + min * MsPerMinute + sec * 1000 + ms
  }

  /** MakeDate(day, time) of section 21.4.1.29. */
  function MakeDate(day: int, time: int): int {
    day * MsPerDay + time
  }

  /** TimeClip(time) of section 21.4.1.31: NaN outside 10^8 days either side of the epoch.
      `new Date(ms)` of a number `ms` is TimeClip(ms). */
  function TimeClip(t: int): Option<int> {
    if -MaxTime <= t <= MaxTime then Some(t) else None
  }

  /** The calendar date MakeDay lands on: `month` and `date` outside their ranges roll over
      into later or earlier months and years. */
  function CalendarDate(year: int, month: int, date: int): (r: (int, int, int))
    ensures IsValidDate(r.0, r.1, r.2)
    ensures DaysFromCivil(r.0, r.1, r.2) == MakeDay(year, month, date)
  {
    Normalize(year + month / 12, month % 12 + 1, date)
  }

  /** `new Date(year, monthIndex, day, hours, minutes)` on a host whose local time is UTC plus
      `offset` milliseconds (section 21.4.2.1): NaN when any argument is NaN; years 0 to 99
      mean 1900 to 1999; the local moment is converted to UTC and clipped. */
  function ConstructDate(year: Option<int>, monthIndex: Option<int>, day: Option<int>,
                         hours: Option<int>, minutes: Option<int>, offset: int): (t: Option<int>)
    ensures t.Some? ==> -MaxTime <= t.value <= MaxTime
  {
    if year.None? || monthIndex.None? || day.None? || hours.None? || minutes.None? then None
    else
      TimeClip(LocalTime(FullYear(year.value), monthIndex.value, day.value, hours.value, minutes.value) - offset)
  }

  /** The year `new Date` uses for a year argument: 0 to 99 mean 1900 to 1999. */
  function FullYear(y: int): int {
    if 0 <= y <= 99 then 1900 + y else y
  }

  /** The local time value MakeDate(MakeDay(..), MakeTime(..)) of a date and time of day. */
  function LocalTime(year: int, month: int, date: int, hours: int, minutes: int): int {
    MakeDate(MakeDay(year, month, date), MakeTime(hours, minutes, 0, 0))
  }

  /** Within a year, the month index counts from zero and the date from one. */
  lemma MakeDayOfMonth(year: int, month: int, date: int)
    requires 1 <= month <= 12
    ensures MakeDay(year, month - 1, date) == DaysFromCivil(year, month, 1) + date - 1
  {
    DivMod(month - 1, 12, 0, month - 1);
  }

  /** Overflowing fields are carried, never rejected: the local time of any fields equals that
      of the valid date CalendarDate gives, at the hour and minute that remain once whole days
      are carried out of the time of day. */
  lemma {:induction false} LocalTimeNormalises(year: int, month: int, date: int, hours: int, minutes: int)
    ensures var t := MakeTime(hours, minutes, 0, 0);
            var (y, m, d) := CalendarDate(year, month, date + t / MsPerDay);
            var rest := t % MsPerDay;
            && IsValidDate(y, m, d)
            && 0 <= rest / MsPerHour < 24 && 0 <= rest % MsPerHour / MsPerMinute < 60
            && LocalTime(year, month, date, hours, minutes)
               == LocalTime(y, m - 1, d, rest / MsPerHour, rest % MsPerHour / MsPerMinute)
  {
    var t := MakeTime(hours, minutes, 0, 0);
    var (y, m, d) := CalendarDate(year, month, date + t / MsPerDay);
    var c := hours * 60 + minutes;
    var k := c % 1440;
    DivMod(t, MsPerDay, c / 1440, MsPerMinute * k);
    DivMod(MsPerMinute * k, MsPerHour, k / 60, MsPerMinute * (k % 60));
    DivMod(MsPerMinute * (k % 60), MsPerMinute, k % 60, 0);
    MakeDayOfMonth(y, m, d);
  }

  /** A day of the month beyond the month's length is that many days into the next month. */
  lemma DayOverflowRollsIntoNextMonth(y: int, m: int, d: int)
    requires 1 <= m <= 12 && d > DaysInMonth(y, m)
    ensures var (ny, nm) := NextMonth(y, m);
            MakeDay(y, m - 1, d) == MakeDay(ny, nm - 1, d - DaysInMonth(y, m))
  {
    MonthLength(y, m);
    var (ny, nm) := NextMonth(y, m);
    MakeDayOfMonth(y, m, d);
    MakeDayOfMonth(ny, nm, d - DaysInMonth(y, m));
  }

  /** A month index beyond December is that many months into the following year. */
  lemma MonthOverflowRollsIntoNextYear(y: int, month: int, d: int)
    ensures MakeDay(y, month + 12, d) == MakeDay(y + 1, month, d)
  {
    DivMod(month + 12, 12, month / 12 + 1, month % 12);
  }
}
