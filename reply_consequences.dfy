/**
 * Consequences of the date/time reply parser for particular kinds of reply: two-digit years and
 * days past the end of their month.
 */
module ReplyConsequences {
  import opened Wrappers
  import opened JsStrings
  import opened JsDate
  import opened DateTimeReply

  /** A reply like the documented format but with the year written in two digits,
      `DD/MM/YY HH:MM`. */
  function ShortYearReply(d: nat, m: nat, y: nat, h: nat, mi: nat): string {
    Digits(d, 2) + "/" + Digits(m, 2) + "/" + Digits(y, 2) + " " + Digits(h, 2) + ":" + Digits(mi, 2)
  }

  /** A two-digit-year reply splits into exactly its five numerals. */
  lemma ShortYearSplits(d: nat, m: nat, y: nat, h: nat, mi: nat)
    ensures SplitReply(ShortYearReply(d, m, y, h, mi))
         == Some(Fields(Digits(d, 2), Digits(m, 2), Digits(y, 2), Digits(h, 2), Digits(mi, 2)))
  {
    var dd, mm, yy, hh, nn := Digits(d, 2), Digits(m, 2), Digits(y, 2), Digits(h, 2), Digits(mi, 2);
    NoSeparatorInDigits(d, 2, ' '); NoSeparatorInDigits(m, 2, ' '); NoSeparatorInDigits(y, 2, ' ');
    NoSeparatorInDigits(h, 2, ' '); NoSeparatorInDigits(mi, 2, ' ');
    NoSeparatorInDigits(d, 2, '/'); NoSeparatorInDigits(m, 2, '/'); NoSeparatorInDigits(y, 2, '/');
    NoSeparatorInDigits(h, 2, ':'); NoSeparatorInDigits(mi, 2, ':');
    var date := dd + "/" + mm + "/" + yy;
    var time := hh + ":" + nn;
    var text := ShortYearReply(d, m, y, h, mi);
    assert text == date + [' '] + time;
    SplitTwo(date, ' ', time);
    SplitDateWord(dd, mm, yy);
    assert time == hh + [':'] + nn;
    SplitTwo(hh, ':', nn);
    SplitReplyOf(text, date, time, dd, mm, yy, hh, nn);
  }

  /** The five numerals of a two-digit-year reply read back as the numbers written. */
  lemma ShortYearNumbers(d: nat, m: nat, y: nat, h: nat, mi: nat)
    requires d < 100 && m < 100 && y < 100 && h < 100 && mi < 100
    ensures ReadNumbers(Fields(Digits(d, 2), Digits(m, 2), Digits(y, 2), Digits(h, 2), Digits(mi, 2)))
         == Numbers(Some(d), Some(m), Some(y), Some(h), Some(mi))
  {
    var f := Fields(Digits(d, 2), Digits(m, 2), Digits(y, 2), Digits(h, 2), Digits(mi, 2));
    ParseIntDigits(d, 2);
    ParseIntDigits(m, 2);
    ParseIntDigits(y, 2);
    ParseIntDigits(h, 2);
    ParseIntDigits(mi, 2);
    ReadNumbersOf(f, d, m, y, h, mi);
  }

  /** `DD/MM/YY HH:MM` is accepted, and its two-digit year `YY` is the year 1900 + YY: the slot
      starts at that local moment minus the UTC offset and ends one hour later. */
  lemma {:induction false} ShortYearIsTwentiethCentury(d: nat, m: nat, y: nat, h: nat, mi: nat, offset: int)
    requires d < 100 && m < 100 && y < 100 && h < 100 && mi < 100
    requires -MsPerDay <= offset <= MsPerDay
    ensures Parse(ShortYearReply(d, m, y, h, mi), offset) == Booked(LocalTime(1900 + y, m - 1, d, h, mi) - offset)
  {
    var f := Fields(Digits(d, 2), Digits(m, 2), Digits(y, 2), Digits(h, 2), Digits(mi, 2));
    assert FullYear(y) == 1900 + y;
    ShortYearSplits(d, m, y, h, mi);
    ParseOf(ShortYearReply(d, m, y, h, mi), f, offset);
    ShortYearNumbers(d, m, y, h, mi);
    FormattedInRange(d, m, y, h, mi, offset);
    StartTimeOf(d, m, y, h, mi, offset);
    SlotFromOf(LocalTime(1900 + y, m - 1, d, h, mi) - offset);
  }

  /** A year written with four digits from `0000` to `0099` is a year of the 1900s as well. */
  lemma TwoDigitYearIsTwentiethCentury(d: nat, m: nat, y: nat, h: nat, mi: nat, offset: int)
    requires d < 100 && m < 100 && y < 100 && h < 100 && mi < 100
    requires -MsPerDay <= offset <= MsPerDay
    ensures Parse(Format(d, m, y, h, mi), offset) == Booked(LocalTime(FullYear(y), m - 1, d, h, mi) - offset)
    ensures FullYear(y) == 1900 + y
  {
    FormattedReplyAccepted(d, m, y, h, mi, offset);
  }

  /** A day past the end of its month is not rejected: the slot starts at the same time on
      the corresponding day of the next month. */
  lemma OverflowingDayRollsOver(d: nat, m: nat, y: nat, h: nat, mi: nat, offset: int)
    requires 1 <= m <= 12 && 100 <= y < 10_000 && DaysInMonth(y, m) < d < 100 && h < 100 && mi < 100
    requires -MsPerDay <= offset <= MsPerDay
    ensures Parse(Format(d, m, y, h, mi), offset) == Booked(LocalTime(FullYear(y), m - 1, d, h, mi) - offset)
    ensures var (ny, nm) := NextMonth(y, m);
            LocalTime(FullYear(y), m - 1, d, h, mi) == LocalTime(ny, nm - 1, d - DaysInMonth(y, m), h, mi)
  {
    DayOverflowRollsIntoNextMonth(y, m, d);
    FormattedReplyAccepted(d, m, y, h, mi, offset);
  }

  /** `31/02/YYYY HH:MM` of a common year books 3 March at that time (`d` and `m` are the
      day 31 and the month 2 of the reply). */
  lemma FebruaryThirtyFirst(d: nat, m: nat, y: nat, h: nat, mi: nat, offset: int)
    requires d == 31 && m == 2 && 100 <= y < 10_000 && !IsLeapYear(y) && h < 100 && mi < 100
    requires -MsPerDay <= offset <= MsPerDay
    ensures Parse(Format(d, m, y, h, mi), offset) == Booked(LocalTime(FullYear(y), m - 1, d, h, mi) - offset)
    ensures LocalTime(FullYear(y), m - 1, d, h, mi) == LocalTime(y, 2, 3, h, mi)
    ensures CalendarDate(y, m - 1, d) == (y, 3, 3)
  {
    assert DaysInMonth(y, m) == 28 && NextMonth(y, m) == (y, 3);
    OverflowingDayRollsOver(d, m, y, h, mi, offset);
    FebruaryThirtyFirstIsMarchThird(y);
  }
}
