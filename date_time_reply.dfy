/**
 * The date/time reply parser of the booking flow (chatbot.js:80-92): a reply such as
 * `25/12/2025 15:00` becomes a one-hour slot of time values. The reply is split on single
 * spaces, the first word on `/` and the second on `:`; each of the five fields must be a
 * non-empty string; each goes through `parseInt`; and `new Date(year, month - 1, day, hour,
 * minute)` combines them. Only a NaN time value is rejected: out-of-range days, months,
 * hours and minutes roll over.
 */
module DateTimeReply {
  import opened Wrappers
  import opened JsStrings
  import opened JsDate

  /** A booking slot: start and end time values. The end is `new Date(start + 1 h)`, which is
      NaN (`None`) when it falls beyond the last representable moment. */
  datatype Slot = Slot(start: int, end: Option<int>)

  /** The five textual fields of a reply. */
  datatype Fields = Fields(day: string, month: string, year: string, hour: string, minute: string)

  /** Every booking lasts `60 * 60 * 1000` milliseconds. */
  const BookingLength := MsPerHour

  /** Element `i` of an array destructuring as the truth test `!x` sees it: absent when the array
      is too short (`undefined`) and when the element is the empty string. */
  function Field(parts: seq<string>, i: nat): Option<string> {
    if i < |parts| && parts[i] != "" then Some(parts[i]) else None
  }

  /** Lines 80-86: the five fields of a reply, or `None` for either "invalid format" error. */
  function SplitReply(text: string): (r: Option<Fields>)
    ensures r.Some? ==> r.value.day != "" && r.value.month != "" && r.value.year != ""
                         && r.value.hour != "" && r.value.minute != ""
  {
    var words := Split(text, ' ');
    var datePart := Field(words, 0);
    var timePart := Field(words, 1);
    if datePart.None? || timePart.None? then None
    else
      var date := Split(datePart.value, '/');
      var time := Split(timePart.value, ':');
      var day, month, year := Field(date, 0), Field(date, 1), Field(date, 2);
      var hour, minute := Field(time, 0), Field(time, 1);
      if day.None? || month.None? || year.None? || hour.None? || minute.None? then None
      else Some(Fields(day.value, month.value, year.value, hour.value, minute.value))
  }

  /** `parseInt(month) - 1`: NaN stays NaN. */
  function MonthIndex(month: Option<int>): Option<int> {
    match month
    case None => None
    case Some(m) => Some(m - 1)
  }

  /** Lines 80-92: the slot a reply asks for, or `None` wherever the source throws. `offset`
      is the host's local time minus UTC, in milliseconds. */
  function Parse(text: string, offset: int): (r: Option<Slot>)
    ensures r.Some? ==> SplitReply(text).Some?
    ensures r.Some? ==> -MaxTime <= r.value.start <= MaxTime
    ensures r.Some? ==> (r.value.end.Some? <==> r.value.start <= MaxTime - BookingLength)
    ensures r.Some? && r.value.end.Some? ==> r.value.end.value - r.value.start == BookingLength
  {
    match SplitReply(text)
    case None => None
    case Some(f) => SlotFrom(StartTime(ReadNumbers(f), offset))
  }

  /** The five fields after `parseInt`; `None` is NaN. */
  datatype Numbers = Numbers(day: Option<int>, month: Option<int>, year: Option<int>,
                             hour: Option<int>, minute: Option<int>)

  function ReadNumbers(f: Fields): Numbers {
    Numbers(ParseInt(f.day), ParseInt(f.month), ParseInt(f.year), ParseInt(f.hour), ParseInt(f.minute))
  }

  /** Line 88: `new Date(parseInt(year), parseInt(month) - 1, parseInt(day), parseInt(hour),
      parseInt(minute))`, as a time value. */
  function StartTime(n: Numbers, offset: int): (t: Option<int>)
    ensures t.Some? ==> -MaxTime <= t.value <= MaxTime
  {
    ConstructDate(n.year, MonthIndex(n.month), n.day, n.hour, n.minute, offset)
  }

  /** The slot of one `BookingLength` from `start`, with both ends representable. */
  function Booked(start: int): Option<Slot> {
    Some(Slot(start, Some(start + BookingLength)))
  }

  /** Lines 90-92: NaN is rejected; otherwise the slot runs from the start to
      `new Date(start + 60 * 60 * 1000)`. */
  function SlotFrom(start: Option<int>): Option<Slot> {
    if start.None? then None
    else Some(Slot(start.value, TimeClip(start.value + BookingLength)))
  }

  // ---------------------------------------------------------------------------------------
  // Rejections

  /** A reply without a space has no time word and is rejected. */
  lemma NoTimeWordRejected(text: string, offset: int)
    requires ' ' !in text
    ensures Parse(text, offset) == None
  {
    assert SplitReply(text) == None by {
      assert Split(text, ' ') == [text];
    }
  }

  /** A reply that starts with a space has an empty date word and is rejected. */
  lemma LeadingSpaceRejected(rest: string, offset: int)
    ensures Parse([' '] + rest, offset) == None
  {
    assert SplitReply([' '] + rest) == None by {
      SplitAt("", ' ', rest);
      assert "" + [' '] + rest == [' '] + rest;
      assert Split([' '] + rest, ' ')[0] == "";
    }
  }

  /** Two spaces in a row after the date word leave an empty second word: rejected. */
  lemma DoubleSpaceRejected(date: string, rest: string, offset: int)
    requires ' ' !in date
    ensures Parse(date + "  " + rest, offset) == None
  {
    var text := date + "  " + rest;
    assert SplitReply(text) == None by {
      assert text == date + [' '] + ([' '] + rest);
      SplitAt(date, ' ', [' '] + rest);
      SplitAt("", ' ', rest);
      assert "" + [' '] + rest == [' '] + rest;
      assert Split(text, ' ')[1] == "";
    }
  }

  /** A date word with fewer than two slashes has no year field: rejected. */
  lemma MissingYearRejected(day: string, month: string, time: string, offset: int)
    requires '/' !in day && '/' !in month && ' ' !in day && ' ' !in month && ' ' !in time
    ensures Parse(day + "/" + month + " " + time, offset) == None
  {
    var date := day + "/" + month;
    var text := date + " " + time;
    assert SplitReply(text) == None by {
      assert ' ' !in date;
      SplitAt(date, ' ', time);
      assert Split(time, ' ') == [time];
      assert Split(text, ' ') == [date, time];
      SplitAt(day, '/', month);
      assert Split(month, '/') == [month];
      assert Split(date, '/') == [day, month];
    }
  }

  /** A time word without a colon has no minute field: rejected. */
  lemma MissingMinuteRejected(date: string, hour: string, offset: int)
    requires ' ' !in date && ' ' !in hour && ':' !in hour
    ensures Parse(date + " " + hour, offset) == None
  {
    var text := date + " " + hour;
    assert SplitReply(text) == None by {
      SplitAt(date, ' ', hour);
      assert Split(hour, ' ') == [hour];
      assert Split(text, ' ') == [date, hour];
      assert Split(hour, ':') == [hour];
    }
  }

  /** Any reply, written as its space-separated words: the first word made of `/`-separated
      pieces `dp`, the second of `:`-separated pieces `tp`, then any further words `ws`. It is
      accepted exactly when the first three pieces of `dp` and the first two of `tp` exist and
      are non-empty, and then they are the five fields: further pieces and words are ignored,
      and an empty piece anywhere among the five (`/12/2025 10:00`, `25//2025 10:00`,
      `25/12/2025 10:`, `25/12/2025 ` with nothing after the space) rejects the reply. */
  lemma SplitReplyOfJoin(dp: seq<string>, tp: seq<string>, ws: seq<string>)
    requires |dp| >= 1 && |tp| >= 1
    requires forall i :: 0 <= i < |dp| ==> '/' !in dp[i] && ' ' !in dp[i]
    requires forall i :: 0 <= i < |tp| ==> ':' !in tp[i] && ' ' !in tp[i]
    requires forall i :: 0 <= i < |ws| ==> ' ' !in ws[i]
    ensures SplitReply(Join([Join(dp, '/'), Join(tp, ':')] + ws, ' '))
         == if |dp| >= 3 && |tp| >= 2 && dp[0] != "" && dp[1] != "" && dp[2] != "" && tp[0] != "" && tp[1] != ""
            then Some(Fields(dp[0], dp[1], dp[2], tp[0], tp[1]))
            else None
  {
    var date, time := Join(dp, '/'), Join(tp, ':');
    var words := [date, time] + ws;
    JoinAvoids(dp, '/', ' ');
    JoinAvoids(tp, ':', ' ');
    forall i | 0 <= i < |words|
      ensures ' ' !in words[i]
    {
      if i >= 2 {
        assert words[i] == ws[i - 2];
      }
    }
    SplitJoin(words, ' ');
    SplitJoin(dp, '/');
    SplitJoin(tp, ':');
    SplitReplyOfParts(Join(words, ' '), date, time, ws, dp, tp);
  }

  /** SplitReply of a text whose words and pieces are known. */
  lemma SplitReplyOfParts(text: string, date: string, time: string, ws: seq<string>,
                          dp: seq<string>, tp: seq<string>)
    requires Split(text, ' ') == [date, time] + ws
    requires Split(date, '/') == dp && Split(time, ':') == tp
    ensures SplitReply(text)
         == if |dp| >= 3 && |tp| >= 2 && dp[0] != "" && dp[1] != "" && dp[2] != "" && tp[0] != "" && tp[1] != ""
            then Some(Fields(dp[0], dp[1], dp[2], tp[0], tp[1]))
            else None
  {
    var words := [date, time] + ws;
    assert Field(words, 0) == if date == "" then None else Some(date);
    assert Field(words, 1) == if time == "" then None else Some(time);
    if date == "" {
      assert dp == [""];
    } else if time == "" {
      assert tp == [""];
    }
  }

  /** Once all five fields are present, the reply is rejected exactly when `new Date(..)`
      is NaN; `StartTimeNaN` says when that is. */
  lemma PresentFieldsRejectedOnlyIfNaN(text: string, offset: int)
    requires SplitReply(text).Some?
    ensures Parse(text, offset).None? <==> StartTime(ReadNumbers(SplitReply(text).value), offset).None?
  {
    var f := SplitReply(text).value;
    ParseOf(text, f, offset);
    SlotFromNaN(StartTime(ReadNumbers(f), offset));
  }

  lemma SlotFromNaN(t: Option<int>)
    ensures SlotFrom(t).None? <==> t.None?
  {
  }

  /** `new Date(..)` is NaN exactly when an argument is NaN or the moment is out of range. */
  lemma StartTimeNaN(n: Numbers, offset: int)
    ensures StartTime(n, offset).None? <==>
              || n.day.None? || n.month.None? || n.year.None? || n.hour.None? || n.minute.None?
              || !(-MaxTime <= LocalTime(FullYear(n.year.value), n.month.value - 1, n.day.value,
                                         n.hour.value, n.minute.value) - offset <= MaxTime)
  {
  }

  // ---------------------------------------------------------------------------------------
  // Replies in the documented format `DD/MM/YYYY HH:MM`

  /** A reply in the documented format, every field zero-padded. */
  function Format(d: nat, m: nat, y: nat, h: nat, mi: nat): string {
    Digits(d, 2) + "/" + Digits(m, 2) + "/" + Digits(y, 4) + " " + Digits(h, 2) + ":" + Digits(mi, 2)
  }

  lemma NoSeparatorInDigits(n: nat, w: nat, c: char)
    requires !('0' <= c <= '9')
    ensures c !in Digits(n, w)
  {
    DigitsAreDecimal(n, w);
    var s := Digits(n, w);
    assert forall i :: 0 <= i < |s| ==> s[i] != c;
  }

  /** A date word with two slashes splits into its three fields. */
  lemma SplitDateWord(dd: string, mm: string, yy: string)
    requires '/' !in dd && '/' !in mm && '/' !in yy
    ensures Split(dd + "/" + mm + "/" + yy, '/') == [dd, mm, yy]
  {
    assert dd + "/" + mm + "/" + yy == dd + ['/'] + (mm + ['/'] + yy);
    SplitAt(dd, '/', mm + ['/'] + yy);
    SplitAt(mm, '/', yy);
    assert Split(yy, '/') == [yy];
  }

  /** Two separator-free pieces around one separator split into those two pieces. */
  lemma SplitTwo(a: string, sep: char, b: string)
    requires sep !in a && sep !in b
    ensures Split(a + [sep] + b, sep) == [a, b]
  {
    SplitAt(a, sep, b);
    assert Split(b, sep) == [b];
  }

  /** A reply whose words and fields split cleanly yields those fields. */
  lemma SplitReplyOf(text: string, date: string, time: string,
                     dd: string, mm: string, yy: string, hh: string, nn: string)
    requires Split(text, ' ') == [date, time] && date != "" && time != ""
    requires Split(date, '/') == [dd, mm, yy] && Split(time, ':') == [hh, nn]
    requires dd != "" && mm != "" && yy != "" && hh != "" && nn != ""
    ensures SplitReply(text) == Some(Fields(dd, mm, yy, hh, nn))
  {
  }

  /** A formatted reply splits into exactly its five numerals. */
  lemma FormatSplits(d: nat, m: nat, y: nat, h: nat, mi: nat)
    ensures SplitReply(Format(d, m, y, h, mi))
         == Some(Fields(Digits(d, 2), Digits(m, 2), Digits(y, 4), Digits(h, 2), Digits(mi, 2)))
  {
    var dd, mm, yy, hh, nn := Digits(d, 2), Digits(m, 2), Digits(y, 4), Digits(h, 2), Digits(mi, 2);
    NoSeparatorInDigits(d, 2, ' '); NoSeparatorInDigits(m, 2, ' '); NoSeparatorInDigits(y, 4, ' ');
    NoSeparatorInDigits(h, 2, ' '); NoSeparatorInDigits(mi, 2, ' ');
    NoSeparatorInDigits(d, 2, '/'); NoSeparatorInDigits(m, 2, '/'); NoSeparatorInDigits(y, 4, '/');
    NoSeparatorInDigits(h, 2, ':'); NoSeparatorInDigits(mi, 2, ':');
    var date := dd + "/" + mm + "/" + yy;
    var time := hh + ":" + nn;
    var text := Format(d, m, y, h, mi);
    assert text == date + [' '] + time;
    SplitTwo(date, ' ', time);
    SplitDateWord(dd, mm, yy);
    assert time == hh + [':'] + nn;
    SplitTwo(hh, ':', nn);
    SplitReplyOf(text, date, time, dd, mm, yy, hh, nn);
  }

  /** Local time values of four-digit years 100 to 9999 with two-digit fields lie far inside
      TimeClip's range. */
  lemma FormattedLocalTimeBounds(y: int, month: int, d: int, h: int, mi: int)
    requires 100 <= y <= 9999 && -1 <= month <= 98 && 0 <= d <= 99 && 0 <= h <= 99 && 0 <= mi <= 99
    ensures -100_000_000_000_000 <= LocalTime(y, month, d, h, mi) <= 1_000_000_000_000_000
  {
    var year := y + month / 12;
    assert 99 <= year <= 10_008;
    var days := MakeDay(y, month, d);
    assert -1_000_000 <= days <= 4_000_000;
  }

  /** Every reply in the documented format is accepted: its slot starts at the local moment the
      fields name (years 0 to 99 read as 1900 to 1999, other fields rolled over by MakeDay) and
      ends exactly one hour later. */
  lemma {:induction false} FormattedReplyAccepted(d: nat, m: nat, y: nat, h: nat, mi: nat, offset: int)
    requires d < 100 && m < 100 && y < 10_000 && h < 100 && mi < 100
    requires -MsPerDay <= offset <= MsPerDay
    ensures Parse(Format(d, m, y, h, mi), offset) == Booked(LocalTime(FullYear(y), m - 1, d, h, mi) - offset)
  {
    var f := Fields(Digits(d, 2), Digits(m, 2), Digits(y, 4), Digits(h, 2), Digits(mi, 2));
    FormatSplits(d, m, y, h, mi);
    ParseOf(Format(d, m, y, h, mi), f, offset);
    FormattedNumbers(d, m, y, h, mi);
    FormattedInRange(d, m, y, h, mi, offset);
    StartTimeOf(d, m, y, h, mi, offset);
    SlotFromOf(LocalTime(FullYear(y), m - 1, d, h, mi) - offset);
  }

  lemma FormattedNumbers(d: nat, m: nat, y: nat, h: nat, mi: nat)
    requires d < 100 && m < 100 && y < 10_000 && h < 100 && mi < 100
    ensures ReadNumbers(Fields(Digits(d, 2), Digits(m, 2), Digits(y, 4), Digits(h, 2), Digits(mi, 2)))
         == Numbers(Some(d), Some(m), Some(y), Some(h), Some(mi))
  {
    var f := Fields(Digits(d, 2), Digits(m, 2), Digits(y, 4), Digits(h, 2), Digits(mi, 2));
    ParseIntDigits(d, 2);
    ParseIntDigits(m, 2);
    ParseIntDigits(y, 4);
    ParseIntDigits(h, 2);
    ParseIntDigits(mi, 2);
    ReadNumbersOf(f, d, m, y, h, mi);
  }

  lemma FormattedInRange(d: nat, m: nat, y: nat, h: nat, mi: nat, offset: int)
    requires d < 100 && m < 100 && y < 10_000 && h < 100 && mi < 100
    requires -MsPerDay <= offset <= MsPerDay
    ensures -MaxTime <= LocalTime(FullYear(y), m - 1, d, h, mi) - offset <= MaxTime - BookingLength
  {
    FormattedLocalTimeBounds(FullYear(y), m - 1, d, h, mi);
  }

  lemma ParseOf(text: string, f: Fields, offset: int)
    requires SplitReply(text) == Some(f)
    ensures Parse(text, offset) == SlotFrom(StartTime(ReadNumbers(f), offset))
  {
  }

  lemma ReadNumbersOf(f: Fields, d: int, m: int, y: int, h: int, mi: int)
    requires ParseInt(f.day) == Some(d) && ParseInt(f.month) == Some(m) && ParseInt(f.year) == Some(y)
    requires ParseInt(f.hour) == Some(h) && ParseInt(f.minute) == Some(mi)
    ensures ReadNumbers(f) == Numbers(Some(d), Some(m), Some(y), Some(h), Some(mi))
  {
  }

  lemma StartTimeOf(d: int, m: int, y: int, h: int, mi: int, offset: int)
    requires -MaxTime <= LocalTime(FullYear(y), m - 1, d, h, mi) - offset <= MaxTime
    ensures StartTime(Numbers(Some(d), Some(m), Some(y), Some(h), Some(mi)), offset)
         == Some(LocalTime(FullYear(y), m - 1, d, h, mi) - offset)
  {
    assert MonthIndex(Some(m)) == Some(m - 1);
  }

  lemma SlotFromOf(start: int)
    requires -MaxTime <= start <= MaxTime - BookingLength
    ensures SlotFrom(Some(start)) == Booked(start)
  {
    assert TimeClip(start + BookingLength) == Some(start + BookingLength);
  }
}
