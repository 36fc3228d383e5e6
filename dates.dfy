/**
 * The reporting window: today and the day 89 days earlier, both written
 * as YYYY-MM-DD. Dates are proleptic Gregorian, years 1 to 9999; a day is
 * measured by its ordinal, 0001-01-01 being day 1.
 */
module Dates {
  import opened Wrappers

  datatype Date = Date(year: int, month: int, day: int)

  predicate IsLeapYear(year: int) {
    year % 4 == 0 && (year % 100 != 0 || year % 400 == 0)
  }

  function DaysInYear(year: int): int {
    if IsLeapYear(year) then 366 else 365
  }

  function DaysInMonth(year: int, month: int): int {
    if month == 2 then (if IsLeapYear(year) then 29 else 28)
    else if month == 4 || month == 6 || month == 9 || month == 11 then 30
    else 31
  }

  /** Days in the months of the year before `month` (1 to 13). */
  function DaysBeforeMonth(year: int, month: int): int
    requires 1 <= month <= 13
  {
    (if month == 13 then 365 else [0, 31, 59, 90, 120, 151, 181, 212, 243, 273, 304, 334][month - 1])
    + (if month > 2 && IsLeapYear(year) then 1 else 0)
  }

  predicate ValidDate(d: Date) {
    1 <= d.year <= 9999 && 1 <= d.month <= 12 && 1 <= d.day <= DaysInMonth(d.year, d.month)
  }

  /** A calendar day, as a date value always is. */
  type Day = d: Date | ValidDate(d) witness Date(1, 1, 1)

  /** Days in the years before `year`. */
  function DaysBeforeYear(year: int): int
    requires year >= 1
  {
    var p := year - 1;
    p * 365 + p / 4 - p / 100 + p / 400
  }

  /** The day's number counted from 0001-01-01, which is day 1. */
  function ToOrdinal(d: Day): int {
    DaysBeforeYear(d.year) + DaysBeforeMonth(d.year, d.month) + d.day
  }

  /** Chronological order. */
  predicate Before(a: Date, b: Date) {
    a.year < b.year || (a.year == b.year && (a.month < b.month || (a.month == b.month && a.day < b.day)))
  }

  /** The day before, or None before 0001-01-01. */
  function PrevDay(d: Day): Option<Day> {
    if d.day > 1 then Some(Date(d.year, d.month, d.day - 1))
    else if d.month > 1 then Some(Date(d.year, d.month - 1, DaysInMonth(d.year, d.month - 1)))
    else if d.year > 1 then Some(Date(d.year - 1, 12, 31))
    else None
  }

  /** `d - timedelta(days=k)`: None when that is before the first representable day. */
  function DaysBefore(d: Day, k: nat): Option<Day>
    decreases k
  {
    if k == 0 then Some(d)
    else
      match PrevDay(d)
      case None => None
      case Some(p) => DaysBefore(p, k - 1)
  }

  /** A year has as many days as its twelve months. */
  lemma MonthsFillYear(year: int, month: int)
    requires 1 <= month <= 12
    ensures DaysBeforeMonth(year, month) + DaysInMonth(year, month) == DaysBeforeMonth(year, month + 1)
    ensures DaysBeforeMonth(year, 13) == DaysInYear(year)
    ensures 0 <= DaysBeforeMonth(year, month)
  {
  }

  /** From one year to the next the count grows by the length of the earlier year. */
  lemma DaysBeforeNextYear(year: int)
    requires year >= 1
    ensures DaysBeforeYear(year + 1) == DaysBeforeYear(year) + DaysInYear(year)
  {
    var p := year - 1;
    assert year / 4 == p / 4 + (if year % 4 == 0 then 1 else 0);
    assert year / 100 == p / 100 + (if year % 100 == 0 then 1 else 0);
    assert year / 400 == p / 400 + (if year % 400 == 0 then 1 else 0);
  }

  /** Later years start later. */
  lemma {:induction false} DaysBeforeYearMonotone(a: int, b: int)
    requires 1 <= a <= b
    ensures DaysBeforeYear(a) + 365 * (b - a) <= DaysBeforeYear(b)
    decreases b - a
  {
    if a < b {
      DaysBeforeYearMonotone(a, b - 1);
      DaysBeforeNextYear(b - 1);
    }
  }

  /** A day's ordinal lies within its year. */
  lemma OrdinalInYear(d: Day)
    ensures DaysBeforeYear(d.year) < ToOrdinal(d) <= DaysBeforeYear(d.year + 1)
  {
    MonthsFillYear(d.year, d.month);
    assert DaysBeforeMonth(d.year, d.month + 1) <= DaysBeforeMonth(d.year, 13);
    DaysBeforeNextYear(d.year);
  }

  /** The ordinal follows the calendar: an earlier day has a smaller number. */
  lemma OrdinalOrder(a: Day, b: Day)
    requires Before(a, b)
    ensures ToOrdinal(a) < ToOrdinal(b)
  {
    if a.year < b.year {
      OrdinalInYear(a);
      OrdinalInYear(b);
      DaysBeforeYearMonotone(a.year + 1, b.year);
    } else if a.month < b.month {
      MonthsFillYear(a.year, a.month);
      assert DaysBeforeMonth(a.year, a.month + 1) <= DaysBeforeMonth(a.year, b.month);
    }
  }

  /** Different days have different ordinals. */
  lemma OrdinalInjective(a: Day, b: Day)
    requires ToOrdinal(a) == ToOrdinal(b)
    ensures a == b
  {
    if Before(a, b) {
      OrdinalOrder(a, b);
    } else if Before(b, a) {
      OrdinalOrder(b, a);
    }
  }

  /** 0001-01-01 is day 1 and every later day has a larger number. */
  lemma OrdinalPositive(d: Day)
    ensures ToOrdinal(d) >= 1
    ensures d != Date(1, 1, 1) ==> ToOrdinal(d) > 1
  {
    DaysBeforeYearMonotone(1, d.year);
    assert DaysBeforeYear(1) == 0;
    MonthsFillYear(d.year, d.month);
    if d.month > 1 {
      assert DaysBeforeMonth(d.year, d.month) >= 31;
    }
  }

  /** Stepping back one day lowers the ordinal by one; only 0001-01-01 has no day before it. */
  lemma PrevDayOrdinal(d: Day)
    ensures PrevDay(d).None? <==> ToOrdinal(d) == 1
    ensures PrevDay(d).Some? ==> ToOrdinal(PrevDay(d).value) == ToOrdinal(d) - 1
  {
    OrdinalPositive(d);
    if d.day == 1 && d.month > 1 {
      MonthStartOrdinal(d);
    } else if d.day == 1 && d.year > 1 {
      YearStartOrdinal(d);
    }
  }

  /** The last day of the previous month is the day before the first of a month. */
  lemma MonthStartOrdinal(d: Day)
    requires d.day == 1 && d.month > 1
    ensures PrevDay(d).Some? && ToOrdinal(PrevDay(d).value) + 1 == ToOrdinal(d)
  {
    MonthsFillYear(d.year, d.month - 1);
  }

  /** December 31st is the day before the next year's January 1st. */
  lemma YearStartOrdinal(d: Day)
    requires d.day == 1 && d.month == 1 && d.year > 1
    ensures PrevDay(d).Some? && ToOrdinal(PrevDay(d).value) + 1 == ToOrdinal(d)
  {
    var y := d.year - 1;
    DaysBeforeNextYear(y);
    MonthsFillYear(y, 12);
    assert PrevDay(d).value == Date(y, 12, 31);
    assert ToOrdinal(Date(y, 12, 31)) == DaysBeforeYear(y) + DaysInYear(y);
    assert ToOrdinal(d) == DaysBeforeYear(y + 1) + 1;
  }

  /**
   * Going back k days succeeds exactly when the day is more than k days
   * after the start of the calendar, and lands on the day whose ordinal
   * is k less.
   */
  lemma {:induction false} DaysBeforeOrdinal(d: Day, k: nat)
    ensures DaysBefore(d, k).Some? <==> ToOrdinal(d) > k
    ensures DaysBefore(d, k).Some? ==> ToOrdinal(DaysBefore(d, k).value) == ToOrdinal(d) - k
    decreases k
  {
    if k == 0 {
      OrdinalPositive(d);
    } else {
      PrevDayOrdinal(d);
      if PrevDay(d).Some? {
        DaysBeforeOrdinal(PrevDay(d).value, k - 1);
      }
    }
  }

  predicate IsDigit(c: char) {
    '0' <= c <= '9'
  }

  function DigitChar(n: int): char
    requires 0 <= n <= 9
  {
    (48 + n) as char
  }

  function DigitValue(c: char): int
    requires IsDigit(c)
  {
    c as int - 48
  }

  /** `n` in decimal with exactly two digits, leading zero included (strftime's %m and %d). */
  function Pad2(n: int): string
    requires 0 <= n < 100
  {
    [DigitChar(n / 10), DigitChar(n % 10)]
  }

  /** `n` in decimal with exactly four digits, leading zeros included (%Y). */
  function Pad4(n: int): string
    requires 0 <= n < 10000
  {
    Pad2(n / 100) + Pad2(n % 100)
  }

  /** `strftime("%Y-%m-%d")`. */
  function FormatDate(d: Day): (s: string)
    ensures |s| == 10 && s[4] == '-' && s[7] == '-'
    ensures forall i :: 0 <= i < 10 && i != 4 && i != 7 ==> IsDigit(s[i])
  {
    Pad4(d.year) + "-" + Pad2(d.month) + "-" + Pad2(d.day)
  }

  predicate AllDigits(s: string) {
    forall i :: 0 <= i < |s| ==> IsDigit(s[i])
  }

  /** The value of two decimal digits. */
  function Value2(s: string): int
    requires |s| == 2 && AllDigits(s)
  {
    10 * DigitValue(s[0]) + DigitValue(s[1])
  }

  /** The value of four decimal digits. */
  function Value4(s: string): int
    requires |s| == 4 && AllDigits(s)
  {
    100 * Value2(s[..2]) + Value2(s[2..])
  }

  /** Reads back a YYYY-MM-DD string; None unless it is one and names a calendar day. */
  function ParseDate(s: string): Option<Day> {
    if |s| == 10 && s[4] == '-' && s[7] == '-' && AllDigits(s[..4]) && AllDigits(s[5..7]) && AllDigits(s[8..]) then
      var d := Date(Value4(s[..4]), Value2(s[5..7]), Value2(s[8..]));
      if ValidDate(d) then Some(d) else None
    else None
  }

  /** Two digits read back and printed again give the same two characters, and conversely. */
  lemma Pad2Value(n: int)
    requires 0 <= n < 100
    ensures AllDigits(Pad2(n)) && Value2(Pad2(n)) == n
  {
  }

  lemma ValuePad2(s: string)
    requires |s| == 2 && AllDigits(s)
    ensures 0 <= Value2(s) < 100 && Pad2(Value2(s)) == s
  {
    assert IsDigit(s[0]) && IsDigit(s[1]);
  }

  lemma Pad4Value(n: int)
    requires 0 <= n < 10000
    ensures AllDigits(Pad4(n)) && Value4(Pad4(n)) == n
  {
    var s := Pad4(n);
    assert s[..2] == Pad2(n / 100) && s[2..] == Pad2(n % 100);
    Pad2Value(n / 100);
    Pad2Value(n % 100);
  }

  lemma ValuePad4(s: string)
    requires |s| == 4 && AllDigits(s)
    ensures 0 <= Value4(s) < 10000 && Pad4(Value4(s)) == s
  {
    var hi, lo := s[..2], s[2..];
    assert AllDigits(hi) && AllDigits(lo);
    ValuePad2(hi);
    ValuePad2(lo);
    var n := Value4(s);
    assert n / 100 == Value2(hi) && n % 100 == Value2(lo);
    assert s == hi + lo;
  }

  /** Reading a formatted day gives the day back. */
  lemma ParseFormatted(d: Day)
    ensures ParseDate(FormatDate(d)) == Some(d)
  {
    var s := FormatDate(d);
    assert s[..4] == Pad4(d.year) && s[5..7] == Pad2(d.month) && s[8..] == Pad2(d.day);
    Pad4Value(d.year);
    Pad2Value(d.month);
    Pad2Value(d.day);
  }

  /** A string that reads as a day is exactly that day's formatting. */
  lemma FormatParsed(s: string)
    requires ParseDate(s).Some?
    ensures FormatDate(ParseDate(s).value) == s
  {
    ValuePad4(s[..4]);
    ValuePad2(s[5..7]);
    ValuePad2(s[8..]);
    assert s == s[..4] + "-" + s[5..7] + "-" + s[8..];
  }

  /** The reporting window as the two strings sent to both services. */
  datatype Window = Window(start: string, end: string)

  /**
   * The window ending today and starting 89 days earlier, so that it spans
   * 90 calendar days; None where the subtraction overflows (the first 89
   * days of year 1).
   */
  function NinetyDayRange(today: Day): Option<Window> {
    match DaysBefore(today, 89)
    case None => None
    case Some(start) => Some(Window(FormatDate(start), FormatDate(today)))
  }

  /**
   * The window exists exactly when today is day 90 or later; its end reads
   * back as today and its start as the day 89 days earlier, which is the
   * only day whose ordinal is 89 less.
   */
  lemma NinetyDayRangeSpec(today: Day)
    ensures NinetyDayRange(today).Some? <==> ToOrdinal(today) > 89
    ensures NinetyDayRange(today).Some? ==>
      var w := NinetyDayRange(today).value;
      && ParseDate(w.end) == Some(today)
      && ParseDate(w.start).Some? && ToOrdinal(ParseDate(w.start).value) + 89 == ToOrdinal(today)
    ensures forall start: Day :: ToOrdinal(start) + 89 == ToOrdinal(today) ==>
      NinetyDayRange(today) == Some(Window(FormatDate(start), FormatDate(today)))
  {
    DaysBeforeOrdinal(today, 89);
    ParseFormatted(today);
    forall start: Day ensures ToOrdinal(start) >= 1 {
      OrdinalInYear(start);
      DaysBeforeYearMonotone(1, start.year);
    }
    if DaysBefore(today, 89).Some? {
      var s := DaysBefore(today, 89).value;
      ParseFormatted(s);
      forall start: Day | ToOrdinal(start) + 89 == ToOrdinal(today)
        ensures NinetyDayRange(today) == Some(Window(FormatDate(start), FormatDate(today)))
      {
        OrdinalInjective(start, s);
      }
    }
  }

  /** On 2024-06-01 the window is 2024-03-04 to 2024-06-01 (2024 being a leap year). */
  lemma JuneFirstWindow(today: Day)
    requires today == Date(2024, 6, 1)
    ensures NinetyDayRange(today) == Some(Window("2024-03-04", "2024-06-01"))
  {
    var start: Day := Date(2024, 3, 4);
    JuneFirstDays(today, start);
    NinetyDayRangeSpec(today);
  }

  lemma JuneFirstDays(today: Day, start: Day)
    requires today == Date(2024, 6, 1) && start == Date(2024, 3, 4)
    ensures ToOrdinal(start) + 89 == ToOrdinal(today)
    ensures FormatDate(start) == "2024-03-04" && FormatDate(today) == "2024-06-01"
  {
    assert DaysBeforeMonth(2024, 6) == 152 && DaysBeforeMonth(2024, 3) == 60;
    assert Pad4(2024) == "2024" by {
      assert Pad2(20) == "20" && Pad2(24) == "24";
    }
    assert Pad2(3) == "03" && Pad2(4) == "04" && Pad2(6) == "06" && Pad2(1) == "01";
  }
}
