/**
 * Calendar helpers. A `Date` is seen through its local getters (`LocalDate`)
 * or as an instant in milliseconds; the device clock is taken to run on UTC,
 * so the local day of an instant is `t / MsPerDay`.
 */
module DateUtils {
  import opened Wrappers
  import opened Strings
  import opened Types

  /** What `getFullYear()`, `getMonth()` (0-based), `getDate()` and the time of day of a Date report. */
  datatype LocalDate = LocalDate(year: int, month: int, day: int, msOfDay: int)

  /** `new Date(year, ...)` reads a year argument in 0..99 as 1900..1999. */
  function JsYear(year: int): (y: int)
    ensures year < 0 || year > 99 ==> y == year
    ensures 0 <= year <= 99 ==> y == 1900 + year
  {
    if 0 <= year <= 99 then 1900 + year else year
  }

  /** The Gregorian leap-year rule (proleptic, astronomical year numbering). */
  predicate IsLeapYear(y: int) {
    y % 4 == 0 && (y % 100 != 0 || y % 400 == 0)
  }

  function MonthLength(y: int, m: int): (n: int)
    requires 0 <= m < 12
    ensures 28 <= n <= 31
    ensures m == 1 ==> (n == 29 <==> IsLeapYear(y))
  {
    if m == 1 then (if IsLeapYear(y) then 29 else 28)
    else if m == 3 || m == 5 || m == 8 || m == 10 then 30
    else 31
  }

  /**
   * `new Date(year, month + 1, 0).getDate()`: the length of month `month`
   * (0-based, out-of-range months roll into neighbouring years).
   */
  function GetDaysInMonth(year: int, month: int): (n: int)
    ensures 28 <= n <= 31
  {
    MonthLength(JsYear(year) + month / 12, month % 12)
  }

  /** February has 29 days exactly in leap years. */
  lemma FebruaryFollowsLeapRule(year: int)
    ensures GetDaysInMonth(year, 1) == 29 <==> IsLeapYear(JsYear(year))
  {
  }

  /** Leap days in the years before `y` (counted from year 0). */
  function LeapDaysBefore(y: int): int {
    (y - 1) / 4 - (y - 1) / 100 + (y - 1) / 400
  }

  /** Days from 1970-01-01 to January 1st of `y`. */
  function DaysBeforeYear(y: int): int {
    365 * (y - 1970) + LeapDaysBefore(y) - LeapDaysBefore(1970)
  }

  /** Days from January 1st to the first day of month `m` of year `y`. */
  function DaysBeforeMonth(y: int, m: int): (n: int)
    requires 0 <= m <= 12
  {
    if m == 0 then 0 else DaysBeforeMonth(y, m - 1) + MonthLength(y, m - 1)
  }

  /** The day number (days since 1970-01-01) of a calendar date. */
  function DayNumber(y: int, m: int, d: int): int
    requires 0 <= m < 12
  {
    DaysBeforeYear(y) + DaysBeforeMonth(y, m) + d - 1
  }

  /** `getDay()` of a day number: 0 is Sunday; 1970-01-01 was a Thursday. */
  function WeekdayOf(dayNumber: int): (w: int)
    ensures 0 <= w < 7
  {
    (dayNumber + 4) % 7
  }

  /** `new Date(year, month, 1).getDay()`. */
  function GetFirstDayOfWeek(year: int, month: int): (w: int)
    ensures 0 <= w <= 6
  {
    WeekdayOf(DayNumber(JsYear(year) + month / 12, month % 12, 1))
  }

  /** The twelve months add up to the length of the year. */
  lemma MonthsFillTheYear(y: int)
    ensures DaysBeforeMonth(y, 12) == (if IsLeapYear(y) then 366 else 365)
  {
    var feb := MonthLength(y, 1);
    assert DaysBeforeMonth(y, 1) == 31;
    assert DaysBeforeMonth(y, 2) == 31 + feb;
    assert DaysBeforeMonth(y, 3) == 62 + feb;
    assert DaysBeforeMonth(y, 4) == 92 + feb;
    assert DaysBeforeMonth(y, 5) == 123 + feb;
    assert DaysBeforeMonth(y, 6) == 153 + feb;
    assert DaysBeforeMonth(y, 7) == 184 + feb;
    assert DaysBeforeMonth(y, 8) == 215 + feb;
    assert DaysBeforeMonth(y, 9) == 245 + feb;
    assert DaysBeforeMonth(y, 10) == 276 + feb;
    assert DaysBeforeMonth(y, 11) == 306 + feb;
  }

  /** Consecutive New Year's Days are a year length apart. */
  lemma YearLength(y: int)
    ensures DaysBeforeYear(y + 1) == DaysBeforeYear(y) + (if IsLeapYear(y) then 366 else 365)
  {
    LeapStep(y);
  }

  /** Year `y` adds a leap day exactly when it is a leap year. */
  lemma LeapStep(y: int)
    ensures LeapDaysBefore(y + 1) == LeapDaysBefore(y) + (if IsLeapYear(y) then 1 else 0)
  {
    var a, b, c := y / 4 - (y - 1) / 4, y / 100 - (y - 1) / 100, y / 400 - (y - 1) / 400;
    StepQuotient(y, 4);
    StepQuotient(y, 100);
    StepQuotient(y, 400);
    assert y % 400 == 0 ==> y % 100 == 0 by {
      if y % 400 == 0 { DivModUnique(y, 100, (y / 400) * 4, 0); }
    }
    assert y % 100 == 0 ==> y % 4 == 0 by {
      if y % 100 == 0 { DivModUnique(y, 4, (y / 100) * 25, 0); }
    }
  }

  /** `y / k` goes up by one from `y - 1` exactly when `k` divides `y`. */
  lemma StepQuotient(y: int, k: int)
    requires k > 0
    ensures y / k - (y - 1) / k == if y % k == 0 then 1 else 0
  {
    var q, r := y / k, y % k;
    if r == 0 {
      DivModUnique(y - 1, k, q - 1, k - 1);
    } else {
      DivModUnique(y - 1, k, q, r - 1);
    }
  }

  /** The first day of a month is the day after the last day of the month before. */
  lemma {:induction false} NextMonthFollows(year: int, month: int)
    ensures GetFirstDayOfWeek(year, month + 1)
         == (GetFirstDayOfWeek(year, month) + GetDaysInMonth(year, month)) % 7
  {
    var a := DayNumber(JsYear(year) + month / 12, month % 12, 1);
    var b := DayNumber(JsYear(year) + (month + 1) / 12, (month + 1) % 12, 1);
    var len := GetDaysInMonth(year, month);
    assert b == a + len by {
      NextMonthStart(year, month);
    }
    WeekdayShift(a, len);
  }

  /** The day number of the first of month `month + 1`, out-of-range months included. */
  lemma NextMonthStart(year: int, month: int)
    ensures DayNumber(JsYear(year) + (month + 1) / 12, (month + 1) % 12, 1)
         == DayNumber(JsYear(year) + month / 12, month % 12, 1) + GetDaysInMonth(year, month)
  {
    var q, m := month / 12, month % 12;
    var y', m' := JsYear(year) + (month + 1) / 12, (month + 1) % 12;
    assert m < 11 ==> y' == JsYear(year) + q && m' == m + 1 by {
      if m < 11 { DivModUnique(month + 1, 12, q, m + 1); }
    }
    assert m == 11 ==> y' == JsYear(year) + q + 1 && m' == 0 by {
      if m == 11 { DivModUnique(month + 1, 12, q + 1, 0); }
    }
    FirstOfNextMonth(JsYear(year) + q, m, y', m', GetDaysInMonth(year, month));
  }

  /** The first of the month after month `m` of year `y`, as a day number. */
  lemma FirstOfNextMonth(y: int, m: int, y': int, m': int, len: int)
    requires 0 <= m < 12 && 0 <= m' < 12 && len == MonthLength(y, m)
    requires m < 11 ==> y' == y && m' == m + 1
    requires m == 11 ==> y' == y + 1 && m' == 0
    ensures DayNumber(y', m', 1) == DayNumber(y, m, 1) + len
  {
    MonthAfter(y, m);
  }

  /** The first day of the month after `m` (the next January after December). */
  lemma MonthAfter(y: int, m: int)
    requires 0 <= m < 12
    ensures m < 11 ==> DayNumber(y, m + 1, 1) == DayNumber(y, m, 1) + MonthLength(y, m)
    ensures m == 11 ==> DayNumber(y + 1, 0, 1) == DayNumber(y, m, 1) + MonthLength(y, m)
  {
    if m == 11 {
      YearHoldsItsMonths(y);
      assert DaysBeforeMonth(y, 12) == DaysBeforeMonth(y, 11) + MonthLength(y, 11);
    }
  }

  /** Moving `len` days on moves the weekday on by `len` modulo 7. */
  lemma WeekdayShift(start: int, len: int)
    ensures WeekdayOf(start + len) == (WeekdayOf(start) + len) % 7
  {
    var q := (start + 4) / 7;
    var w := WeekdayOf(start);
    assert start + 4 == q * 7 + w;
    var q', w' := (w + len) / 7, (w + len) % 7;
    assert w + len == q' * 7 + w';
    DivModUnique(start + len + 4, 7, q + q', w');
  }

  /** A fixed point to check the calendar against: 1 January 2024 was a Monday. */
  lemma NewYear2024WasMonday()
    ensures GetFirstDayOfWeek(2024, 0) == 1
  {
    assert LeapDaysBefore(2024) == 490 && LeapDaysBefore(1970) == 477;
    assert DayNumber(2024, 0, 1) == 19723;
    assert WeekdayOf(19723) == 1;
  }

  // ---------------------------------------------------------------------
  // date keys
  // ---------------------------------------------------------------------

  /** `formatDateKey`: "YYYY-MM-DD" with the 1-based month and the day padded to two digits. */
  function FormatDateKey(date: LocalDate): (k: string)
    ensures 'T' !in k
    ensures date.year >= 0 && 0 <= date.month + 1 < 100 && 0 <= date.day < 100 ==>
      |k| == |NatToString(date.year)| + 6 && k[|k| - 3] == '-' && k[|k| - 6] == '-'
  {
    NumberHasNoT(date.year);
    NumberHasNoT(date.month + 1);
    NumberHasNoT(date.day);
    IntToString(date.year) + "-" + PadInt2(date.month + 1) + "-" + PadInt2(date.day)
  }

  /** Reads a "Y-M-D" key (plain digits) back into year, 0-based month and day. */
  function ParseDateKey(k: string): (r: Option<(int, int, int)>)
    ensures '-' !in k ==> r == None
    ensures r.Some? ==> r.value.0 >= 0 && r.value.1 >= -1 && r.value.2 >= 0
  {
    SplitWithout(k, '-');
    var parts := Split(k, '-');
    if |parts| == 3 && IsNumeral(parts[0]) && IsNumeral(parts[1]) && IsNumeral(parts[2]) then
      Some((DigitsValue(parts[0]), DigitsValue(parts[1]) - 1, DigitsValue(parts[2])))
    else None
  }

  /** The three fields of a key of a date with a non-negative year, month and day. */
  lemma DateKeyFields(date: LocalDate)
    requires date.year >= 0 && date.month >= 0 && date.day >= 0
    ensures Split(FormatDateKey(date), '-') == [NatToString(date.year), Pad2(date.month + 1), Pad2(date.day)]
  {
    var a, b, c := NatToString(date.year), Pad2(date.month + 1), Pad2(date.day);
    assert FormatDateKey(date) == a + ['-'] + (b + ['-'] + c);
    DigitsHaveNo(a, '-');
    DigitsHaveNo(b, '-');
    DigitsHaveNo(c, '-');
    SplitConcat(a, '-', b + ['-'] + c);
    SplitConcat(b, '-', c);
    SplitNone(c, '-');
  }

  /** A date key names its date: year, month and day read back from it. */
  lemma DateKeyRoundTrip(date: LocalDate)
    requires date.year >= 0 && date.month >= 0 && date.day >= 0
    ensures ParseDateKey(FormatDateKey(date)) == Some((date.year, date.month, date.day))
  {
    var a, b, c := NatToString(date.year), Pad2(date.month + 1), Pad2(date.day);
    DateKeyFields(date);
    NatToStringRoundTrip(date.year);
    Pad2RoundTrip(date.month + 1);
    Pad2RoundTrip(date.day);
    ParseDateKeyOfFields(FormatDateKey(date), a, b, c);
  }

  /** The reading of a key whose three fields are known. */
  lemma ParseDateKeyOfFields(k: string, a: string, b: string, c: string)
    requires Split(k, '-') == [a, b, c] && IsNumeral(a) && IsNumeral(b) && IsNumeral(c)
    ensures ParseDateKey(k).Some?
    ensures ParseDateKey(k).value.0 == DigitsValue(a)
    ensures ParseDateKey(k).value.1 == DigitsValue(b) - 1
    ensures ParseDateKey(k).value.2 == DigitsValue(c)
  {
  }

  /** Two dates of the same day have the same key, and (round trip) only those. */
  lemma DateKeyIdentifiesDay(a: LocalDate, b: LocalDate)
    requires a.year >= 0 && a.month >= 0 && a.day >= 0
    requires b.year >= 0 && b.month >= 0 && b.day >= 0
    ensures FormatDateKey(a) == FormatDateKey(b) <==> IsSameDay(a, b)
  {
    DateKeyRoundTrip(a);
    DateKeyRoundTrip(b);
  }

  /** `isoString.split('T')[0]`: everything before the first 'T', or all of it. */
  function GetDateKeyFromISO(iso: string): (k: string)
    ensures 'T' !in k && k <= iso
    ensures |k| < |iso| ==> iso[|k|] == 'T'
    ensures 'T' !in iso ==> k == iso
  {
    SplitFirst(iso, 'T');
    Split(iso, 'T')[0]
  }

  /** The date part of "YYYY-MM-DDThh:mm:ss.sssZ" is the key of that date. */
  lemma DateKeyOfISO(date: LocalDate, clock: string)
    ensures GetDateKeyFromISO(FormatDateKey(date) + "T" + clock) == FormatDateKey(date)
  {
    var k := FormatDateKey(date);
    SplitConcat(k, 'T', clock);
    assert k + "T" + clock == k + ['T'] + clock;
  }

  lemma NumberHasNoT(n: int)
    ensures 'T' !in IntToString(n) && 'T' !in PadInt2(n)
  {
    if n >= 0 {
      DigitsHaveNo(NatToString(n), 'T');
      DigitsHaveNo(Pad2(n), 'T');
    } else {
      var m: nat := -n;
      DigitsHaveNo(NatToString(m), 'T');
      assert IntToString(n) == "-" + NatToString(m);
    }
  }

  // ---------------------------------------------------------------------
  // weeks and days
  // ---------------------------------------------------------------------

  /** `getDay()` of an instant. */
  function DayOfWeek(t: int): (w: int)
    ensures 0 <= w < 7
    ensures WeekdayOf(t / MsPerDay - w) == 0
  {
    DayShift(t / MsPerDay, -WeekdayOf(t / MsPerDay), 0);
    WeekdayOf(t / MsPerDay)
  }

  /**
   * `getWeekStart`: copy the date, step back to Sunday with `setDate`, then
   * clear the time with `setHours(0, 0, 0, 0)`.
   */
  method GetWeekStart(date: int) returns (d: int)
    ensures DayOfWeek(d) == 0 && d % MsPerDay == 0
    ensures d <= date < d + 7 * MsPerDay
  {
    ghost var k, r := date / MsPerDay, date % MsPerDay;
    d := date;
    var day := DayOfWeek(d);
    d := d - day * MsPerDay;
    DivModUnique(d, MsPerDay, k - day, r);
    d := d - d % MsPerDay;
    DivModUnique(d, MsPerDay, k - day, 0);
    DayShift(k, -day, 0);
  }

  /**
   * `getWeekEnd`: copy the date, step forward to Saturday with `setDate`,
   * then set the time to 23:59:59.999.
   */
  method GetWeekEnd(date: int) returns (d: int)
    ensures DayOfWeek(d) == 6 && d % MsPerDay == MsPerDay - 1
    ensures d - 7 * MsPerDay < date <= d
  {
    ghost var k, r := date / MsPerDay, date % MsPerDay;
    d := date;
    var day := DayOfWeek(d);
    d := d + (6 - day) * MsPerDay;
    DivModUnique(d, MsPerDay, k + 6 - day, r);
    d := d - d % MsPerDay + (MsPerDay - 1);
    DivModUnique(d, MsPerDay, k + 6 - day, MsPerDay - 1);
    DayShift(k, 6 - day, 6);
  }

  /** Stepping back by the weekday of day `k` lands on a Sunday; `w` more days on weekday `w`. */
  lemma DayShift(k: int, shift: int, w: int)
    requires 0 <= w < 7 && shift == w - WeekdayOf(k)
    ensures WeekdayOf(k + shift) == w
  {
    DivModUnique(k + shift + 4, 7, (k + 4) / 7, w);
  }

  /** A date the getters can report: a month 0..11, a day within it and a time of day. */
  predicate IsCalendarDate(d: LocalDate) {
    0 <= d.month < 12 && 1 <= d.day <= MonthLength(d.year, d.month) && 0 <= d.msOfDay < MsPerDay
  }

  /** The instant whose local getters report `d`. */
  function InstantOf(d: LocalDate): int
    requires 0 <= d.month < 12
  {
    DayNumber(d.year, d.month, d.day) * MsPerDay + d.msOfDay
  }

  /**
   * `isSameDay`: year, month and day agree; the time of day is ignored. For
   * dates of the calendar that is the same as their instants falling on the
   * same day.
   */
  predicate IsSameDay(a: LocalDate, b: LocalDate)
    ensures IsCalendarDate(a) && IsCalendarDate(b) ==>
      (IsSameDay(a, b) <==> InstantOf(a) / MsPerDay == InstantOf(b) / MsPerDay)
  {
    SameDayOfInstants(a, b);
    a.year == b.year && a.month == b.month && a.day == b.day
  }

  lemma SameDayOfInstants(a: LocalDate, b: LocalDate)
    ensures IsCalendarDate(a) && IsCalendarDate(b) ==>
      (a.year == b.year && a.month == b.month && a.day == b.day <==> InstantOf(a) / MsPerDay == InstantOf(b) / MsPerDay)
  {
    if IsCalendarDate(a) && IsCalendarDate(b) {
      DayOfInstant(a);
      DayOfInstant(b);
      DayNumberIdentifiesDate(a, b);
    }
  }

  /** The day of the instant of a calendar date is that date's day number. */
  lemma DayOfInstant(d: LocalDate)
    requires IsCalendarDate(d)
    ensures InstantOf(d) / MsPerDay == DayNumber(d.year, d.month, d.day)
  {
    DivModUnique(InstantOf(d), MsPerDay, DayNumber(d.year, d.month, d.day), d.msOfDay);
  }

  /** Different calendar dates have different day numbers. */
  lemma DayNumberIdentifiesDate(a: LocalDate, b: LocalDate)
    requires IsCalendarDate(a) && IsCalendarDate(b)
    ensures DayNumber(a.year, a.month, a.day) == DayNumber(b.year, b.month, b.day)
        <==> a.year == b.year && a.month == b.month && a.day == b.day
  {
    if a.year != b.year {
      if a.year < b.year {
        EarlierYearEarlierDay(a, b);
      } else {
        EarlierYearEarlierDay(b, a);
      }
    } else if a.month != b.month {
      if a.month < b.month {
        EarlierMonthEarlierDay(a, b);
      } else {
        EarlierMonthEarlierDay(b, a);
      }
    }
  }

  lemma EarlierYearEarlierDay(a: LocalDate, b: LocalDate)
    requires IsCalendarDate(a) && IsCalendarDate(b) && a.year < b.year
    ensures DayNumber(a.year, a.month, a.day) < DayNumber(b.year, b.month, b.day)
  {
    DayWithinYear(a);
    DayWithinYear(b);
    DaysBeforeYearGrows(a.year + 1, b.year);
  }

  lemma EarlierMonthEarlierDay(a: LocalDate, b: LocalDate)
    requires IsCalendarDate(a) && IsCalendarDate(b) && a.year == b.year && a.month < b.month
    ensures DayNumber(a.year, a.month, a.day) < DayNumber(b.year, b.month, b.day)
  {
    DaysBeforeMonthGrows(a.year, a.month + 1, b.month);
  }

  /** The days of a year lie between its New Year's Day and the next one. */
  lemma DayWithinYear(d: LocalDate)
    requires IsCalendarDate(d)
    ensures DaysBeforeYear(d.year) <= DayNumber(d.year, d.month, d.day) < DaysBeforeYear(d.year + 1)
  {
    var y, m := d.year, d.month;
    assert DaysBeforeMonth(y, m) >= 0 by { DaysBeforeMonthGrows(y, 0, m); }
    assert DaysBeforeMonth(y, m) + d.day <= DaysBeforeMonth(y, 12) by {
      assert DaysBeforeMonth(y, m + 1) == DaysBeforeMonth(y, m) + MonthLength(y, m);
      DaysBeforeMonthGrows(y, m + 1, 12);
    }
    YearHoldsItsMonths(y);
  }

  /** The next New Year's Day comes after all twelve months of the year. */
  lemma YearHoldsItsMonths(y: int)
    ensures DaysBeforeYear(y + 1) == DaysBeforeYear(y) + DaysBeforeMonth(y, 12)
  {
    YearLength(y);
    MonthsFillTheYear(y);
  }

  lemma {:induction false} DaysBeforeMonthGrows(y: int, m1: int, m2: int)
    requires 0 <= m1 <= m2 <= 12
    ensures DaysBeforeMonth(y, m1) <= DaysBeforeMonth(y, m2)
    decreases m2 - m1
  {
    if m1 < m2 {
      DaysBeforeMonthGrows(y, m1, m2 - 1);
    }
  }

  lemma {:induction false} DaysBeforeYearGrows(y1: int, y2: int)
    requires y1 <= y2
    ensures DaysBeforeYear(y1) <= DaysBeforeYear(y2)
    decreases y2 - y1
  {
    if y1 < y2 {
      DaysBeforeYearGrows(y1, y2 - 1);
      YearHoldsItsMonths(y2 - 1);
    }
  }

  /** `getMonthName`: the 1-based month number followed by 월. */
  function GetMonthName(month: int): (s: string)
    ensures ParseInt(s) == Some(month + 1)
  {
    ParseIntOfSigned(month + 1, "월");
    IntToString(month + 1) + "월"
  }

  /** The local hour (0..23) of an instant. */
  function HourOf(t: int): (h: int)
    ensures 0 <= h < 24
  {
    (t % MsPerDay) / MsPerHour
  }

  /** The local minute (0..59) of an instant. */
  function MinuteOf(t: int): (m: int)
    ensures 0 <= m < 60
  {
    (t % MsPerHour) / MsPerMinute
  }
}
