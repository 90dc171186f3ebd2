/**
 The part of the JavaScript `Date` object the program relies on, as section 21.4.1 of ECMA-262
 defines it: the proleptic Gregorian calendar, time values in milliseconds since 1970-01-01 UTC
 and the text `toISOString` gives them.
 */
module JsDate {
  import opened Decimal

  const MS_PER_SECOND := 1_000
  const MS_PER_MINUTE := 60_000
  const MS_PER_HOUR := 3_600_000
  const MS_PER_DAY := 86_400_000

  /** The time values a Date can hold are those within 100,000,000 days of the epoch. */
  const MAX_TIME := 100_000_000 * MS_PER_DAY

  predicate IsTimeValue(t: int) {
    -MAX_TIME <= t <= MAX_TIME
  }

  predicate IsLeapYear(year: int) {
    year % 4 == 0 && (year % 100 != 0 || year % 400 == 0)
  }

  function DaysInYear(year: int): int {
    if IsLeapYear(year) then 366 else 365
  }

  function DaysInMonth(year: int, month: int): int {
    if month == 2 then
      if IsLeapYear(year) then 29 else 28
    else if month in {4, 6, 9, 11} then 30 else 31
  }

  function DayFromYear(year: int): int {
    365 * (year - 1970) + (year - 1969) / 4 - (year - 1901) / 100 + (year - 1601) / 400
  }

  lemma FourYearStep(year: int)
    ensures (year - 1968) / 4 - (year - 1969) / 4 == if year % 4 == 0 then 1 else 0
  {
  }

  lemma CenturyStep(year: int)
    ensures (year - 1900) / 100 - (year - 1901) / 100 == if year % 100 == 0 then 1 else 0
  {
  }

  lemma FourCenturyStep(year: int)
    ensures (year - 1600) / 400 - (year - 1601) / 400 == if year % 400 == 0 then 1 else 0
  {
  }

  lemma YearStep(year: int)
    ensures DayFromYear(year + 1) - DayFromYear(year)
         == 365 + (if year % 4 == 0 then 1 else 0) - (if year % 100 == 0 then 1 else 0)
           + (if year % 400 == 0 then 1 else 0)
  {
    FourYearStep(year);
    CenturyStep(year);
    FourCenturyStep(year);
  }

  lemma CenturiesAreFourYears(year: int)
    ensures year % 400 == 0 ==> year % 100 == 0
    ensures year % 100 == 0 ==> year % 4 == 0
  {
  }

  /** Consecutive years start exactly one year's length of days apart. */
  lemma YearLength(year: int)
    ensures DayFromYear(year + 1) == DayFromYear(year) + DaysInYear(year)
  {
    hide DayFromYear;
    YearStep(year);
    CenturiesAreFourYears(year);
  }

  lemma {:induction false} YearsAscend(earlier: int, later: int)
    requires earlier <= later
    ensures DayFromYear(earlier) + 365 * (later - earlier) <= DayFromYear(later)
    decreases later - earlier
  {
    if earlier < later {
      YearLength(earlier);
      YearsAscend(earlier + 1, later);
    }
  }

  /** The largest year that starts on or before the day. */
  function YearFromDay(day: int): (year: int)
    ensures DayFromYear(year) <= day < DayFromYear(year + 1)
  {
    SearchYear(day, 1970 + if day >= 0 then day / 366 else day / 365)
  }

  function SearchYear(day: int, year: int): (found: int)
    requires DayFromYear(year) <= day
    ensures DayFromYear(found) <= day < DayFromYear(found + 1)
    decreases day - DayFromYear(year)
  {
    if day < DayFromYear(year + 1) then year
    else
      YearLength(year);
      SearchYear(day, year + 1)
  }

  lemma YearIsUnique(day: int, year: int)
    requires DayFromYear(year) <= day < DayFromYear(year + 1)
    ensures YearFromDay(day) == year
  {
    var found := YearFromDay(day);
    if found < year {
      YearsAscend(found + 1, year);
    } else if year < found {
      YearsAscend(year + 1, found);
    }
  }

  /** The number of days of the year before the month; month 13 stands for the whole year. */
  function DaysBeforeMonth(year: int, month: int): int
    requires 1 <= month <= 13
  {
    if month == 1 then 0 else DaysBeforeMonth(year, month - 1) + DaysInMonth(year, month - 1)
  }

  lemma MonthTable(year: int)
    ensures var leap := if IsLeapYear(year) then 1 else 0;
            && DaysBeforeMonth(year, 1) == 0 && DaysBeforeMonth(year, 2) == 31
            && DaysBeforeMonth(year, 3) == 59 + leap && DaysBeforeMonth(year, 4) == 90 + leap
            && DaysBeforeMonth(year, 5) == 120 + leap && DaysBeforeMonth(year, 6) == 151 + leap
            && DaysBeforeMonth(year, 7) == 181 + leap && DaysBeforeMonth(year, 8) == 212 + leap
            && DaysBeforeMonth(year, 9) == 243 + leap && DaysBeforeMonth(year, 10) == 273 + leap
            && DaysBeforeMonth(year, 11) == 304 + leap && DaysBeforeMonth(year, 12) == 334 + leap
            && DaysBeforeMonth(year, 13) == DaysInYear(year)
  {
    var leap := if IsLeapYear(year) then 1 else 0;
    assert DaysBeforeMonth(year, 2) == 31;
    assert DaysBeforeMonth(year, 3) == 59 + leap;
    assert DaysBeforeMonth(year, 5) == 120 + leap;
    assert DaysBeforeMonth(year, 7) == 181 + leap;
    assert DaysBeforeMonth(year, 9) == 243 + leap;
    assert DaysBeforeMonth(year, 11) == 304 + leap;
  }

  /** The last month that starts on or before the day of the year. */
  function MonthFromDayInYear(year: int, dayInYear: int, month: int := 12): (found: int)
    requires 1 <= month <= 12
    requires 0 <= dayInYear < DaysBeforeMonth(year, month + 1)
    ensures 1 <= found <= month
    ensures DaysBeforeMonth(year, found) <= dayInYear < DaysBeforeMonth(year, found + 1)
  {
    if DaysBeforeMonth(year, month) <= dayInYear then month
    else MonthFromDayInYear(year, dayInYear, month - 1)
  }

  lemma {:induction false} MonthsAscend(year: int, earlier: int, later: int)
    requires 1 <= earlier <= later <= 13
    ensures DaysBeforeMonth(year, earlier) <= DaysBeforeMonth(year, later)
    decreases later - earlier
  {
    if earlier < later {
      MonthsAscend(year, earlier + 1, later);
    }
  }

  datatype Fields = Fields(year: int, month: int, day: int,
                           hour: int, minute: int, second: int, milli: int)

  /** A date and time of day that exists in the calendar. */
  predicate ValidFields(f: Fields) {
    && 1 <= f.month <= 12
    && 1 <= f.day <= DaysInMonth(f.year, f.month)
    && 0 <= f.hour <= 23
    && 0 <= f.minute <= 59
    && 0 <= f.second <= 59
    && 0 <= f.milli <= 999
  }

  function DayNumber(year: int, month: int, day: int): int
    requires 1 <= month <= 12
  {
    DayFromYear(year) + DaysBeforeMonth(year, month) + day - 1
  }

  function TimeInDay(f: Fields): int {
    f.hour * MS_PER_HOUR + f.minute * MS_PER_MINUTE + f.second * MS_PER_SECOND + f.milli
  }

  /** The time value of calendar fields: MakeDate(MakeDay(...), MakeTime(...)). */
  function TimeOf(f: Fields): int
    requires 1 <= f.month <= 12
  {
    DayNumber(f.year, f.month, f.day) * MS_PER_DAY + TimeInDay(f)
  }

  function FieldsOf(t: int): Fields {
    var day := t / MS_PER_DAY;
    var time := t % MS_PER_DAY;
    var year := YearFromDay(day);
    var dayInYear := day - DayFromYear(year);
    YearLength(year);
    MonthTable(year);
    var month := MonthFromDayInYear(year, dayInYear);
    Fields(year, month, dayInYear - DaysBeforeMonth(year, month) + 1,
           time / MS_PER_HOUR, time / MS_PER_MINUTE % 60, time / MS_PER_SECOND % 60, time % 1000)
  }

  lemma TimeInDaySplits(time: int)
    requires 0 <= time < MS_PER_DAY
    ensures 0 <= time / MS_PER_HOUR <= 23
    ensures time / MS_PER_HOUR * MS_PER_HOUR + time / MS_PER_MINUTE % 60 * MS_PER_MINUTE
         + time / MS_PER_SECOND % 60 * MS_PER_SECOND + time % 1000 == time
  {
    var seconds, minutes := time / 1000, time / 60_000;
    assert minutes == seconds / 60;
    assert time / 3_600_000 == minutes / 60;
  }

  lemma TimeInDayIsUnique(f: Fields)
    requires ValidFields(f)
    ensures var time := TimeInDay(f);
            && 0 <= time < MS_PER_DAY
            && time / MS_PER_HOUR == f.hour && time / MS_PER_MINUTE % 60 == f.minute
            && time / MS_PER_SECOND % 60 == f.second && time % 1000 == f.milli
  {
    var time := TimeInDay(f);
    assert time / 1000 == f.hour * 3600 + f.minute * 60 + f.second;
    assert time / 60_000 == f.hour * 60 + f.minute;
    assert time / 3_600_000 == f.hour;
  }

  /** Every time value has calendar fields, and they lead back to it. */
  lemma FieldsThenTime(t: int)
    ensures ValidFields(FieldsOf(t)) && TimeOf(FieldsOf(t)) == t
  {
    TimeInDaySplits(t % MS_PER_DAY);
  }

  /** A day of the calendar leads back to its year and month. */
  lemma DayNumberIsUnique(f: Fields)
    requires ValidFields(f)
    ensures YearFromDay(DayNumber(f.year, f.month, f.day)) == f.year
    ensures var dayInYear := DayNumber(f.year, f.month, f.day) - DayFromYear(f.year);
            && 0 <= dayInYear < DaysBeforeMonth(f.year, 13)
            && MonthFromDayInYear(f.year, dayInYear) == f.month
  {
    hide DayFromYear, YearFromDay, IsLeapYear;
    var day := DayNumber(f.year, f.month, f.day);
    MonthsAscend(f.year, 1, f.month);
    MonthsAscend(f.year, f.month + 1, 13);
    MonthTable(f.year);
    YearLength(f.year);
    YearIsUnique(day, f.year);
    var month := MonthFromDayInYear(f.year, day - DayFromYear(f.year));
    if month < f.month {
      MonthsAscend(f.year, month + 1, f.month);
    } else if f.month < month {
      MonthsAscend(f.year, f.month + 1, month);
    }
  }

  /** No two dates and times of the calendar share a time value. */
  lemma TimeThenFields(f: Fields)
    requires ValidFields(f)
    ensures FieldsOf(TimeOf(f)) == f
  {
    hide DayFromYear, YearFromDay, IsLeapYear, TimeInDay, DaysBeforeMonth;
    TimeInDayIsUnique(f);
    var t, time := TimeOf(f), TimeInDay(f);
    var day := DayNumber(f.year, f.month, f.day);
    assert t / MS_PER_DAY == day && t % MS_PER_DAY == time;
    DayNumberIsUnique(f);
  }

  lemma EpochDay()
    ensures DayNumber(1970, 1, 1) == 0
  {
    hide DaysInMonth;
    assert DayFromYear(1970) == 0 && DaysBeforeMonth(1970, 1) == 0;
  }

  /** Time values count milliseconds from the first instant of 1970. */
  lemma EpochIsZero()
    ensures TimeOf(Fields(1970, 1, 1, 0, 0, 0, 0)) == 0
  {
    hide DayNumber, DaysInMonth, IsLeapYear;
    EpochDay();
  }

  lemma ClockCounts(f: Fields)
    requires ValidFields(f)
    ensures TimeOf(f) == TimeOf(Fields(f.year, f.month, f.day, 0, 0, 0, 0))
                         + f.hour * 3_600_000 + f.minute * 60_000 + f.second * 1_000 + f.milli
  {
    hide DayNumber;
  }

  /** The day after each day of the Gregorian calendar is one day number further. */
  lemma CalendarAdvances(year: int, month: int, day: int)
    requires 1 <= month <= 12
    ensures var length :=
              if month == 2 then (if year % 4 == 0 && (year % 100 != 0 || year % 400 == 0) then 29 else 28)
              else if month in {4, 6, 9, 11} then 30 else 31;
            && DaysInMonth(year, month) == length
            && (day < length ==> DayNumber(year, month, day + 1) == DayNumber(year, month, day) + 1)
            && (month < 12 ==> DayNumber(year, month + 1, 1) == DayNumber(year, month, length) + 1)
            && (month == 12 ==> DayNumber(year + 1, 1, 1) == DayNumber(year, month, length) + 1)
  {
    hide DayFromYear;
    YearLength(year);
    MonthTable(year);
  }

  /** The year of a time value has at most six digits. */
  lemma YearBound(t: int)
    requires IsTimeValue(t)
    ensures -1_000_000 < FieldsOf(t).year < 1_000_000
  {
    var year := FieldsOf(t).year;
    if year >= 1_000_000 {
      YearsAscend(1_000_000, year);
    } else if year <= -1_000_000 {
      YearsAscend(year + 1, -999_999);
    }
  }

  /** Four digits for years 0 to 9999, otherwise a sign and six digits. */
  function YearText(year: int): string {
    if 0 <= year <= 9999 then Digits(4, year)
    else if year < 0 then "-" + Digits(6, -year)
    else "+" + Digits(6, year)
  }

  function DateTimeTail(f: Fields): (s: string)
    requires ValidFields(f)
    ensures |s| == 15
  {
    "-" + Digits(2, f.month) + "-" + Digits(2, f.day) + "T" + Digits(2, f.hour)
    + ":" + Digits(2, f.minute) + ":" + Digits(2, f.second)
  }

  /** The date and time without the fraction and the zone. */
  function SecondText(f: Fields): string
    requires ValidFields(f)
  {
    YearText(f.year) + DateTimeTail(f)
  }

  /** `new Date(t).toISOString()` */
  function ToIso(t: int): string {
    FieldsThenTime(t);
    var f := FieldsOf(t);
    SecondText(f) + "." + Digits(3, f.milli) + "Z"
  }

  lemma DateTimeTailParts(f: Fields)
    requires ValidFields(f)
    ensures var s := DateTimeTail(f);
            && s[0] == '-' && s[3] == '-' && s[6] == 'T' && s[9] == ':' && s[12] == ':'
            && s[1..3] == Digits(2, f.month) && s[4..6] == Digits(2, f.day)
            && s[7..9] == Digits(2, f.hour) && s[10..12] == Digits(2, f.minute)
            && s[13..15] == Digits(2, f.second)
  {
  }

  lemma DateTimeTailInjective(f: Fields, g: Fields)
    requires ValidFields(f) && ValidFields(g)
    requires DateTimeTail(f) == DateTimeTail(g)
    ensures f.month == g.month && f.day == g.day
    ensures f.hour == g.hour && f.minute == g.minute && f.second == g.second
  {
    DateTimeTailParts(f);
    DateTimeTailParts(g);
    assert Pow10(2) == 100;
    DigitsThenNumber(2, f.month);  DigitsThenNumber(2, g.month);
    DigitsThenNumber(2, f.day);  DigitsThenNumber(2, g.day);
    DigitsThenNumber(2, f.hour);  DigitsThenNumber(2, g.hour);
    DigitsThenNumber(2, f.minute);  DigitsThenNumber(2, g.minute);
    DigitsThenNumber(2, f.second);  DigitsThenNumber(2, g.second);
  }

  lemma YearTextInjective(y: int, z: int)
    requires -1_000_000 < y < 1_000_000 && -1_000_000 < z < 1_000_000
    requires YearText(y) == YearText(z)
    ensures y == z
  {
    assert Pow10(4) == 10_000;
    assert Pow10(6) == 1_000_000;
    if 0 <= y <= 9999 {
      DigitsThenNumber(4, y);
      DigitsThenNumber(4, z);
    } else {
      assert YearText(y)[0] == YearText(z)[0];
      assert YearText(y)[1..] == YearText(z)[1..];
      DigitsThenNumber(6, if y < 0 then -y else y);
      DigitsThenNumber(6, if z < 0 then -z else z);
    }
  }

  lemma SecondTextInjective(f: Fields, g: Fields)
    requires ValidFields(f) && ValidFields(g)
    requires -1_000_000 < f.year < 1_000_000 && -1_000_000 < g.year < 1_000_000
    requires SecondText(f) == SecondText(g)
    ensures f.(milli := g.milli) == g
  {
    var s := SecondText(f);
    assert s[|s| - 15..] == DateTimeTail(f) == DateTimeTail(g);
    assert s[..|s| - 15] == YearText(f.year) == YearText(g.year);
    DateTimeTailInjective(f, g);
    YearTextInjective(f.year, g.year);
  }

  /** Different time values have different ISO texts, in every year a Date can hold. */
  lemma ToIsoInjective(t: int, u: int)
    requires IsTimeValue(t) && IsTimeValue(u)
    requires ToIso(t) == ToIso(u)
    ensures t == u
  {
    hide FieldsOf, SecondText;
    var f, g, s := FieldsOf(t), FieldsOf(u), ToIso(t);
    FieldsThenTime(t);
    FieldsThenTime(u);
    YearBound(t);
    YearBound(u);
    assert s[..|s| - 5] == SecondText(f) == SecondText(g);
    assert s[|s| - 4..|s| - 1] == Digits(3, f.milli) == Digits(3, g.milli);
    SecondTextInjective(f, g);
    assert Pow10(3) == 1000;
    DigitsThenNumber(3, f.milli);
    DigitsThenNumber(3, g.milli);
  }
}
