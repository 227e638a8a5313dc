// The proleptic Gregorian calendar as the JavaScript engine computes it (MakeDay and
// its inverse, section 21.4.1 of ECMA-262), and the calendar arithmetic of
// src/lib/pay-period.ts built on top of it.
module CivilCalendar {
  import opened Arithmetic

  /** A calendar day; `month` counts from 1. */
  datatype CivilDate = CivilDate(year: int, month: int, day: int)

  predicate IsLeap(y: int) {
    y % 4 == 0 && (y % 100 != 0 || y % 400 == 0)
  }

  function MonthLength(y: int, m: int): int
    requires 1 <= m <= 12
  {
    if m == 2 then (if IsLeap(y) then 29 else 28)
    else if m == 4 || m == 6 || m == 9 || m == 11 then 30
    else 31
  }

  predicate IsCivil(c: CivilDate) {
    1 <= c.month <= 12 && 1 <= c.day <= MonthLength(c.year, c.month)
  }

  lemma MonthsAreShort(c: CivilDate)
    requires IsCivil(c)
    ensures c.day <= 31
  {
  }

  /** The day after `c`, stated without any day numbers: the reference the arithmetic below is checked against. */
  function Tomorrow(c: CivilDate): CivilDate
    requires IsCivil(c)
  {
    if c.day < MonthLength(c.year, c.month) then c.(day := c.day + 1)
    else if c.month < 12 then CivilDate(c.year, c.month + 1, 1)
    else CivilDate(c.year + 1, 1, 1)
  }

  // ---- day numbers -------------------------------------------------------------

  /** Day number of 1 January; day 0 is 1 January 1970. */
  function DayFromYear(y: int): int {
    365 * (y - 1970) + (y - 1969) / 4 - (y - 1901) / 100 + (y - 1601) / 400
  }

  /** Days of year `y` before its month `m` (1-based; 13 stands for the whole year). */
  function DaysBefore(y: int, m: int): int
    requires 1 <= m <= 13
  {
    var feb := if IsLeap(y) then 29 else 28;
    match m
    case 1 => 0
    case 2 => 31
    case 3 => 31 + feb
    case 4 => 62 + feb
    case 5 => 92 + feb
    case 6 => 123 + feb
    case 7 => 153 + feb
    case 8 => 184 + feb
    case 9 => 215 + feb
    case 10 => 245 + feb
    case 11 => 276 + feb
    case 12 => 306 + feb
    case 13 => 337 + feb
  }

  /** MakeDay: the month index counts from 0 and may lie outside the year, the date may lie outside the month. */
  function MakeDay(year: int, month0: int, date: int): int {
    var y := year + month0 / 12;
    DayFromYear(y) + DaysBefore(y, month0 % 12 + 1) + date - 1
  }

  function DayNumber(c: CivilDate): int {
    MakeDay(c.year, c.month - 1, c.day)
  }

  /** Date.UTC reads a year from 0 to 99 as a year of the twentieth century. */
  function UtcDay(year: int, month0: int, date: int): int {
    MakeDay(if 0 <= year <= 99 then 1900 + year else year, month0, date)
  }

  /** Such a year is read as it is written. */
  predicate ReadAsWritten(year: int) {
    !(0 <= year <= 99)
  }

  function YearFromDay(d: int): int {
    var guess := 1970 + d * 400 / 146097;
    if d < DayFromYear(guess) then guess - 1
    else if DayFromYear(guess + 1) <= d then guess + 1
    else guess
  }

  function MonthFrom(y: int, dayInYear: int, m: int): int
    requires 1 <= m <= 12
    decreases m
  {
    if m == 1 || DaysBefore(y, m) <= dayInYear then m else MonthFrom(y, dayInYear, m - 1)
  }

  /** getUTCFullYear, getUTCMonth + 1 and getUTCDate of a day number. */
  function CivilFromDay(d: int): CivilDate {
    var y := YearFromDay(d);
    var dayInYear := d - DayFromYear(y);
    var m := MonthFrom(y, dayInYear, 12);
    CivilDate(y, m, dayInYear - DaysBefore(y, m) + 1)
  }

  /** A floored quotient grows by one exactly when the dividend reaches a multiple. */
  lemma QuotientStep(x: int, n: int)
    requires n > 0
    ensures (x + 1) / n == x / n + (if (x + 1) % n == 0 then 1 else 0)
  {
    if (x + 1) % n == 0 {
      assert x == n * ((x + 1) / n - 1) + (n - 1);
      UniqueQuotient(x, n, (x + 1) / n - 1, n - 1);
    } else {
      UniqueQuotient(x, n, (x + 1) / n, (x + 1) % n - 1);
    }
  }

  /**
   * Shifting the origin of a floored quotient by a multiple of the divisor moves the step to the multiples themselves.
   */
  lemma QuotientStepAt(y: int, origin: int, n: int)
    requires n > 0 && (origin - 1) % n == 0
    ensures (y + 1 - origin) / n == (y - origin) / n + (if y % n == 0 then 1 else 0)
  {
    QuotientStep(y - origin, n);
    var k := (origin - 1) / n;
    var x := y - origin + 1;
    assert y == n * (x / n + k) + x % n;
    UniqueQuotient(y, n, x / n + k, x % n);
  }

  lemma LeapDivisors(y: int)
    ensures y % 400 == 0 ==> y % 100 == 0
    ensures y % 100 == 0 ==> y % 4 == 0
  {
  }

  lemma YearLength(y: int)
    ensures DayFromYear(y + 1) == DayFromYear(y) + DaysBefore(y, 13)
  {
    QuotientStepAt(y, 1969, 4);
    QuotientStepAt(y, 1901, 100);
    QuotientStepAt(y, 1601, 400);
    LeapDivisors(y);
  }

  lemma DayNumberParts(c: CivilDate)
    requires 1 <= c.month <= 12
    ensures DayNumber(c) == DayFromYear(c.year) + DaysBefore(c.year, c.month) + c.day - 1
  {
    hide DayFromYear, DaysBefore;
  }

  lemma {:induction false} YearsAscend(a: int, b: int)
    requires a <= b
    ensures DayFromYear(a) + 365 * (b - a) <= DayFromYear(b)
    decreases b - a
  {
    if a < b {
      YearsAscend(a, b - 1);
      YearLength(b - 1);
    }
  }

  /** The mean year of 365.2425 days finds the year up to one. */
  lemma GuessIsClose(d: int)
    ensures var guess := 1970 + d * 400 / 146097; DayFromYear(guess - 1) <= d < DayFromYear(guess + 2)
  {
  }

  lemma YearBracket(d: int)
    ensures var y := YearFromDay(d); DayFromYear(y) <= d < DayFromYear(y + 1)
  {
    hide DayFromYear;
    GuessIsClose(d);
  }

  lemma {:induction false} MonthBracket(y: int, dayInYear: int, m: int)
    requires 1 <= m <= 12 && 0 <= dayInYear < DaysBefore(y, m + 1)
    ensures var k := MonthFrom(y, dayInYear, m);
            1 <= k <= 12 && DaysBefore(y, k) <= dayInYear < DaysBefore(y, k + 1)
    decreases m
  {
    if m > 1 && dayInYear < DaysBefore(y, m) {
      MonthBracket(y, dayInYear, m - 1);
    }
  }

  lemma DaysBeforeStep(y: int, m: int)
    requires 1 <= m <= 12
    ensures DaysBefore(y, m + 1) == DaysBefore(y, m) + MonthLength(y, m)
    ensures 0 <= DaysBefore(y, m) && DaysBefore(y, m + 1) <= DaysBefore(y, 13)
  {
  }

  /** Every day number is the number of exactly the date read back from it. */
  lemma DayRoundTrip(d: int)
    ensures IsCivil(CivilFromDay(d))
    ensures DayNumber(CivilFromDay(d)) == d
  {
    hide DayFromYear, DaysBefore, MakeDay, DayNumber, YearFromDay, MonthFrom;
    YearBracket(d);
    var y := YearFromDay(d);
    YearLength(y);
    MonthBracket(y, d - DayFromYear(y), 12);
    DaysBeforeStep(y, CivilFromDay(d).month);
    DayNumberParts(CivilFromDay(d));
  }

  lemma {:induction false} BeforeMonotone(y: int, a: int, b: int)
    requires 1 <= a <= b <= 13
    ensures DaysBefore(y, a) <= DaysBefore(y, b)
    decreases b - a
  {
    if a < b {
      BeforeMonotone(y, a, b - 1);
      DaysBeforeStep(y, b - 1);
    }
  }

  /** Earlier by (year, month, day) is smaller by day number. */
  lemma EarlierIsSmaller(a: CivilDate, b: CivilDate)
    requires IsCivil(a) && IsCivil(b) && CompareCivil(a, b) < 0
    ensures DayNumber(a) < DayNumber(b)
  {
    hide DayFromYear, DaysBefore, MakeDay, DayNumber;
    DayNumberParts(a);
    DayNumberParts(b);
    DaysBeforeStep(a.year, a.month);
    DaysBeforeStep(b.year, b.month);
    if a.year < b.year {
      YearLength(a.year);
      YearsAscend(a.year + 1, b.year);
    } else if a.month < b.month {
      BeforeMonotone(a.year, a.month + 1, b.month);
    }
  }

  /** The order of dates is the order of their day numbers, so a date is determined by its number. */
  lemma OrderIsDayOrder(a: CivilDate, b: CivilDate)
    requires IsCivil(a) && IsCivil(b)
    ensures CompareCivil(a, b) < 0 <==> DayNumber(a) < DayNumber(b)
    ensures CompareCivil(a, b) == 0 <==> DayNumber(a) == DayNumber(b)
    ensures CompareCivil(a, b) == 0 <==> a == b
  {
    if CompareCivil(a, b) < 0 {
      EarlierIsSmaller(a, b);
    } else if CompareCivil(a, b) > 0 {
      EarlierIsSmaller(b, a);
    }
  }

  lemma CivilRoundTrip(c: CivilDate)
    requires IsCivil(c)
    ensures CivilFromDay(DayNumber(c)) == c
  {
    DayRoundTrip(DayNumber(c));
    OrderIsDayOrder(c, CivilFromDay(DayNumber(c)));
  }

  /** Day numbers count days: the epoch is 1 January 1970 and the next date has the next number. */
  lemma NumbersCountDays(c: CivilDate)
    requires IsCivil(c)
    ensures IsCivil(Tomorrow(c)) && DayNumber(Tomorrow(c)) == DayNumber(c) + 1
    ensures DayNumber(CivilDate(1970, 1, 1)) == 0
  {
    EpochIsZero();
    hide DayFromYear, DaysBefore, MakeDay, DayNumber;
    DayNumberParts(c);
    DaysBeforeStep(c.year, c.month);
    YearLength(c.year);
    DayNumberParts(Tomorrow(c));
    FirstMonth(c.year + 1);
  }

  lemma FirstMonth(y: int)
    ensures DaysBefore(y, 1) == 0
  {
  }

  lemma EpochIsZero()
    ensures DayNumber(CivilDate(1970, 1, 1)) == 0
  {
    hide DaysBefore, MakeDay, DayNumber;
    DayNumberParts(CivilDate(1970, 1, 1));
    FirstMonth(1970);
  }

  // ---- src/lib/pay-period.ts: civil-date arithmetic ----------------------------

  function DaysInMonth(year: int, month: int): int {
    CivilFromDay(UtcDay(year, month, 0)).day
  }

  function AddDays(c: CivilDate, days: int): CivilDate {
    CivilFromDay(UtcDay(c.year, c.month - 1, c.day + days))
  }

  /** JavaScript's remainder takes the sign of the dividend. */
  function JsRemainder(a: int, b: int): int
    requires b > 0
  {
    if a < 0 then -((-a) % b) else a % b
  }

  function AddMonths(year: int, month: int, months: int): (int, int) {
    var idx := year * 12 + (month - 1) + months;
    (idx / 12, JsRemainder(idx, 12) + 1)
  }

  function CompareCivil(a: CivilDate, b: CivilDate): int {
    if a.year != b.year then a.year - b.year
    else if a.month != b.month then a.month - b.month
    else a.day - b.day
  }

  function DaysBetween(a: CivilDate, b: CivilDate): int {
    UtcDay(b.year, b.month - 1, b.day) - UtcDay(a.year, a.month - 1, a.day)
  }

  /** The two centuries Date.UTC confuses differ by a fixed, non-zero number of days. */
  lemma TwoDigitYearShift(year: int, month0: int, date: int)
    requires 0 <= year <= 99
    ensures UtcDay(year, month0, date) > MakeDay(year, month0, date) + 365 * 1800
  {
    hide DayFromYear;
    var y := year + month0 / 12;
    YearsAscend(y, y + 1900);
    var m := month0 % 12 + 1;
    assert -1 <= DaysBefore(y + 1900, m) - DaysBefore(y, m) <= 1;
  }

  lemma UtcDayShifts(c: CivilDate, days: int)
    ensures ReadAsWritten(c.year) ==> UtcDay(c.year, c.month - 1, c.day + days) == DayNumber(c) + days
    ensures MakeDay(c.year, c.month - 1, c.day + days) == DayNumber(c) + days
  {
    hide DayFromYear, DaysBefore;
  }

  /** addDays moves by exactly `days` days, if and only if the year is not one Date.UTC reads as 19xx. */
  lemma AddDaysExact(c: CivilDate, days: int)
    requires IsCivil(c)
    ensures IsCivil(AddDays(c, days))
    ensures DayNumber(AddDays(c, days)) == DayNumber(c) + days <==> ReadAsWritten(c.year)
  {
    hide DayFromYear, DaysBefore, MakeDay, DayNumber, CivilFromDay, UtcDay;
    UtcDayShifts(c, days);
    DayRoundTrip(UtcDay(c.year, c.month - 1, c.day + days));
    if 0 <= c.year <= 99 {
      TwoDigitYearShift(c.year, c.month - 1, c.day + days);
    }
  }

  /** Adding days and adding them back is the identity outside the misread years. */
  lemma AddDaysInverse(c: CivilDate, days: int)
    requires IsCivil(c) && ReadAsWritten(c.year) && ReadAsWritten(AddDays(c, days).year)
    ensures AddDays(AddDays(c, days), -days) == c
    ensures DaysBetween(c, AddDays(c, days)) == days
  {
    hide DayFromYear, DaysBefore, MakeDay, DayNumber, CivilFromDay, AddDays, UtcDay;
    AddDaysExact(c, days);
    AddDaysExact(AddDays(c, days), -days);
    UtcDayShifts(c, 0);
    UtcDayShifts(AddDays(c, days), 0);
    OrderIsDayOrder(AddDays(AddDays(c, days), -days), c);
  }

  /** addDays by one is the calendar's own next day. */
  lemma AddOneIsTomorrow(c: CivilDate)
    requires IsCivil(c) && ReadAsWritten(c.year)
    ensures AddDays(c, 1) == Tomorrow(c)
  {
    hide DayFromYear, DaysBefore, MakeDay, DayNumber, CivilFromDay, AddDays;
    NumbersCountDays(c);
    AddDaysExact(c, 1);
    OrderIsDayOrder(AddDays(c, 1), Tomorrow(c));
  }

  lemma SameLeapYears(year: int)
    ensures 1 <= year <= 99 ==> IsLeap(1900 + year) == IsLeap(year)
    ensures IsLeap(0) && !IsLeap(1900)
  {
  }

  /** The zeroth of a month (counted from 0) is the last of the month before it, also across a year end. */
  lemma DayZeroIsLastOfMonth(y: int, month: int)
    requires 1 <= month <= 12
    ensures MakeDay(y, month, 0) == DayNumber(CivilDate(y, month, MonthLength(y, month)))
  {
    hide DayFromYear, DaysBefore, DayNumber;
    DayNumberParts(CivilDate(y, month, MonthLength(y, month)));
    DaysBeforeStep(y, month);
    YearLength(y);
    FirstMonth(y + 1);
  }

  /**
   * daysInMonth is the Gregorian month length in every case but one: February of the year 0 is answered with that of
   * 1900.
   */
  lemma DaysInMonthExact(year: int, month: int)
    requires 1 <= month <= 12
    ensures DaysInMonth(year, month) == MonthLength(year, month) <==> !(year == 0 && month == 2)
  {
    hide DayFromYear, DaysBefore, MakeDay, DayNumber, CivilFromDay, IsLeap;
    var y := if 0 <= year <= 99 then 1900 + year else year;
    var last := CivilDate(y, month, MonthLength(y, month));
    DayZeroIsLastOfMonth(y, month);
    CivilRoundTrip(last);
    SameLeapYears(year);
  }

  /** addMonths gives a real month exactly when the month index is not negative, or is a whole number of years. */
  lemma AddMonthsExact(year: int, month: int, months: int)
    requires 1 <= month <= 12
    ensures var idx := year * 12 + (month - 1) + months;
            var (y, m) := AddMonths(year, month, months);
            (1 <= m <= 12 && 12 * y + m - 1 == idx) <==> (idx >= 0 || idx % 12 == 0)
  {
  }
}
