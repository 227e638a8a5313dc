// The compact hire age of the sale announcement's subject line, such as "6Y6M28D"
// (formatHireAgeCompact in src/lib/account-format.ts). Both instants are given by their
// UTC dates, the only part of them the function reads.
module HireAge {
  import opened CivilCalendar
  import opened Text

  /** Day number of the anniversary after a number of months, clamped to the last day of a shorter month. */
  function Anniversary(hired: CivilDate, months: int): int {
    var total := hired.month - 1 + months;
    var year, month0 := hired.year + total / 12, total % 12;
    var lastDay := CivilFromDay(UtcDay(year, month0 + 1, 0)).day;
    UtcDay(year, month0, if hired.day < lastDay then hired.day else lastDay)
  }

  function AgeText(months: int, days: int): string {
    IntNumeral(months / 12) + "Y" + IntNumeral(JsRemainder(months, 12)) + "M" + IntNumeral(days) + "D"
  }

  method FormatHireAgeCompact(hiredAt: Option<CivilDate>, now: CivilDate) returns (age: Option<string>)
    ensures hiredAt.None? ==> age.None?
    ensures hiredAt.Some? && PlainDates(hiredAt.value, now) ==>
              (IsRightAge(hiredAt.value, now, age) <==> !ReadAsFuture(hiredAt.value, now))
  {
    hide UtcDay, DayNumber, Anniversary, MonthsLater, MonthDifference, AgeText, CompareCivil, IsCivil,
         PlainDates, Shows;
    if hiredAt.None? {
      return None;
    }
    var hired := hiredAt.value;
    var hireDay := UtcDay(hired.year, hired.month - 1, hired.day);
    var today := UtcDay(now.year, now.month - 1, now.day);
    ghost var plain := PlainDates(hired, now);
    if plain {
      DaysCompare(hired, now);
    }
    if hireDay > today {
      return None;
    }
    var bound := MonthDifference(hired, now);
    var months := bound;
    if plain {
      StepsDownAtMostOnce(hired, now);
    }
    while months > 0 && Anniversary(hired, months) > today
      invariant plain ==> months == bound || (months == bound - 1 && Anniversary(hired, bound) > today)
      decreases months
    {
      months := months - 1;
    }
    var days := today - Anniversary(hired, months);
    if plain {
      AgeFound(hired, now, months);
      AgeTextShows(months, days);
    }
    age := Some(AgeText(months, days));
  }

  function MonthDifference(hired: CivilDate, now: CivilDate): int {
    (now.year - hired.year) * 12 + (now.month - hired.month)
  }

  // ---- the reference -------------------------------------------------------------------

  /** Today is not in the years 0 to 100, or neither date is before the year 100. */
  predicate PlainDates(hired: CivilDate, now: CivilDate) {
    IsCivil(hired) && IsCivil(now) && (!(0 <= now.year <= 100) || (now.year == 100 && hired.year >= 100))
  }

  /** A hire date that has passed, but that Date.UTC reads as one to come. */
  predicate ReadAsFuture(hired: CivilDate, now: CivilDate) {
    CompareCivil(hired, now) <= 0 && UtcDay(hired.year, hired.month - 1, hired.day) > DayNumber(now)
  }

  /** The same day of the month a number of months later, or the last day of that month if it is shorter. */
  function MonthsLater(c: CivilDate, months: int): CivilDate {
    var index := 12 * c.year + c.month - 1 + months;
    var y, m := index / 12, index % 12 + 1;
    CivilDate(y, m, if c.day < MonthLength(y, m) then c.day else MonthLength(y, m))
  }

  /** Hired `months` months and `days` days ago: the anniversary has been reached, the next one has not. */
  predicate IsAge(hired: CivilDate, now: CivilDate, months: int, days: int) {
    && months >= 0 && 0 <= days <= 30
    && CompareCivil(MonthsLater(hired, months), now) <= 0
    && CompareCivil(MonthsLater(hired, months + 1), now) > 0
    && DayNumber(MonthsLater(hired, months)) + days == DayNumber(now)
  }

  /** A decimal numeral without needless zeros. */
  predicate IsNumeralOf(s: string, n: int) {
    s != "" && AllDigits(s) && NumeralValue(s) == n && (|s| > 1 ==> s[0] != '0')
  }

  /** The text gives a number of years, of months and of days, in this order and marked as such. */
  ghost predicate Shows(text: string, years: int, months: int, days: int) {
    exists y, m, d :: IsNumeralOf(y, years) && IsNumeralOf(m, months) && IsNumeralOf(d, days)
        && text == y + "Y" + m + "M" + d + "D"
  }

  lemma {:induction false} NumeralIsPlain(n: nat)
    ensures IsNumeralOf(Numeral(n), n) && (n > 0 ==> Numeral(n)[0] != '0')
  {
    NumeralRoundTrip(n);
    if n >= 10 {
      NumeralIsPlain(n / 10);
    }
  }

  lemma AgeTextShows(months: int, days: int)
    requires months >= 0 && days >= 0
    ensures Shows(AgeText(months, days), months / 12, months % 12, days)
  {
    hide Numeral, IsNumeralOf;
    NumeralIsPlain(months / 12);
    NumeralIsPlain(months % 12);
    NumeralIsPlain(days);
  }

  /** Nothing for a hire date to come, else the text of the age. */
  ghost predicate IsRightAge(hired: CivilDate, now: CivilDate, age: Option<string>) {
    && (age.None? <==> CompareCivil(hired, now) > 0)
    && (age.Some? ==> exists m, d :: IsAge(hired, now, m, d) && Shows(age.value, m / 12, m % 12, d))
  }

  /** The comparison of the two days goes wrong only for hire dates that are read as future ones. */
  lemma DaysCompare(hired: CivilDate, now: CivilDate)
    requires PlainDates(hired, now)
    ensures UtcDay(now.year, now.month - 1, now.day) == DayNumber(now)
    ensures UtcDay(hired.year, hired.month - 1, hired.day) > DayNumber(now)
            <==> CompareCivil(hired, now) > 0 || ReadAsFuture(hired, now)
  {
    hide DayNumber, MakeDay, CompareCivil, UtcDay;
    UtcDayShifts(hired, 0);
    UtcDayShifts(now, 0);
    OrderIsDayOrder(hired, now);
    OrderIsDayOrder(now, hired);
    if 0 <= hired.year <= 99 {
      TwoDigitYearShift(hired.year, hired.month - 1, hired.day);
    }
  }

  /** Hire dates are read as future ones only in the years 0 to 99, and no longer once it is 2000. */
  lemma OldHireDatesOnly(hired: CivilDate, now: CivilDate)
    requires IsCivil(hired) && IsCivil(now) && ReadAsFuture(hired, now)
    ensures 0 <= hired.year <= 99 && now.year < 2000
  {
    hide DayNumber, MakeDay, CompareCivil, UtcDay;
    UtcDayShifts(hired, 0);
    OrderIsDayOrder(now, hired);
    OrderIsDayOrder(hired, now);
    if 0 <= hired.year <= 99 && now.year >= 2000 {
      MisreadIsPast(hired, now);
    }
  }

  /** Such a date: in 1900 somebody hired in the year 50 seems to be hired in 1950. */
  lemma AncientHireDateIsRefused()
    ensures var hired, now := CivilDate(50, 1, 1), CivilDate(1900, 1, 1);
            PlainDates(hired, now) && ReadAsFuture(hired, now)
  {
  }

  lemma MisreadIsPast(hired: CivilDate, now: CivilDate)
    requires IsCivil(hired) && IsCivil(now) && 0 <= hired.year <= 99 && now.year >= 2000
    ensures UtcDay(hired.year, hired.month - 1, hired.day) < DayNumber(now)
    ensures CompareCivil(hired, now) < 0
  {
    hide DayFromYear, DaysBefore;
    var first := CivilDate(hired.year + 1900, hired.month, 1);
    CivilMonths(hired);
    MonthsAreShort(hired);
    DayNumberParts(first);
    UtcDayShifts(first, hired.day - 1);
    var next := if hired.month == 12 then CivilDate(first.year + 1, 1, 1)
                else CivilDate(first.year, hired.month + 1, 1);
    DayNumberParts(next);
    DaysBeforeStep(first.year, hired.month);
    YearLength(first.year);
    FirstMonth(first.year + 1);
    SameLeapYears(hired.year);
    assert DayNumber(next) == DayNumber(first) + MonthLength(first.year, hired.month);
    assert hired.day <= MonthLength(first.year, hired.month) + 1;
    OrderIsDayOrder(next, now);
  }

  lemma MonthsLaterParts(hired: CivilDate, months: int)
    requires IsCivil(hired)
    ensures var c := MonthsLater(hired, months);
            && IsCivil(c) && 12 * c.year + c.month - 1 == 12 * hired.year + hired.month - 1 + months
            && c.day == (if hired.day < MonthLength(c.year, c.month) then hired.day else MonthLength(c.year, c.month))
  {
    hide IsLeap;
  }

  /** Clamped anniversaries are real dates, in order. */
  lemma AnniversariesAscend(hired: CivilDate, j: int, k: int)
    requires IsCivil(hired) && j < k
    ensures CompareCivil(MonthsLater(hired, j), MonthsLater(hired, k)) < 0
  {
    hide MonthsLater, IsCivil, MonthLength;
    MonthsLaterParts(hired, j);
    MonthsLaterParts(hired, k);
    CivilMonths(MonthsLater(hired, j));
    CivilMonths(MonthsLater(hired, k));
  }

  lemma CivilMonths(c: CivilDate)
    requires IsCivil(c)
    ensures 1 <= c.month <= 12 && c.day >= 1
  {
  }

  /**
   * What the program computes with Date.UTC is the clamped anniversary if and only if its year is not one read as 19xx.
   */
  lemma AnniversaryIsClamped(hired: CivilDate, months: int)
    requires IsCivil(hired)
    ensures Anniversary(hired, months) == DayNumber(MonthsLater(hired, months)) <==>
            ReadAsWritten(MonthsLater(hired, months).year)
  {
    hide CivilFromDay, MakeDay, DayNumber, MonthLength, IsCivil, UtcDay;
    MonthsLaterParts(hired, months);
    var c := MonthsLater(hired, months);
    CivilMonths(c);
    CivilMonths(hired);
    var total := hired.month - 1 + months;
    assert c.year == hired.year + total / 12 && c.month - 1 == total % 12;
    var lastDay := DaysInMonth(c.year, c.month);
    DaysInMonthExact(c.year, c.month);
    assert lastDay == CivilFromDay(UtcDay(c.year, total % 12 + 1, 0)).day;
    var day := if hired.day < lastDay then hired.day else lastDay;
    UtcDayShifts(c, day - c.day);
    if 0 <= c.year <= 99 {
      TwoDigitYearShift(c.year, c.month - 1, day);
      DaysInMonthIsShort(c.year, c.month);
      MonthsAreShort(c);
      assert c.day + (day - c.day) == day;
    }
  }

  lemma DaysInMonthIsShort(year: int, month: int)
    requires 1 <= month <= 12
    ensures 1 <= DaysInMonth(year, month) <= 31
  {
    hide CivilFromDay;
    DayRoundTrip(UtcDay(year, month, 0));
    MonthsAreShort(CivilFromDay(UtcDay(year, month, 0)));
  }

  /** The calendar-month difference overshoots by at most one, so the loop steps down at most once. */
  lemma StepsDownAtMostOnce(hired: CivilDate, now: CivilDate)
    requires PlainDates(hired, now) && CompareCivil(hired, now) <= 0
    ensures var bound := MonthDifference(hired, now);
            && bound >= 0
            && CompareCivil(MonthsLater(hired, bound + 1), now) > 0
            && (Anniversary(hired, bound) > DayNumber(now) <==> CompareCivil(MonthsLater(hired, bound), now) > 0)
            && (bound == 0 ==> Anniversary(hired, bound) <= DayNumber(now))
            && (bound > 0 ==>
                 Anniversary(hired, bound - 1) <= DayNumber(now)
                 && CompareCivil(MonthsLater(hired, bound - 1), now) < 0)
  {
    hide DayNumber, Anniversary, MonthsLater;
    var bound := MonthDifference(hired, now);
    MonthsLaterParts(hired, bound);
    MonthsLaterParts(hired, bound + 1);
    AnniversaryIsClamped(hired, bound);
    OrderIsDayOrder(now, MonthsLater(hired, bound));
    if bound > 0 {
      MonthsLaterParts(hired, bound - 1);
      AnniversaryIsClamped(hired, bound - 1);
      OrderIsDayOrder(MonthsLater(hired, bound - 1), now);
    }
  }

  /** At most thirty days are left over after the last anniversary. */
  lemma LeftoverDays(hired: CivilDate, now: CivilDate, months: int)
    requires IsCivil(hired) && IsCivil(now)
    requires CompareCivil(MonthsLater(hired, months), now) <= 0 < CompareCivil(MonthsLater(hired, months + 1), now)
    ensures 0 <= DayNumber(now) - DayNumber(MonthsLater(hired, months)) <= 30
  {
    hide DayNumber, DayFromYear, DaysBefore, MonthsLater, IsLeap;
    var a, b := MonthsLater(hired, months), MonthsLater(hired, months + 1);
    MonthsLaterParts(hired, months);
    MonthsLaterParts(hired, months + 1);
    DayNumberParts(a);
    DayNumberParts(now);
    OrderIsDayOrder(a, now);
    OrderIsDayOrder(now, a);
    if a.year == now.year && a.month == now.month {
      MonthsAreShort(now);
    } else {
      DaysBeforeStep(a.year, a.month);
      YearLength(a.year);
      FirstMonth(a.year + 1);
      assert now.year == b.year && now.month == b.month;
    }
  }

  lemma AgeFound(hired: CivilDate, now: CivilDate, months: int)
    requires PlainDates(hired, now) && CompareCivil(hired, now) <= 0
    requires var bound := MonthDifference(hired, now);
             || (months == bound && Anniversary(hired, months) <= DayNumber(now))
             || (months == bound - 1 && Anniversary(hired, bound) > DayNumber(now))
    ensures IsAge(hired, now, months, DayNumber(now) - Anniversary(hired, months))
  {
    hide DayNumber, Anniversary, MonthsLater;
    StepsDownAtMostOnce(hired, now);
    MonthsLaterParts(hired, months);
    AnniversaryIsClamped(hired, months);
    LeftoverDays(hired, now, months);
  }

  /** The months of an age are the greatest whole number of months not after today, so an age is unique. */
  lemma AgeIsGreatest(hired: CivilDate, now: CivilDate, months: int, days: int, k: int)
    requires IsCivil(hired) && IsCivil(now) && IsAge(hired, now, months, days)
    ensures k > months ==> CompareCivil(MonthsLater(hired, k), now) > 0
    ensures forall days' :: IsAge(hired, now, k, days') ==> k == months && days' == days
  {
    hide DayNumber, MonthsLater;
    if k > months + 1 {
      AnniversariesAscend(hired, months + 1, k);
    } else if k < months - 1 {
      AnniversariesAscend(hired, k + 1, months);
    }
  }
}
