// The agency's pay periods (src/lib/pay-period.ts): two per calendar month, found from a
// date, named by a key, and walked in both directions.
module PayPeriods {
  import opened CivilCalendar
  import opened Text

  datatype PayPeriod = PayPeriod(key: string, number: int, start: CivilDate, end: CivilDate)

  function PayPeriodKey(year: int, month: int, number: int): string {
    PadStart(IntNumeral(year), 4) + "-" + PadStart(IntNumeral(month), 2) + "-P" + IntNumeral(number)
  }

  function PayPeriodContaining(c: CivilDate): PayPeriod {
    if c.day <= 5 then
      var (y, m) := AddMonths(c.year, c.month, -1);
      PayPeriod(PayPeriodKey(c.year, c.month, 1), 1, CivilDate(y, m, 21), CivilDate(c.year, c.month, 5))
    else if c.day <= 20 then
      PayPeriod(PayPeriodKey(c.year, c.month, 2), 2, CivilDate(c.year, c.month, 6), CivilDate(c.year, c.month, 20))
    else
      var (y, m) := AddMonths(c.year, c.month, 1);
      PayPeriod(PayPeriodKey(y, m, 1), 1, CivilDate(c.year, c.month, 21), CivilDate(y, m, 5))
  }

  function PreviousPayPeriod(p: PayPeriod): PayPeriod {
    PayPeriodContaining(AddDays(p.start, -1))
  }

  function NextPayPeriod(p: PayPeriod): PayPeriod {
    PayPeriodContaining(AddDays(p.end, 1))
  }

  /** The pattern ^(\d{4})-(\d{2})-P([12])$ . */
  predicate IsKeyText(s: string) {
    && |s| == 10
    && AllDigits(s[..4]) && s[4] == '-' && AllDigits(s[5..7]) && s[7] == '-' && s[8] == 'P'
    && (s[9] == '1' || s[9] == '2')
  }

  function PayPeriodFromKey(key: string): Option<PayPeriod> {
    var s := Trim(key);
    if !IsKeyText(s) then None
    else
      var year := NumeralValue(s[..4]);
      var month := NumeralValue(s[5..7]);
      if month < 1 || month > 12 || year < 1900 || year > 2200 then None
      else Some(PayPeriodContaining(CivilDate(year, month, if s[9] == '1' then 1 else 10)))
  }

  // ---- the reference: pay periods are the integers, two to a month ----------------

  /** Period `k`: its pay month is month `k / 2` counted from the start of year 0. */
  function PeriodAt(k: int): PayPeriod {
    var y, m := k / 2 / 12, k / 2 % 12 + 1;
    if k % 2 == 0 then
      var y', m' := (k / 2 - 1) / 12, (k / 2 - 1) % 12 + 1;
      PayPeriod(PayPeriodKey(y, m, 1), 1, CivilDate(y', m', 21), CivilDate(y, m, 5))
    else
      PayPeriod(PayPeriodKey(y, m, 2), 2, CivilDate(y, m, 6), CivilDate(y, m, 20))
  }

  function PayYear(k: int): int {
    k / 24
  }

  /** The number of the period a date belongs to, by the agency's rule: the 5th and the 20th are last days. */
  function PeriodIndex(c: CivilDate): int {
    2 * (12 * c.year + c.month - 1) + (if c.day <= 5 then 0 else if c.day <= 20 then 1 else 2)
  }

  predicate Within(c: CivilDate, from: CivilDate, to: CivilDate) {
    CompareCivil(from, c) <= 0 && CompareCivil(c, to) <= 0
  }

  lemma PeriodParts(k: int)
    ensures IsCivil(PeriodAt(k).start) && IsCivil(PeriodAt(k).end)
    ensures PeriodAt(k).end.year == PayYear(k) && PeriodAt(k).end.day <= 20
    ensures PeriodAt(k).start.year <= PayYear(k) <= PeriodAt(k).start.year + 1
    ensures PeriodAt(k).number == k % 2 + 1
    ensures PeriodAt(k).key == PayPeriodKey(PayYear(k), k / 2 % 12 + 1, PeriodAt(k).number)
  {
    assert k / 2 / 12 == k / 24;
  }

  /** payPeriodContaining finds exactly the period of the index. */
  lemma ContainingIsIndexed(c: CivilDate)
    requires IsCivil(c) && c.year >= 1
    ensures PayPeriodContaining(c) == PeriodAt(PeriodIndex(c))
  {
    hide IsLeap, PayPeriodKey;
    var mi := 12 * c.year + c.month - 1;
    assert mi / 12 == c.year && mi % 12 == c.month - 1;
    var k := PeriodIndex(c);
    if c.day <= 20 {
      assert k / 2 == mi;
    } else {
      assert k / 2 == mi + 1;
    }
  }

  /** The periods partition the calendar: a date lies within period `k` exactly when `k` is its index. */
  lemma PeriodsPartition(c: CivilDate, k: int)
    requires IsCivil(c)
    ensures Within(c, PeriodAt(k).start, PeriodAt(k).end) <==> PeriodIndex(c) == k
  {
    hide IsLeap, PayPeriodKey, MonthLength;
    var mi := k / 2;
    assert mi == 12 * (mi / 12) + mi % 12;
    assert mi - 1 == 12 * ((mi - 1) / 12) + (mi - 1) % 12;
    assert c.day <= 31 by { MonthsAreShort(c); }
  }

  /** Consecutive periods touch: the day after one ends is the day the next starts. */
  lemma PeriodsTouch(k: int)
    ensures IsCivil(PeriodAt(k).end) && Tomorrow(PeriodAt(k).end) == PeriodAt(k + 1).start
  {
    hide IsLeap, PayPeriodKey;
    PeriodParts(k);
    assert k % 2 == 1 ==> (k + 1) / 2 - 1 == k / 2;
  }

  /** What the partition means for the code: a date is inside its period, and every date inside has that same period. */
  lemma PeriodOfEveryDay(c: CivilDate, d: CivilDate)
    requires IsCivil(c) && IsCivil(d) && c.year >= 1 && d.year >= 1
    ensures var p := PayPeriodContaining(c);
            && Within(c, p.start, p.end)
            && (Within(d, p.start, p.end) <==> PayPeriodContaining(d) == p)
  {
    hide PeriodAt, PayPeriodContaining, PeriodIndex, Within;
    ContainingIsIndexed(c);
    ContainingIsIndexed(d);
    PeriodsPartition(c, PeriodIndex(c));
    PeriodsPartition(d, PeriodIndex(c));
    PeriodsPartition(d, PeriodIndex(d));
  }

  /**
   * The first day of a period is the first day of the partition's block, and the day before belongs to the one before.
   */
  lemma NeighboursOf(k: int)
    requires PeriodAt(k).start.year >= 100
    ensures NextPayPeriod(PeriodAt(k)) == PeriodAt(k + 1)
    ensures PreviousPayPeriod(PeriodAt(k)) == PeriodAt(k - 1)
    ensures AddDays(PeriodAt(k - 1).end, 1) == PeriodAt(k).start
  {
    hide PeriodAt, PayPeriodContaining, PeriodIndex, AddDays, DayNumber, Tomorrow, IsLeap;
    var p, before, after := PeriodAt(k), PeriodAt(k - 1), PeriodAt(k + 1);
    PeriodParts(k - 1);
    PeriodParts(k);
    PeriodParts(k + 1);
    PeriodsTouch(k - 1);
    PeriodsTouch(k);
    assert PayYear(k) <= PayYear(k + 1) && PayYear(k - 1) <= PayYear(k);
    // forwards
    AddOneIsTomorrow(p.end);
    EndsLieWithin(k + 1);
    PeriodsPartition(after.start, k + 1);
    ContainingIsIndexed(after.start);
    // backwards
    StartFollowsEnd(k - 1);
    EndsLieWithin(k - 1);
    PeriodsPartition(before.end, k - 1);
    ContainingIsIndexed(before.end);
    AddOneIsTomorrow(before.end);
  }

  /** A few days on either side of a date in a year that Date.UTC misreads is more than a millennium later. */
  lemma MisreadNeighbour(c: CivilDate, days: int)
    requires IsCivil(c) && 0 <= c.year <= 99 && -6 <= days <= 6
    ensures IsCivil(AddDays(c, days)) && DayNumber(AddDays(c, days)) > DayNumber(c) + 365 * 1000
    ensures AddDays(c, days).year >= 1
  {
    hide DayNumber, MakeDay, CivilFromDay, UtcDay;
    TwoDigitYearShift(c.year, c.month - 1, c.day + days);
    UtcDayShifts(c, days);
    DayRoundTrip(UtcDay(c.year, c.month - 1, c.day + days));
    LaterIsLaterYear(c, AddDays(c, days));
  }

  lemma LaterIsLaterYear(c: CivilDate, d: CivilDate)
    requires IsCivil(c) && IsCivil(d) && DayNumber(d) > DayNumber(c) + 366
    ensures d.year > c.year
  {
    hide DayNumber, DayFromYear, IsLeap;
    DayNumberParts(c);
    DayNumberParts(d);
    YearLength(c.year);
    DaysBeforeStep(c.year, c.month);
    DaysBeforeStep(d.year, d.month);
    if d.year <= c.year {
      YearsAscend(d.year, c.year);
      YearLength(d.year);
    }
  }

  /**
   * Next and previous are the neighbouring periods if and only if Date.UTC does not misread the year they start from.
   */
  lemma NeighboursExactly(k: int)
    requires PeriodAt(k).start.year >= 0
    ensures NextPayPeriod(PeriodAt(k)) == PeriodAt(k + 1) <==> PeriodAt(k).end.year >= 100
    ensures PreviousPayPeriod(PeriodAt(k)) == PeriodAt(k - 1) <==> PeriodAt(k).start.year >= 100
  {
    hide PeriodAt, PayPeriodContaining, PeriodIndex, AddDays, DayNumber, Within;
    var p := PeriodAt(k);
    PeriodParts(k - 1);
    PeriodParts(k);
    PeriodParts(k + 1);
    assert PayYear(k - 1) <= PayYear(k) <= PayYear(k + 1) <= PayYear(k) + 1;
    if p.end.year <= 99 {
      MisreadNeighbour(p.end, 1);
      FarFromPeriod(AddDays(p.end, 1), p.end, k + 1);
    } else {
      NextIsNeighbour(k);
    }
    if p.start.year <= 99 {
      MisreadNeighbour(p.start, -1);
      FarFromPeriod(AddDays(p.start, -1), p.start, k - 1);
    } else {
      NeighboursOf(k);
    }
  }

  lemma NextIsNeighbour(k: int)
    requires PeriodAt(k).end.year >= 100
    ensures NextPayPeriod(PeriodAt(k)) == PeriodAt(k + 1)
  {
    hide PeriodAt, PayPeriodContaining, PeriodIndex, AddDays, DayNumber, Tomorrow, IsLeap;
    PeriodParts(k);
    PeriodParts(k + 1);
    PeriodsTouch(k);
    AddOneIsTomorrow(PeriodAt(k).end);
    EndsLieWithin(k + 1);
    PeriodsPartition(PeriodAt(k + 1).start, k + 1);
    assert PayYear(k) <= PayYear(k + 1);
    ContainingIsIndexed(PeriodAt(k + 1).start);
  }

  /** A date so much later than `c` is not in a period that begins within two months of `c`. */
  lemma FarFromPeriod(d: CivilDate, c: CivilDate, j: int)
    requires IsCivil(d) && IsCivil(c) && d.year >= 1 && DayNumber(d) > DayNumber(c) + 365 * 1000
    requires PeriodAt(j).end.year <= c.year + 1
    ensures PayPeriodContaining(d) != PeriodAt(j)
  {
    hide PeriodAt, PayPeriodContaining, PeriodIndex, DayNumber, IsLeap, MonthLength;
    ContainingIsIndexed(d);
    PeriodsPartition(d, PeriodIndex(d));
    PeriodParts(j);
    MuchLaterYear(c, d);
  }

  lemma MuchLaterYear(c: CivilDate, d: CivilDate)
    requires IsCivil(c) && IsCivil(d) && DayNumber(d) > DayNumber(c) + 365 * 1000
    ensures d.year > c.year + 1
  {
    hide DayNumber, DayFromYear, IsLeap;
    DayNumberParts(c);
    DayNumberParts(d);
    DaysBeforeStep(c.year, c.month);
    DaysBeforeStep(d.year, d.month);
    YearLength(d.year);
    YearLength(c.year);
    YearLength(c.year + 1);
    if d.year <= c.year + 1 {
      YearsAscend(d.year, c.year + 2);
    }
  }

  lemma EndsLieWithin(k: int)
    ensures Within(PeriodAt(k).start, PeriodAt(k).start, PeriodAt(k).end)
    ensures Within(PeriodAt(k).end, PeriodAt(k).start, PeriodAt(k).end)
  {
  }

  lemma StartFollowsEnd(k: int)
    requires PeriodAt(k + 1).start.year >= 100
    ensures AddDays(PeriodAt(k + 1).start, -1) == PeriodAt(k).end
    ensures PeriodAt(k).end.year >= 100
  {
    hide PeriodAt, AddDays, DayNumber, IsLeap;
    PeriodParts(k);
    PeriodParts(k + 1);
    PeriodsTouch(k);
    NumbersCountDays(PeriodAt(k).end);
    AddDaysExact(PeriodAt(k + 1).start, -1);
    OrderIsDayOrder(AddDays(PeriodAt(k + 1).start, -1), PeriodAt(k).end);
  }

  // ---- keys ----------------------------------------------------------------------

  /** A key is the year in at least four digits, then six characters for the month and the number. */
  lemma KeyShape(year: int, month: int, number: int)
    requires year >= 0 && 1 <= month <= 12 && 1 <= number <= 2
    ensures var key, y, m := PayPeriodKey(year, month, number), PadStart(Numeral(year), 4), PadStart(Numeral(month), 2);
            && AllDigits(y) && AllDigits(m) && NumeralValue(y) == year && NumeralValue(m) == month
            && |m| == 2 && (|y| == 4 <==> year < 10000) && |y| >= 4
            && key == y + ['-'] + m + ['-', 'P', DigitChar(number)]
  {
    NumeralRoundTrip(year);
    NumeralRoundTrip(month);
    PadKeepsValue(Numeral(year), 4);
    PadKeepsValue(Numeral(month), 2);
    NumeralWidth(year);
    NumeralWidth(month);
    assert "-P" + IntNumeral(number) == ['-', 'P', DigitChar(number)];
  }

  /** A key names one period only. */
  lemma KeysAreUnique(j: int, k: int)
    requires PayYear(j) >= 0 && PayYear(k) >= 0 && PeriodAt(j).key == PeriodAt(k).key
    ensures j == k
  {
    hide PeriodAt, PayPeriodKey, PadStart, Numeral, NumeralValue;
    PeriodParts(j);
    PeriodParts(k);
    var mj, mk := j / 2 % 12 + 1, k / 2 % 12 + 1;
    KeyShape(PayYear(j), mj, j % 2 + 1);
    KeyShape(PayYear(k), mk, k % 2 + 1);
    var key := PeriodAt(j).key;
    var yj, yk := PadStart(Numeral(PayYear(j)), 4), PadStart(Numeral(PayYear(k)), 4);
    var tj, tk := PadStart(Numeral(mj), 2), PadStart(Numeral(mk), 2);
    var n := |yj|;
    assert |key| == n + 6 && |yk| == n;
    assert key[..n] == yj && key[..n] == yk;
    assert key[n + 1..n + 3] == tj && key[n + 1..n + 3] == tk;
    assert key[n + 5] == DigitChar(j % 2 + 1) && key[n + 5] == DigitChar(k % 2 + 1);
    assert j / 2 / 12 == PayYear(j) && k / 2 / 12 == PayYear(k);
  }

  /** Reading back the key of a period gives that period, exactly for the pay years 1900 to 2200. */
  lemma KeyRoundTrip(k: int)
    requires PayYear(k) >= 0
    ensures PayPeriodFromKey(PeriodAt(k).key) == Some(PeriodAt(k)) <==> 1900 <= PayYear(k) <= 2200
  {
    hide PeriodAt, PayPeriodKey, PadStart, Numeral, NumeralValue, PayPeriodContaining;
    PeriodParts(k);
    var year, month, number := PayYear(k), k / 2 % 12 + 1, k % 2 + 1;
    KeyShape(year, month, number);
    var key, y, m := PeriodAt(k).key, PadStart(Numeral(year), 4), PadStart(Numeral(month), 2);
    TrimOfTrimmed(key);
    if |y| == 4 {
      assert key[..4] == y && key[5..7] == m;
      if 1900 <= year <= 2200 {
        var c := CivilDate(year, month, if number == 1 then 1 else 10);
        ContainingIsIndexed(c);
        assert PeriodIndex(c) == k by { assert k / 2 / 12 == year; }
      }
    }
  }

  /** Any text accepted as a key is, up to surrounding white space, the key of the period it is read as. */
  lemma AcceptedKeyIsTheKey(text: string)
    requires PayPeriodFromKey(text).Some?
    ensures var p := PayPeriodFromKey(text).value;
            && p.key == Trim(text)
            && 1900 <= p.end.year <= 2200
            && exists k :: p == PeriodAt(k)
  {
    hide PeriodAt, PadStart, Numeral, NumeralValue, Trim;
    var s := Trim(text);
    var year, month := NumeralValue(s[..4]), NumeralValue(s[5..7]);
    var c := CivilDate(year, month, if s[9] == '1' then 1 else 10);
    ContainingIsIndexed(c);
    PeriodParts(PeriodIndex(c));
    KeyShape(year, month, if s[9] == '1' then 1 else 2);
    SameWidthSameValue(s[..4], PadStart(Numeral(year), 4));
    SameWidthSameValue(s[5..7], PadStart(Numeral(month), 2));
    assert s == s[..4] + ['-'] + s[5..7] + ['-', 'P', s[9]];
  }

  // ---- a list of recent periods ----------------------------------------------------

  /** The current period and those before it, newest first. */
  method RecentPayPeriods(current: PayPeriod, count: int) returns (out: seq<PayPeriod>)
    ensures |out| == (if count >= 1 then count else 1) && out[0] == current
    ensures forall i :: 1 <= i < |out| ==> out[i] == PreviousPayPeriod(out[i - 1])
    ensures forall k, i :: current == PeriodAt(k) && PeriodAt(k - |out| + 1).start.year >= 100 && 0 <= i < |out|
                           ==> out[i] == PeriodAt(k - i)
  {
    out := [current];
    while |out| < count
      invariant 1 <= |out| && (count >= 1 ==> |out| <= count) && (count < 1 ==> |out| == 1) && out[0] == current
      invariant forall i :: 1 <= i < |out| ==> out[i] == PreviousPayPeriod(out[i - 1])
      decreases count - |out|
    {
      out := out + [PreviousPayPeriod(out[|out| - 1])];
    }
    forall k, i | current == PeriodAt(k) && PeriodAt(k - |out| + 1).start.year >= 100 && 0 <= i < |out|
      ensures out[i] == PeriodAt(k - i)
    {
      WalkBack(out, k, i);
    }
  }

  lemma EarlierPeriodEarlierStart(j: int, k: int)
    requires j <= k
    ensures PeriodAt(j).start.year <= PeriodAt(k).start.year
  {
    hide PayPeriodKey;
    assert j / 2 <= k / 2 && (j / 2 - 1) / 12 <= (k / 2 - 1) / 12 && j / 2 / 12 <= k / 2 / 12;
    assert j % 2 == 1 && k % 2 == 0 ==> j / 2 <= k / 2 - 1;
  }

  lemma {:induction false} WalkBack(out: seq<PayPeriod>, k: int, i: nat)
    requires |out| >= 1 && out[0] == PeriodAt(k) && i < |out|
    requires forall j :: 1 <= j < |out| ==> out[j] == PreviousPayPeriod(out[j - 1])
    requires PeriodAt(k - |out| + 1).start.year >= 100
    ensures out[i] == PeriodAt(k - i)
  {
    hide PeriodAt, PreviousPayPeriod, NextPayPeriod;
    if i > 0 {
      WalkBack(out, k, i - 1);
      EarlierPeriodEarlierStart(k - |out| + 1, k - (i - 1));
      NeighboursOf(k - (i - 1));
    }
  }
}
