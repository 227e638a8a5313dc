// The one resolver behind every date-filtered report (src/lib/pay-period.ts): from a
// query-string selection and today's date to an inclusive range of civil days, and from
// that range to the one it is compared with.
module ReportRanges {
  import opened CivilCalendar
  import opened Text
  import opened PayPeriods

  datatype Kind =
    | CurrentPeriod | PreviousPeriod | Month | PreviousMonth | Year | Today | Week | AllTime | Custom

  datatype Bounds = Bounds(from: CivilDate, to: CivilDate)

  datatype ReportRange = ReportRange(
    kind: Kind,
    bounds: Option<Bounds>,
    payPeriod: Option<PayPeriod>,
    isCurrentPayPeriod: bool,
    warning: bool)

  datatype ReportInput = ReportInput(
    period: Option<string>,
    from: Option<string>,
    to: Option<string>,
    payPeriod: Option<string>)

  /** A missing value reads as the empty text. */
  function Trimmed(value: Option<string>): string {
    if value.Some? then Trim(value.value) else ""
  }

  // Letters whose lower case is an ASCII letter: A to Z and the Kelvin sign. No other
  // character can take part in a match with one of the names below.
  function Lower(s: string): (t: string)
    ensures |t| == |s|
  {
    seq(|s|, i requires 0 <= i < |s| =>
      if 'A' <= s[i] <= 'Z' then s[i] - 'A' + 'a' else if s[i] == '\U{212A}' then 'k' else s[i])
  }

  // ---- ISO dates -------------------------------------------------------------------

  predicate IsValidCivilDate(c: CivilDate) {
    1900 <= c.year <= 2200 && 1 <= c.month <= 12 && 1 <= c.day <= DaysInMonth(c.year, c.month)
  }

  predicate IsIsoText(s: string) {
    |s| == 10 && AllDigits(s[..4]) && s[4] == '-' && AllDigits(s[5..7]) && s[7] == '-' && AllDigits(s[8..])
  }

  function ParseIsoDate(value: string): Option<CivilDate> {
    var s := Trim(value);
    if !IsIsoText(s) then None
    else
      var c := CivilDate(NumeralValue(s[..4]), NumeralValue(s[5..7]), NumeralValue(s[8..]));
      if IsValidCivilDate(c) then Some(c) else None
  }

  function ToIsoDate(c: CivilDate): string {
    PadStart(IntNumeral(c.year), 4) + "-" + PadStart(IntNumeral(c.month), 2) + "-" + PadStart(IntNumeral(c.day), 2)
  }

  lemma ValidIsCivil(c: CivilDate)
    ensures IsValidCivilDate(c) <==> 1900 <= c.year <= 2200 && IsCivil(c)
  {
    hide DaysInMonth, MonthLength;
    if 1 <= c.month <= 12 {
      DaysInMonthExact(c.year, c.month);
    }
  }

  /** Printing and parsing a date is the identity exactly on the dates the program calls valid. */
  lemma IsoRoundTrip(c: CivilDate)
    requires c.year >= 0 && IsCivil(c)
    ensures ParseIsoDate(ToIsoDate(c)) == Some(c) <==> IsValidCivilDate(c)
  {
    hide PadStart, Numeral, NumeralValue, IsValidCivilDate, MonthLength;
    MonthsAreShort(c);
    var y, m, d := PadStart(Numeral(c.year), 4), PadStart(Numeral(c.month), 2), PadStart(Numeral(c.day), 2);
    NumeralRoundTrip(c.year);
    NumeralRoundTrip(c.month);
    NumeralRoundTrip(c.day);
    NumeralWidth(c.year);
    NumeralWidth(c.month);
    NumeralWidth(c.day);
    PadKeepsValue(Numeral(c.year), 4);
    PadKeepsValue(Numeral(c.month), 2);
    PadKeepsValue(Numeral(c.day), 2);
    ValidIsCivil(c);
    var s := ToIsoDate(c);
    assert s == y + ['-'] + m + ['-'] + d;
    TrimOfTrimmed(s);
    if |y| == 4 {
      assert s[..4] == y && s[5..7] == m && s[8..] == d;
    }
  }

  /** Any text accepted as a date is, up to surrounding white space, the valid date it is read as. */
  lemma AcceptedIsoIsTheDate(text: string)
    requires ParseIsoDate(text).Some?
    ensures var c := ParseIsoDate(text).value; Trim(text) == ToIsoDate(c) && 1900 <= c.year <= 2200 && IsCivil(c)
  {
    hide PadStart, Numeral, NumeralValue, Trim, DaysInMonth, IsCivil;
    var s := Trim(text);
    var c := ParseIsoDate(text).value;
    ValidIsCivil(c);
    NumeralWidth(c.year);
    NumeralWidth(c.month);
    NumeralWidth(c.day);
    SmallParts(c);
    PaddedIs(s[..4], c.year, 4);
    PaddedIs(s[5..7], c.month, 2);
    PaddedIs(s[8..], c.day, 2);
    assert s == s[..4] + ['-'] + s[5..7] + ['-'] + s[8..];
  }

  lemma SmallParts(c: CivilDate)
    requires IsCivil(c)
    ensures 0 <= c.month < 100 && 0 <= c.day < 100
  {
  }

  lemma PaddedIs(s: string, n: int, width: nat)
    requires AllDigits(s) && |s| == width >= 1 && NumeralValue(s) == n && n >= 0
    requires |Numeral(n)| <= width
    ensures PadStart(IntNumeral(n), width) == s
  {
    NumeralRoundTrip(n);
    PadKeepsValue(Numeral(n), width);
    SameWidthSameValue(s, PadStart(Numeral(n), width));
  }

  // ---- the resolver ------------------------------------------------------------------

  /**
   * What indexing KIND_ALIASES with a lower-case name yields: an alias, nothing, or a property every object inherits.
   */
  datatype Lookup = Alias(kind: Kind) | Missing | Inherited

  function KindAlias(name: string): Lookup {
    if name == "pay" || name == "pay-period" then Alias(CurrentPeriod)
    else if name == "previous" || name == "previous-pay-period" then Alias(PreviousPeriod)
    else if name == "month" then Alias(Month)
    else if name == "previous-month" then Alias(PreviousMonth)
    else if name == "year" then Alias(Year)
    else if name == "today" then Alias(Today)
    else if name == "week" then Alias(Week)
    else if name == "all" then Alias(AllTime)
    else if name == "custom" then Alias(Custom)
    else if name == "constructor" || name == "__proto__" then Inherited
    else Missing
  }

  function Fallback(current: PayPeriod, warning: bool): ReportRange {
    ReportRange(CurrentPeriod, Some(Bounds(current.start, current.end)), Some(current), true, warning)
  }

  function MonthRange(year: int, month: int): Bounds {
    Bounds(CivilDate(year, month, 1), CivilDate(year, month, DaysInMonth(year, month)))
  }

  /** getUTCDay: 0 is Sunday. */
  function WeekDay(c: CivilDate): int {
    (UtcDay(c.year, c.month - 1, c.day) + 4) % 7
  }

  /** The Sunday on or before a day. */
  function SundayOf(today: CivilDate): CivilDate {
    AddDays(today, -WeekDay(today))
  }

  function SamePeriod(p: PayPeriod, from: CivilDate, to: CivilDate): bool {
    CompareCivil(p.start, from) == 0 && CompareCivil(p.end, to) == 0
  }

  function ResolveExplicit(from: Option<CivilDate>, to: Option<CivilDate>, current: PayPeriod): ReportRange {
    if from.None? || to.None? then Fallback(current, true)
    else if CompareCivil(from.value, to.value) > 0 then Fallback(current, true)
    else
      var previous := PreviousPayPeriod(current);
      var asPeriod :=
        if SamePeriod(current, from.value, to.value) then Some(current)
        else if SamePeriod(previous, from.value, to.value) then Some(previous)
        else None;
      ReportRange(Custom, Some(Bounds(from.value, to.value)), asPeriod,
                  asPeriod.Some? && asPeriod.value.key == current.key, false)
  }

  function ResolveKind(kind: Kind, today: CivilDate, current: PayPeriod): ReportRange {
    match kind
    case CurrentPeriod => Fallback(current, false)
    case PreviousPeriod =>
      var prev := PreviousPayPeriod(current);
      ReportRange(kind, Some(Bounds(prev.start, prev.end)), Some(prev), false, false)
    case Month => ReportRange(kind, Some(MonthRange(today.year, today.month)), None, false, false)
    case PreviousMonth =>
      var (y, m) := AddMonths(today.year, today.month, -1);
      ReportRange(kind, Some(MonthRange(y, m)), None, false, false)
    case Year =>
      ReportRange(kind, Some(Bounds(CivilDate(today.year, 1, 1), CivilDate(today.year, 12, 31))), None, false, false)
    case Today => ReportRange(kind, Some(Bounds(today, today)), None, false, false)
    case Week =>
      var sunday := SundayOf(today);
      ReportRange(kind, Some(Bounds(sunday, AddDays(sunday, 6))), None, false, false)
    case AllTime => ReportRange(kind, None, None, false, false)
    case Custom => Fallback(current, true)
  }

  /**
   * None stands for the value undefined, which the function returns when its switch has no case for what it looked up.
   */
  function ResolveReportRange(input: ReportInput, today: CivilDate): Option<ReportRange> {
    var current := PayPeriodContaining(today);
    var rawFrom, rawTo := Trimmed(input.from), Trimmed(input.to);
    if rawFrom != "" || rawTo != "" then
      Some(ResolveExplicit(ParseIsoDate(rawFrom), ParseIsoDate(rawTo), current))
    else if Trimmed(input.payPeriod) != "" then
      var chosen := PayPeriodFromKey(input.payPeriod.value);
      if chosen.None? then Some(Fallback(current, true))
      else Some(ReportRange(CurrentPeriod, Some(Bounds(chosen.value.start, chosen.value.end)), chosen,
                            chosen.value.key == current.key, false))
    else
      match KindAlias(Lower(Trimmed(input.period)))
      case Alias(kind) => Some(ResolveKind(kind, today, current))
      case Missing => Some(Fallback(current, false))
      case Inherited => None
  }

  function PreviousEquivalentRange(r: ReportRange): Option<Bounds> {
    if r.bounds.None? then None
    else
      var from, to := r.bounds.value.from, r.bounds.value.to;
      if r.payPeriod.Some? && SamePeriod(r.payPeriod.value, from, to) then
        var prev := PreviousPayPeriod(r.payPeriod.value);
        Some(Bounds(prev.start, prev.end))
      else if from.day == 1 && from.year == to.year && from.month == to.month
           && to.day == DaysInMonth(to.year, to.month) then
        var (y, m) := AddMonths(from.year, from.month, -1);
        Some(MonthRange(y, m))
      else
        var length := DaysBetween(from, to) + 1;
        var prevTo := AddDays(from, -1);
        Some(Bounds(AddDays(prevTo, -(length - 1)), prevTo))
  }

  // ---- what the answers mean -----------------------------------------------------------

  /** Any day since the year 1; the program takes today from Intl, which counts the years of an era from 1. */
  predicate IsToday(today: CivilDate) {
    IsCivil(today) && today.year >= 1
  }

  /** Every year from which a selection steps by days is read as it is written. */
  predicate StepsAreRead(kind: Kind, today: CivilDate) {
    match kind
    case Week => ReadAsWritten(today.year) && ReadAsWritten(SundayOf(today).year)
    case PreviousPeriod => ReadAsWritten(PayPeriodContaining(today).start.year)
    case _ => true
  }

  predicate InReport(r: ReportRange, d: CivilDate) {
    r.bounds.None? || Within(d, r.bounds.value.from, r.bounds.value.to)
  }

  function SundayWeek(d: CivilDate): int {
    (DayNumber(d) + 4) / 7
  }

  /** The days each selection is meant to cover, said without ranges. */
  predicate Covers(r: ReportRange, today: CivilDate, d: CivilDate) {
    match r.kind
    case CurrentPeriod => r.payPeriod == Some(PayPeriodContaining(d))
    case PreviousPeriod => PeriodIndex(d) == PeriodIndex(today) - 1
    case Month => d.year == today.year && d.month == today.month
    case PreviousMonth => 12 * d.year + d.month == 12 * today.year + today.month - 1
    case Year => d.year == today.year
    case Today => d == today
    case Week => SundayWeek(d) == SundayWeek(today)
    case AllTime => true
    case Custom => r.bounds.Some? && DayNumber(r.bounds.value.from) <= DayNumber(d) <= DayNumber(r.bounds.value.to)
  }

  /** A nearby date is at most one year earlier. */
  lemma NearbyYear(c: CivilDate, days: int)
    requires IsCivil(c) && c.year >= 100 && days >= -365
    ensures AddDays(c, days).year >= c.year - 1
  {
    hide DayFromYear, DaysBefore, MakeDay, DayNumber, YearFromDay, MonthFrom;
    AddDaysExact(c, days);
    var d := UtcDay(c.year, c.month - 1, c.day + days);
    UtcDayShifts(c, days);
    DayNumberParts(c);
    DaysBeforeStep(c.year, c.month);
    YearBracket(d);
    YearsAscend(c.year - 1, c.year);
    if YearFromDay(d) < c.year - 1 {
      YearsAscend(YearFromDay(d) + 1, c.year - 1);
    }
  }

  lemma PeriodCovers(k: int, d: CivilDate)
    requires IsCivil(d) && d.year >= 1 && PayYear(k) >= 1
    ensures Within(d, PeriodAt(k).start, PeriodAt(k).end) <==> PayPeriodContaining(d) == PeriodAt(k)
  {
    hide PeriodAt, PayPeriodContaining, PeriodIndex, Within;
    PeriodsPartition(d, k);
    ContainingIsIndexed(d);
    PeriodIndexYear(d);
    if PayPeriodContaining(d) == PeriodAt(k) {
      KeysAreUnique(PeriodIndex(d), k);
    }
  }

  lemma PeriodIndexYear(d: CivilDate)
    requires IsCivil(d)
    ensures d.year <= PayYear(PeriodIndex(d)) <= d.year + 1
  {
  }

  lemma MonthCovers(y: int, m: int, d: CivilDate)
    requires IsCivil(d) && 1 <= m <= 12 && !(y == 0 && m == 2)
    ensures IsCivil(MonthRange(y, m).from) && IsCivil(MonthRange(y, m).to)
    ensures CompareCivil(MonthRange(y, m).from, MonthRange(y, m).to) <= 0
    ensures Within(d, MonthRange(y, m).from, MonthRange(y, m).to) <==> d.year == y && d.month == m
  {
    hide DaysInMonth;
    DaysInMonthExact(y, m);
  }

  /** The week selection gives the week of today, if both years it steps from are read as they are written. */
  lemma WeekCovers(today: CivilDate, d: CivilDate)
    requires IsCivil(today) && IsCivil(d) && ReadAsWritten(today.year) && ReadAsWritten(SundayOf(today).year)
    ensures Within(d, SundayOf(today), AddDays(SundayOf(today), 6)) <==> SundayWeek(d) == SundayWeek(today)
  {
    hide DayNumber, AddDays, MakeDay, CompareCivil;
    var sunday := SundayOf(today);
    AddDaysExact(today, -WeekDay(today));
    UtcDayShifts(today, 0);
    AddDaysExact(sunday, 6);
    OrderIsDayOrder(sunday, d);
    OrderIsDayOrder(d, sunday);
    OrderIsDayOrder(d, AddDays(sunday, 6));
  }

  /** In a year that Date.UTC misreads the week does not hold today. */
  lemma MisreadWeekMissesToday(today: CivilDate)
    requires IsCivil(today) && !ReadAsWritten(today.year)
    ensures !Within(today, SundayOf(today), AddDays(SundayOf(today), 6))
  {
    hide DayNumber, MakeDay, CivilFromDay, UtcDay, CompareCivil;
    var back := -WeekDay(today);
    var sunday := SundayOf(today);
    TwoDigitYearShift(today.year, today.month - 1, today.day + back);
    UtcDayShifts(today, back);
    DayRoundTrip(UtcDay(today.year, today.month - 1, today.day + back));
    OrderIsDayOrder(today, sunday);
    OrderIsDayOrder(sunday, today);
  }

  /** If only the Sunday's year is misread, the range runs on over the Sunday after. */
  lemma MisreadSundayRunsOn(today: CivilDate)
    requires IsCivil(today) && ReadAsWritten(today.year) && !ReadAsWritten(SundayOf(today).year)
    ensures var d := CivilFromDay(DayNumber(SundayOf(today)) + 7);
            && IsCivil(d) && d.year >= 100 && SundayWeek(d) != SundayWeek(today)
            && Within(d, SundayOf(today), AddDays(SundayOf(today), 6))
  {
    hide DayNumber, MakeDay, CivilFromDay, UtcDay, CompareCivil;
    var sunday := SundayOf(today);
    AddDaysExact(today, -WeekDay(today));
    UtcDayShifts(today, 0);
    var d := CivilFromDay(DayNumber(sunday) + 7);
    DayRoundTrip(DayNumber(sunday) + 7);
    DayRoundTrip(UtcDay(sunday.year, sunday.month - 1, sunday.day + 6));
    TwoDigitYearShift(sunday.year, sunday.month - 1, sunday.day + 6);
    UtcDayShifts(sunday, 6);
    OrderIsDayOrder(today, sunday);
    OrderIsDayOrder(d, today);
    OrderIsDayOrder(d, sunday);
    OrderIsDayOrder(AddDays(sunday, 6), d);
    NotLaterYear(sunday, today);
    NotLaterYear(today, d);
    ComparedBack(d, AddDays(sunday, 6));
    ComparedBack(sunday, d);
  }

  lemma NotLaterYear(a: CivilDate, b: CivilDate)
    requires CompareCivil(b, a) >= 0
    ensures a.year <= b.year
  {
  }

  lemma ComparedBack(a: CivilDate, b: CivilDate)
    ensures CompareCivil(a, b) == -CompareCivil(b, a)
  {
  }

  /**
   * For every real date the week range holds exactly the days of its Sunday-to-Saturday week if and only if Date.UTC
   * reads both the year of today and that of the Sunday as they are written.
   */
  lemma WeekIsExact(today: CivilDate)
    requires IsCivil(today)
    ensures (forall d :: IsCivil(d) ==>
               (Within(d, SundayOf(today), AddDays(SundayOf(today), 6)) <==> SundayWeek(d) == SundayWeek(today)))
       <==> ReadAsWritten(today.year) && ReadAsWritten(SundayOf(today).year)
  {
    hide DayNumber, CivilFromDay, SundayOf, Within, ReadAsWritten, IsCivil, AddDays, SundayWeek;
    if !ReadAsWritten(today.year) {
      MisreadWeekMissesToday(today);
    } else if !ReadAsWritten(SundayOf(today).year) {
      MisreadSundayRunsOn(today);
    } else {
      forall d | IsCivil(d)
        ensures Within(d, SundayOf(today), AddDays(SundayOf(today), 6)) <==> SundayWeek(d) == SundayWeek(today)
      {
        WeekCovers(today, d);
      }
    }
  }

  /** The days of today's pay period, from which the current and the previous period are found. */
  lemma CurrentIsPeriod(today: CivilDate)
    requires IsToday(today)
    ensures var k := PeriodIndex(today);
            && PayPeriodContaining(today) == PeriodAt(k) && PayYear(k) >= 1 && PeriodAt(k).start.year >= 0
  {
    hide PeriodAt, PayPeriodContaining, MonthLength;
    PeriodIndexYear(today);
    ContainingIsIndexed(today);
    PeriodParts(PeriodIndex(today));
  }

  /**
   * What the program takes for the previous period is a period too, and never the same one; it is the one before if and
   * only if the year of the first day is read as it is written.
   */
  lemma PreviousIsPeriod(k: int)
    requires PeriodAt(k).start.year >= 0
    ensures var e := AddDays(PeriodAt(k).start, -1);
            var j := PeriodIndex(e);
            && IsCivil(e) && e.year >= 1 && PreviousPayPeriod(PeriodAt(k)) == PeriodAt(j)
            && PayYear(j) >= 1 && PeriodAt(j).start.year >= 0 && j != k
            && (ReadAsWritten(PeriodAt(k).start.year) ==> j == k - 1)
            && (!ReadAsWritten(PeriodAt(k).start.year) ==> PayYear(j) > PayYear(k))
  {
    hide PeriodAt, PayPeriodContaining, PeriodIndex, AddDays, DayNumber, Within, MonthLength;
    var start := PeriodAt(k).start;
    var e := AddDays(start, -1);
    PeriodParts(k);
    if start.year >= 100 {
      StartFollowsEnd(k - 1);
      EndsLieWithin(k - 1);
      PeriodParts(k - 1);
      PeriodsPartition(e, k - 1);
    } else {
      MisreadNeighbour(start, -1);
      MuchLaterYear(start, e);
    }
    ContainingIsIndexed(e);
    PeriodIndexYear(e);
    PeriodParts(PeriodIndex(e));
  }

  /**
   * The function has an answer unless nothing else was selected and the period is one of the two inherited property
   * names.
   */
  lemma AnswersUnlessInherited(input: ReportInput, today: CivilDate)
    ensures ResolveReportRange(input, today).None?
       <==> && Trimmed(input.from) == "" && Trimmed(input.to) == "" && Trimmed(input.payPeriod) == ""
            && (Lower(Trimmed(input.period)) == "constructor" || Lower(Trimmed(input.period)) == "__proto__")
  {
    hide PayPeriodContaining, ParseIsoDate, PayPeriodFromKey, Lower, Trim, ResolveKind, ResolveExplicit, Fallback;
  }

  /** The name a selector link carries for each kind. */
  function KindName(kind: Kind): string {
    match kind
    case CurrentPeriod => "pay-period"
    case PreviousPeriod => "previous-pay-period"
    case Month => "month"
    case PreviousMonth => "previous-month"
    case Year => "year"
    case Today => "today"
    case Week => "week"
    case AllTime => "all"
    case Custom => "custom"
  }

  /**
   * With no dates and no key given, a link's own kind is the one resolved, except that a bare "custom" warns and falls
   * back.
   */
  lemma NamedKindIsResolved(kind: Kind, today: CivilDate)
    ensures var r := ResolveReportRange(ReportInput(Some(KindName(kind)), None, None, None), today);
            r.Some? && (if kind == Custom then r.value == Fallback(PayPeriodContaining(today), true)
                        else r.value.kind == kind)
  {
    hide PayPeriodContaining, PreviousPayPeriod, AddDays, DaysInMonth, AddMonths, WeekDay, Trim, KindName, KindAlias,
         Lower;
    NamesAreCanonical(kind);
  }

  /** The two short names are those of the two kinds of pay period. */
  lemma ShortNames(today: CivilDate)
    ensures ResolveReportRange(ReportInput(Some("pay"), None, None, None), today)
            == ResolveReportRange(ReportInput(Some("pay-period"), None, None, None), today)
    ensures ResolveReportRange(ReportInput(Some("previous"), None, None, None), today)
            == ResolveReportRange(ReportInput(Some("previous-pay-period"), None, None, None), today)
  {
    hide ResolveKind, PayPeriodContaining, Trim, Lower, Fallback;
    TrimOfTrimmed("pay");
    TrimOfTrimmed("pay-period");
    TrimOfTrimmed("previous");
    TrimOfTrimmed("previous-pay-period");
    LowerOfLower("pay");
    LowerOfLower("pay-period");
    LowerOfLower("previous");
    LowerOfLower("previous-pay-period");
  }

  /** The same letters, some of them written large in `b`, or as the Kelvin sign for a k. */
  predicate DiffersInCase(a: string, b: string) {
    |a| == |b| && forall i :: 0 <= i < |a| ==>
      b[i] == a[i] || ('a' <= a[i] <= 'z' && b[i] == a[i] - 'a' + 'A') || (a[i] == 'k' && b[i] == '\U{212A}')
  }

  /** The case of a name does not matter, nor does white space around it. */
  lemma CaseIsIgnored(a: ReportInput, b: ReportInput, today: CivilDate)
    requires DiffersInCase(Trimmed(a.period), Trimmed(b.period)) && b == a.(period := b.period)
    ensures ResolveReportRange(a, today) == ResolveReportRange(b, today)
  {
    hide PayPeriodContaining, ParseIsoDate, PayPeriodFromKey, ResolveKind, ResolveExplicit, Fallback, KindAlias, Trim;
    assert Lower(Trimmed(a.period)) == Lower(Trimmed(b.period));
  }

  lemma NamesAreCanonical(kind: Kind)
    ensures Trim(KindName(kind)) == KindName(kind) && Lower(KindName(kind)) == KindName(kind)
    ensures KindAlias(KindName(kind)) == Alias(kind)
  {
    hide Trim, Lower;
    var name := KindName(kind);
    TrimOfTrimmed(name);
    LowerOfLower(name);
  }

  lemma LowerOfLower(s: string)
    requires forall ch :: ch in s ==> ch == '-' || 'a' <= ch <= 'z'
    ensures Lower(s) == s
  {
    assert forall i :: 0 <= i < |s| ==> s[i] in s;
  }

  /**
   * Explicit dates win over a key and a kind, a key wins over a kind, and white space around either does not matter.
   */
  lemma SelectionPriority(a: ReportInput, b: ReportInput, today: CivilDate)
    requires Trimmed(a.from) == Trimmed(b.from) && Trimmed(a.to) == Trimmed(b.to)
    requires || Trimmed(a.from) != "" || Trimmed(a.to) != ""
             || (Trimmed(a.payPeriod) == Trimmed(b.payPeriod) && Trimmed(a.payPeriod) != "")
    ensures ResolveReportRange(a, today) == ResolveReportRange(b, today)
  {
    hide PayPeriodContaining, ParseIsoDate, Lower, Trim, ResolveKind, ResolveExplicit, Fallback, NumeralValue,
         IsKeyText;
  }

  /**
   * A warning always comes with today's own pay period, and is given exactly for input that was asked for but not
   * usable.
   */
  lemma WarnsExactly(input: ReportInput, today: CivilDate)
    requires ResolveReportRange(input, today).Some?
    ensures var r := ResolveReportRange(input, today).value;
            var from, to := ParseIsoDate(Trimmed(input.from)), ParseIsoDate(Trimmed(input.to));
            var explicit := Trimmed(input.from) != "" || Trimmed(input.to) != "";
            && (r.warning ==> r == Fallback(PayPeriodContaining(today), true))
            && (r.warning <==>
                  if explicit then from.None? || to.None? || CompareCivil(from.value, to.value) > 0
                  else if Trimmed(input.payPeriod) != "" then PayPeriodFromKey(input.payPeriod.value).None?
                  else KindAlias(Lower(Trimmed(input.period))) == Alias(Custom))
  {
    hide PayPeriodContaining, ParseIsoDate, PayPeriodFromKey, Lower, Trim, KindAlias, PreviousPayPeriod, AddDays,
         DaysInMonth, AddMonths, WeekDay, CompareCivil;
  }

  lemma UndefinedForConstructor(today: CivilDate)
    ensures ResolveReportRange(ReportInput(Some("constructor"), None, None, None), today).None?
  {
    TrimOfTrimmed("constructor");
    var name := Lower("constructor");
    assert name == "constructor";
  }

  // ---- the three main results ------------------------------------------------------------

  ghost predicate IsProperRange(b: Bounds) {
    IsCivil(b.from) && IsCivil(b.to) && CompareCivil(b.from, b.to) <= 0
  }

  lemma PeriodRangeIsProper(k: int)
    ensures IsProperRange(Bounds(PeriodAt(k).start, PeriodAt(k).end))
  {
    PeriodParts(k);
  }

  /**
   * Every answer is an ordered range of real dates (or unbounded). It holds exactly the days its kind is meant to
   * cover, provided a week or previous period does not step from a year that Date.UTC misreads.
   */
  lemma RangeCoversSelection(input: ReportInput, today: CivilDate, d: CivilDate)
    requires IsToday(today) && IsCivil(d) && d.year >= 1
    requires ResolveReportRange(input, today).Some?
    ensures var r := ResolveReportRange(input, today).value;
            && (r.bounds.None? <==> r.kind == AllTime)
            && (r.bounds.Some? ==> IsProperRange(r.bounds.value))
            && (StepsAreRead(r.kind, today) ==> (InReport(r, d) <==> Covers(r, today, d)))
  {
    hide PeriodAt, PayPeriodContaining, PeriodIndex, ParseIsoDate, PayPeriodFromKey, PayPeriodKey, DaysInMonth, AddDays,
         DayNumber, Lower, Trim, SundayOf, SundayWeek, PreviousPayPeriod, KindAlias, AddMonths, MonthRange, IsCivil,
         Within, CompareCivil, SamePeriod, ReadAsWritten;
    var r := ResolveReportRange(input, today).value;
    var current := PayPeriodContaining(today);
    CurrentIsPeriod(today);
    var k := PeriodIndex(today);
    PeriodRangeIsProper(k);
    PeriodCovers(k, d);
    if r.kind == Custom {
      ExplicitIsProper(input, today, d);
    } else if r.kind == PreviousPeriod {
      PreviousIsPeriod(k);
      var j := PeriodIndex(AddDays(current.start, -1));
      PeriodRangeIsProper(j);
      PeriodsPartition(d, j);
    } else if r.kind == Month {
      CivilMonth(today);
      MonthCovers(today.year, today.month, d);
    } else if r.kind == PreviousMonth {
      PreviousMonthCovers(today, d);
    } else if r.kind == Year {
      YearCovers(today.year, d);
    } else if r.kind == Today {
      TodayCovers(today, d);
    } else if r.kind == Week {
      WeekIsProper(today);
      if StepsAreRead(Week, today) {
        WeekCovers(today, d);
      }
    } else if r.kind == CurrentPeriod && r.payPeriod != Some(current) {
      AcceptedKeyIsTheKey(input.payPeriod.value);
      var j :| r.payPeriod == Some(PeriodAt(j));
      PeriodParts(j);
      PeriodRangeIsProper(j);
      PeriodCovers(j, d);
    }
  }

  /** The answer holds exactly the days its kind is meant to cover if and only if it steps from no misread year. */
  lemma CoversExactly(input: ReportInput, today: CivilDate)
    requires IsToday(today) && ResolveReportRange(input, today).Some?
    ensures var r := ResolveReportRange(input, today).value;
            (forall d :: IsCivil(d) && d.year >= 1 ==> (InReport(r, d) <==> Covers(r, today, d)))
            <==> StepsAreRead(r.kind, today)
  {
    hide PeriodAt, PayPeriodContaining, PeriodIndex, ParseIsoDate, PayPeriodFromKey, PayPeriodKey, DaysInMonth, AddDays,
         DayNumber, Lower, Trim, SundayOf, SundayWeek, PreviousPayPeriod, KindAlias, AddMonths, MonthRange, IsCivil,
         Within, CompareCivil, SamePeriod, ReadAsWritten;
    var r := ResolveReportRange(input, today).value;
    if StepsAreRead(r.kind, today) {
      forall d | IsCivil(d) && d.year >= 1 ensures InReport(r, d) <==> Covers(r, today, d) {
        RangeCoversSelection(input, today, d);
      }
    } else if r.kind == Week {
      if ReadAsWritten(today.year) {
        MisreadSundayRunsOn(today);
      } else {
        MisreadWeekMissesToday(today);
      }
    } else {
      MisreadPreviousIsLater(today);
    }
  }

  /** The misread previous period holds the day the program steps to, which is later than today. */
  lemma MisreadPreviousIsLater(today: CivilDate)
    requires IsToday(today) && !ReadAsWritten(PayPeriodContaining(today).start.year)
    ensures var previous := PreviousPayPeriod(PayPeriodContaining(today));
            var e := AddDays(PayPeriodContaining(today).start, -1);
            && IsCivil(e) && e.year >= 1 && Within(e, previous.start, previous.end)
            && PeriodIndex(e) != PeriodIndex(today) - 1
  {
    hide PeriodAt, PayPeriodContaining, PeriodIndex, AddDays, DayNumber, Within, PreviousPayPeriod;
    var k := PeriodIndex(today);
    CurrentIsPeriod(today);
    PreviousIsPeriod(k);
    var e := AddDays(PeriodAt(k).start, -1);
    PeriodsPartition(e, PeriodIndex(e));
  }

  // ---- which answer belongs to which input -----------------------------------------------

  predicate NoDates(input: ReportInput) {
    Trimmed(input.from) == "" && Trimmed(input.to) == ""
  }

  /** The key of a pay period selects that period, whatever the day and whatever else is named. */
  lemma KeyIsAnswered(input: ReportInput, today: CivilDate, k: int, d: CivilDate)
    requires NoDates(input) && 1900 <= PayYear(k) <= 2200 && Trimmed(input.payPeriod) == PeriodAt(k).key && IsCivil(d)
    ensures var r := ResolveReportRange(input, today);
            r.Some? && !r.value.warning && r.value.bounds.Some? && (InReport(r.value, d) <==> PeriodIndex(d) == k)
  {
    hide PeriodAt, PayPeriodContaining, PeriodIndex, ParseIsoDate, PayPeriodFromKey, Trim, IsCivil, Within;
    KeyRoundTrip(k);
    KeyIsNotEmpty(k);
    SameTrimSameKey(input.payPeriod.value, PeriodAt(k).key);
    PeriodsPartition(d, k);
  }

  lemma KeyIsNotEmpty(k: int)
    requires PayYear(k) >= 0
    ensures PeriodAt(k).key != "" && Trim(PeriodAt(k).key) == PeriodAt(k).key
  {
    hide PeriodAt, PayPeriodKey, PadStart, Numeral, NumeralValue;
    PeriodParts(k);
    KeyShape(PayYear(k), k / 2 % 12 + 1, k % 2 + 1);
    TrimOfTrimmed(PeriodAt(k).key);
  }

  lemma SameTrimSameKey(a: string, b: string)
    requires Trim(a) == Trim(b)
    ensures PayPeriodFromKey(a) == PayPeriodFromKey(b)
  {
    hide Trim, PayPeriodContaining, NumeralValue;
  }

  const OTHER_NAMES := ["previous", "previous-pay-period", "month", "previous-month", "year", "today", "week", "all",
                        "custom", "constructor", "__proto__"]

  /**
   * Without dates and key, everything but the names of other kinds selects the pay period of today, without warning.
   */
  lemma NothingSelectedIsCurrent(input: ReportInput, today: CivilDate, d: CivilDate)
    requires NoDates(input) && Trimmed(input.payPeriod) == "" && Lower(Trimmed(input.period)) !in OTHER_NAMES
    requires IsToday(today) && IsCivil(d)
    ensures var r := ResolveReportRange(input, today);
            && r.Some? && !r.value.warning && r.value.bounds.Some?
            && (InReport(r.value, d) <==> PeriodIndex(d) == PeriodIndex(today))
  {
    hide PeriodAt, PayPeriodContaining, PeriodIndex, ParseIsoDate, PayPeriodFromKey, Trim, Lower, IsCivil, Within;
    assert forall name :: name !in OTHER_NAMES ==> KindAlias(name) == Alias(CurrentPeriod) || KindAlias(name) == Missing
    by {
      OtherNames();
    }
    CurrentIsPeriod(today);
    PeriodsPartition(d, PeriodIndex(today));
  }

  lemma OtherNames()
    ensures forall name :: name !in OTHER_NAMES ==>
              KindAlias(name) == Alias(CurrentPeriod) || KindAlias(name) == Missing
  {
    assert OTHER_NAMES[0] == "previous" && OTHER_NAMES[1] == "previous-pay-period" && OTHER_NAMES[2] == "month"
           && OTHER_NAMES[3] == "previous-month" && OTHER_NAMES[4] == "year" && OTHER_NAMES[5] == "today"
           && OTHER_NAMES[6] == "week" && OTHER_NAMES[7] == "all" && OTHER_NAMES[8] == "custom"
           && OTHER_NAMES[9] == "constructor" && OTHER_NAMES[10] == "__proto__";
  }

  /** Two valid dates in order, written as ISO texts, select exactly the days from one to the other. */
  lemma DatesAreAnswered(input: ReportInput, today: CivilDate, from: CivilDate, to: CivilDate, d: CivilDate)
    requires Trimmed(input.from) == ToIsoDate(from) && Trimmed(input.to) == ToIsoDate(to)
    requires IsCivil(from) && IsCivil(to) && IsCivil(d) && 1900 <= from.year && to.year <= 2200
    requires DayNumber(from) <= DayNumber(to)
    ensures var r := ResolveReportRange(input, today);
            && r.Some? && !r.value.warning && r.value.kind == Custom && r.value.bounds == Some(Bounds(from, to))
            && (InReport(r.value, d) <==> DayNumber(from) <= DayNumber(d) <= DayNumber(to))
  {
    hide PayPeriodContaining, PreviousPayPeriod, ParseIsoDate, PayPeriodFromKey, Trim, Lower, IsCivil, DayNumber,
         KindAlias, ToIsoDate, ResolveKind, SamePeriod, CompareCivil, IsValidCivilDate;
    OrderIsDayOrder(to, from);
    ComparedBack(from, to);
    NotLaterYear(from, to);
    ValidIsCivil(from);
    ValidIsCivil(to);
    IsoRoundTrip(from);
    IsoRoundTrip(to);
    IsoIsNotEmpty(from);
    OrderIsDayOrder(from, d);
    OrderIsDayOrder(d, from);
    OrderIsDayOrder(d, to);
    ComparedBack(from, d);
  }

  lemma IsoIsNotEmpty(c: CivilDate)
    ensures ToIsoDate(c) != ""
  {
  }

  lemma ExplicitIsProper(input: ReportInput, today: CivilDate, d: CivilDate)
    requires IsCivil(d)
    requires ResolveReportRange(input, today).Some? && ResolveReportRange(input, today).value.kind == Custom
    ensures var r := ResolveReportRange(input, today).value;
            && r.bounds.Some? && IsProperRange(r.bounds.value)
            && Some(r.bounds.value.from) == ParseIsoDate(Trimmed(input.from))
            && Some(r.bounds.value.to) == ParseIsoDate(Trimmed(input.to))
            && IsValidCivilDate(r.bounds.value.from) && IsValidCivilDate(r.bounds.value.to)
            && (InReport(r, d) <==> Covers(r, today, d))
  {
    hide PayPeriodContaining, PayPeriodFromKey, DaysInMonth, DayNumber, Lower, Trim, PreviousPayPeriod, KindAlias,
         CompareCivil, SamePeriod, IsCivil, NumeralValue, MonthRange, AddMonths, AddDays, WeekDay, IsIsoText,
         IsValidCivilDate;
    var b := ResolveReportRange(input, today).value.bounds.value;
    ValidIsCivil(b.from);
    ValidIsCivil(b.to);
    OrderIsDayOrder(b.from, d);
    OrderIsDayOrder(d, b.to);
  }

  /** Explicit dates are recognised as the current or the previous period exactly if they are its first and last day. */
  lemma PeriodIsRecognised(input: ReportInput, today: CivilDate)
    requires ResolveReportRange(input, today).Some? && ResolveReportRange(input, today).value.kind == Custom
    ensures var r := ResolveReportRange(input, today).value;
            var current := PayPeriodContaining(today);
            var previous := PreviousPayPeriod(current);
            r.payPeriod == if r.bounds == Some(Bounds(current.start, current.end)) then Some(current)
                           else if r.bounds == Some(Bounds(previous.start, previous.end)) then Some(previous)
                           else None
  {
    hide PayPeriodContaining, ParseIsoDate, PayPeriodFromKey, Lower, Trim, KindAlias, PreviousPayPeriod, AddDays,
         DaysInMonth, AddMonths, WeekDay;
  }

  lemma PreviousMonthCovers(today: CivilDate, d: CivilDate)
    requires IsToday(today) && IsCivil(d)
    ensures var (y, m) := AddMonths(today.year, today.month, -1);
            && (y >= 1 || (y == 0 && m == 12)) && IsProperRange(MonthRange(y, m))
            && (Within(d, MonthRange(y, m).from, MonthRange(y, m).to) <==>
                12 * d.year + d.month == 12 * today.year + today.month - 1)
  {
    hide MonthRange, MonthLength;
    AddMonthsExact(today.year, today.month, -1);
    var (y, m) := AddMonths(today.year, today.month, -1);
    MonthCovers(y, m, d);
  }

  lemma YearCovers(y: int, d: CivilDate)
    requires IsCivil(d)
    ensures IsProperRange(Bounds(CivilDate(y, 1, 1), CivilDate(y, 12, 31)))
    ensures Within(d, CivilDate(y, 1, 1), CivilDate(y, 12, 31)) <==> d.year == y
  {
    MonthsAreShort(d);
  }

  lemma TodayCovers(today: CivilDate, d: CivilDate)
    requires IsCivil(today)
    ensures IsProperRange(Bounds(today, today))
    ensures Within(d, today, today) <==> d == today
  {
  }

  /** Whatever Date.UTC misreads, the range of a week ends six days after its start or later. */
  lemma WeekIsProper(today: CivilDate)
    requires IsToday(today)
    ensures var b := Bounds(SundayOf(today), AddDays(SundayOf(today), 6));
            && IsProperRange(b) && b.from.year >= 1
            && (DayNumber(b.to) == DayNumber(b.from) + 6 || b.to.year > b.from.year + 1)
  {
    hide AddDays, DayNumber, MakeDay, UtcDay, IsCivil, CompareCivil;
    var sunday := SundayOf(today);
    AddDaysExact(today, -WeekDay(today));
    if ReadAsWritten(today.year) {
      NearbyYear(today, -WeekDay(today));
    } else {
      MisreadNeighbour(today, -WeekDay(today));
    }
    AddDaysExact(sunday, 6);
    if !ReadAsWritten(sunday.year) {
      MisreadNeighbour(sunday, 6);
      MuchLaterYear(sunday, AddDays(sunday, 6));
    }
    OrderIsDayOrder(AddDays(sunday, 6), sunday);
    ComparedBack(sunday, AddDays(sunday, 6));
  }

  /** A pay period runs over more than one week, so no other selection of fixed shape can be mistaken for it. */
  lemma PeriodIsLong(k: int)
    ensures DayNumber(PeriodAt(k).end) > DayNumber(PeriodAt(k).start) + 6
    ensures PeriodAt(k).start.day > 1
  {
    hide DayNumber, PeriodIndex, IsLeap;
    var a := PeriodAt(k).start;
    PeriodParts(k);
    EndsLieWithin(k);
    PeriodsPartition(a, k);
    var e := a.(day := a.day + 7);
    SameBlock(a, e);
    PeriodsPartition(e, k);
    DayNumberParts(a);
    DayNumberParts(e);
    OrderIsDayOrder(e, PeriodAt(k).end);
  }

  lemma SameBlock(a: CivilDate, e: CivilDate)
    requires IsCivil(a) && (a.day == 6 || a.day == 21) && e == a.(day := a.day + 7)
    ensures IsCivil(e) && PeriodIndex(e) == PeriodIndex(a)
  {
  }

  /** isCurrentPayPeriod says exactly whether the range is that of the pay period today belongs to. */
  lemma CurrentFlagIsExact(input: ReportInput, today: CivilDate)
    requires IsToday(today) && ResolveReportRange(input, today).Some?
    ensures var r := ResolveReportRange(input, today).value;
            var current := PayPeriodContaining(today);
            r.isCurrentPayPeriod <==> r.bounds == Some(Bounds(current.start, current.end))
  {
    hide PeriodAt, PayPeriodContaining, PeriodIndex, ParseIsoDate, PayPeriodFromKey, PayPeriodKey, DaysInMonth, AddDays,
         DayNumber, Lower, Trim, SundayOf, SundayWeek, PreviousPayPeriod, KindAlias, AddMonths, IsCivil, Within, IsLeap,
         MonthLength, ReadAsWritten;
    var r := ResolveReportRange(input, today).value;
    CurrentIsPeriod(today);
    var k := PeriodIndex(today);
    PeriodIsLong(k);
    PeriodParts(k);
    PreviousIsPeriod(k);
    var before := PeriodIndex(AddDays(PeriodAt(k).start, -1));
    if r.kind == Week {
      WeekIsProper(today);
    } else if r.kind == PreviousPeriod {
      StartsDiffer(before, k);
    } else if r.kind == Custom {
      if PeriodAt(before).key == PeriodAt(k).key {
        KeysAreUnique(before, k);
      }
    } else if r.kind == CurrentPeriod && r.payPeriod != Some(PeriodAt(k)) {
      AcceptedKeyIsTheKey(input.payPeriod.value);
      var j :| r.payPeriod == Some(PeriodAt(j));
      PeriodParts(j);
      if PeriodAt(j).key == PeriodAt(k).key {
        KeysAreUnique(j, k);
      }
      if j != k {
        StartsDiffer(j, k);
      }
    }
  }

  lemma StartsDiffer(j: int, k: int)
    requires j != k
    ensures PeriodAt(j).start != PeriodAt(k).start
  {
    hide PeriodAt, PeriodIndex, Within, IsCivil;
    PeriodParts(j);
    PeriodParts(k);
    EndsLieWithin(j);
    EndsLieWithin(k);
    PeriodsPartition(PeriodAt(j).start, j);
    PeriodsPartition(PeriodAt(j).start, k);
  }

  predicate IsWholeMonth(b: Bounds) {
    b.from.day == 1 && b.from.year == b.to.year && b.from.month == b.to.month
        && b.to.day == DaysInMonth(b.to.year, b.to.month)
  }

  predicate IsWholePeriod(r: ReportRange) {
    r.bounds.Some? && r.payPeriod.Some? && SamePeriod(r.payPeriod.value, r.bounds.value.from, r.bounds.value.to)
  }

  /** `prev` ends on the day before `b` begins. */
  ghost predicate Precedes(prev: Bounds, b: Bounds) {
    IsProperRange(prev) && Tomorrow(prev.to) == b.from
  }

  lemma PrecedingPeriod(r: ReportRange, k: int)
    requires IsWholePeriod(r) && r.payPeriod.value == PeriodAt(k) && PeriodAt(k).start.year >= 0
             && IsProperRange(r.bounds.value)
    ensures PreviousEquivalentRange(r).Some? && r.bounds.value.from == PeriodAt(k).start
    ensures Precedes(PreviousEquivalentRange(r).value, r.bounds.value) <==> ReadAsWritten(PeriodAt(k).start.year)
  {
    hide PeriodAt, AddDays, DayNumber, PreviousPayPeriod, DaysInMonth, IsLeap, PeriodIndex, ReadAsWritten;
    PreviousIsPeriod(k);
    var j := PeriodIndex(AddDays(PeriodAt(k).start, -1));
    PeriodRangeIsProper(j);
    PeriodRangeIsProper(k);
    PeriodsTouch(k - 1);
    PeriodParts(j);
    PeriodParts(k);
  }

  lemma PrecedingMonth(y: int, m: int)
    requires 1 <= m <= 12 && y >= 0 && (y == 0 ==> m > 3)
    ensures var (py, pm) := AddMonths(y, m, -1);
            Precedes(MonthRange(py, pm), MonthRange(y, m))
  {
    hide DaysInMonth, IsLeap;
    AddMonthsExact(y, m, -1);
    var (py, pm) := AddMonths(y, m, -1);
    DaysInMonthExact(py, pm);
  }

  function DaysBeforeRange(b: Bounds): Bounds {
    var prevTo := AddDays(b.from, -1);
    Bounds(AddDays(prevTo, -DaysBetween(b.from, b.to)), prevTo)
  }

  ghost predicate SameLength(a: Bounds, b: Bounds) {
    DayNumber(a.to) - DayNumber(a.from) == DayNumber(b.to) - DayNumber(b.from)
  }

  /** The years of both ends, and of the day before the first, are read as they are written. */
  predicate EndsAreRead(b: Bounds) {
    ReadAsWritten(b.from.year) && ReadAsWritten(b.to.year) && ReadAsWritten(AddDays(b.from, -1).year)
  }

  /** The general branch gives the same number of days, directly before, if and only if it meets no misread year. */
  lemma PrecedingDays(b: Bounds)
    requires IsProperRange(b)
    ensures Precedes(DaysBeforeRange(b), b) && SameLength(DaysBeforeRange(b), b) <==> EndsAreRead(b)
  {
    hide AddDays, DayNumber, MakeDay, UtcDay, IsCivil, Tomorrow, CompareCivil;
    var prevTo := AddDays(b.from, -1);
    var back := DaysBetween(b.from, b.to);
    AddDaysExact(b.from, -1);
    AddDaysExact(prevTo, -back);
    NumbersCountDays(prevTo);
    OrderIsDayOrder(Tomorrow(prevTo), b.from);
    if ReadAsWritten(b.from.year) {
      ReadExactly(b.from);
      ReadExactly(b.to);
      OrderIsDayOrder(b.from, prevTo);
      NotLaterYear(prevTo, b.from);
      ComparedBack(b.from, b.to);
      NotLaterYear(b.from, b.to);
      OrderIsDayOrder(b.from, b.to);
      OrderIsDayOrder(AddDays(prevTo, -back), prevTo);
    }
  }

  lemma ReadExactly(c: CivilDate)
    ensures UtcDay(c.year, c.month - 1, c.day) == DayNumber(c) <==> ReadAsWritten(c.year)
  {
    hide MakeDay;
    UtcDayShifts(c, 0);
    if !ReadAsWritten(c.year) {
      TwoDigitYearShift(c.year, c.month - 1, c.day);
    }
  }

  /** Where an answer that is not a pay period begins, and that the others are exactly their pay period. */
  lemma AnswerParts(input: ReportInput, today: CivilDate)
    requires IsToday(today) && ResolveReportRange(input, today).Some?
    ensures var r := ResolveReportRange(input, today).value;
            r.bounds.Some? ==>
              && (r.payPeriod.None? ==>
                    var first := r.bounds.value.from; first.year >= 1 || (first.year == 0 && first.month == 12))
              && (r.payPeriod.Some? ==>
                    IsWholePeriod(r) && exists k :: r.payPeriod.value == PeriodAt(k) && PeriodAt(k).start.year >= 0)
  {
    hide PeriodAt, PayPeriodContaining, PeriodIndex, ParseIsoDate, PayPeriodFromKey, PayPeriodKey, DaysInMonth, AddDays,
         DayNumber, Lower, Trim, SundayOf, PreviousPayPeriod, KindAlias, AddMonths, IsCivil, ReadAsWritten;
    var r := ResolveReportRange(input, today).value;
    CurrentIsPeriod(today);
    PreviousIsPeriod(PeriodIndex(today));
    if r.kind == Custom {
      ExplicitIsProper(input, today, today);
      ValidIsCivil(r.bounds.value.from);
    } else if r.kind == PreviousMonth {
      PreviousMonthCovers(today, today);
    } else if r.kind == Week {
      WeekIsProper(today);
    } else if r.kind == CurrentPeriod && r.payPeriod != Some(PayPeriodContaining(today)) {
      AcceptedKeyIsTheKey(input.payPeriod.value);
      var j :| r.payPeriod == Some(PeriodAt(j));
      PeriodParts(j);
    }
  }

  /** Whichever way the range compared with is found, no year stepped from is misread; whole months are not stepped. */
  predicate StepBackIsRead(r: ReportRange)
    requires r.bounds.Some?
  {
    if IsWholePeriod(r) then ReadAsWritten(r.bounds.value.from.year)
    else IsWholeMonth(r.bounds.value) || EndsAreRead(r.bounds.value)
  }

  /**
   * The range compared with ends on the day before this one begins; it has as many days, unless this one is a pay
   * period or a calendar month, which are compared with their predecessors. This holds of an answer if and only if no
   * year stepped from is misread.
   */
  lemma PreviousRangeTouches(input: ReportInput, today: CivilDate)
    requires IsToday(today) && ResolveReportRange(input, today).Some?
    ensures var r := ResolveReportRange(input, today).value;
            var prev := PreviousEquivalentRange(r);
            && (prev.None? <==> r.kind == AllTime) && (prev.None? <==> r.bounds.None?)
            && (prev.Some? ==>
                  (&& Precedes(prev.value, r.bounds.value)
                   && (IsWholePeriod(r) || IsWholeMonth(r.bounds.value) || SameLength(prev.value, r.bounds.value))
                   <==> StepBackIsRead(r)))
  {
    hide PeriodAt, ResolveReportRange, DaysInMonth, AddDays, DayNumber, PreviousPayPeriod, AddMonths, IsCivil, Precedes,
         DaysBetween, Covers, InReport, SamePeriod, ReadAsWritten, EndsAreRead;
    var r := ResolveReportRange(input, today).value;
    RangeCoversSelection(input, today, today);
    if r.bounds.Some? {
      AnswerParts(input, today);
      var b := r.bounds.value;
      if r.payPeriod.Some? {
        var k :| r.payPeriod.value == PeriodAt(k) && PeriodAt(k).start.year >= 0;
        PrecedingPeriod(r, k);
      } else if IsWholeMonth(b) {
        CivilMonth(b.from);
        PrecedingMonth(b.from.year, b.from.month);
      } else {
        PrecedingDays(b);
      }
    }
  }

  /** Any other range, even one that carries a pay period it does not equal, is compared with as many days before it. */
  lemma OtherRangesStepByDays(r: ReportRange)
    requires r.bounds.Some? && IsProperRange(r.bounds.value)
    requires !IsWholePeriod(r) && !IsWholeMonth(r.bounds.value) && EndsAreRead(r.bounds.value)
    ensures var prev := PreviousEquivalentRange(r);
            prev.Some? && Precedes(prev.value, r.bounds.value) && SameLength(prev.value, r.bounds.value)
  {
    hide AddDays, DayNumber, PreviousPayPeriod, DaysInMonth, IsCivil, SamePeriod, EndsAreRead, Precedes, DaysBetween;
    PrecedingDays(r.bounds.value);
  }

  lemma PreviousPeriodHolds(r: ReportRange, k: int, d: CivilDate)
    requires IsWholePeriod(r) && r.payPeriod.value == PeriodAt(k) && PeriodAt(k).start.year >= 0 && IsCivil(d)
    requires ReadAsWritten(PeriodAt(k).start.year)
    ensures var prev := PreviousEquivalentRange(r);
            && prev.Some? && PeriodIndex(r.bounds.value.from) == k
            && (Within(d, prev.value.from, prev.value.to) <==> PeriodIndex(d) == k - 1)
  {
    hide PeriodAt, AddDays, PreviousPayPeriod, DaysInMonth, IsLeap, PeriodIndex, ReadAsWritten, Within, MonthLength;
    PreviousIsPeriod(k);
    PeriodsPartition(d, k - 1);
    PeriodParts(k);
    EndsLieWithin(k);
    PeriodsPartition(PeriodAt(k).start, k);
  }

  lemma PreviousMonthHolds(y: int, m: int, d: CivilDate)
    requires 1 <= m <= 12 && y >= 0 && (y == 0 ==> m > 3) && IsCivil(d)
    ensures var (py, pm) := AddMonths(y, m, -1);
            Within(d, MonthRange(py, pm).from, MonthRange(py, pm).to) <==> 12 * d.year + d.month == 12 * y + m - 1
  {
    hide MonthRange, MonthLength;
    AddMonthsExact(y, m, -1);
    var (py, pm) := AddMonths(y, m, -1);
    MonthCovers(py, pm, d);
  }

  lemma DaysBeforeHold(b: Bounds, d: CivilDate)
    requires IsProperRange(b) && EndsAreRead(b) && IsCivil(d)
    ensures var prev := DaysBeforeRange(b);
            Within(d, prev.from, prev.to) <==> DayNumber(b.from) - (DayNumber(b.to) - DayNumber(b.from) + 1)
                                               <= DayNumber(d) < DayNumber(b.from)
  {
    hide AddDays, DayNumber, MakeDay, UtcDay, IsCivil, Tomorrow, CompareCivil;
    var prev := DaysBeforeRange(b);
    PrecedingDays(b);
    AddDaysExact(b.from, -1);
    AddDaysExact(prev.to, -DaysBetween(b.from, b.to));
    OrderIsDayOrder(prev.from, d);
    ComparedBack(prev.from, d);
    OrderIsDayOrder(d, prev.from);
    OrderIsDayOrder(d, prev.to);
  }

  /**
   * Which days the range compared with holds, unless a year stepped from is misread: for a pay period those of the one
   * before, for a whole month those of the month before, else as many days as there are, directly before.
   */
  lemma PreviousRangeHolds(input: ReportInput, today: CivilDate, d: CivilDate)
    requires IsToday(today) && IsCivil(d) && ResolveReportRange(input, today).Some?
    requires var r := ResolveReportRange(input, today).value; r.bounds.Some? && StepBackIsRead(r)
    ensures var r := ResolveReportRange(input, today).value;
            var b, prev := r.bounds.value, PreviousEquivalentRange(r);
            && prev.Some?
            && (Within(d, prev.value.from, prev.value.to) <==>
                  if IsWholePeriod(r) then PeriodIndex(d) == PeriodIndex(b.from) - 1
                  else if IsWholeMonth(b) then 12 * d.year + d.month == 12 * b.from.year + b.from.month - 1
                  else DayNumber(b.from) - (DayNumber(b.to) - DayNumber(b.from) + 1) <= DayNumber(d)
                       && DayNumber(d) < DayNumber(b.from))
  {
    hide PeriodAt, ResolveReportRange, DaysInMonth, AddDays, DayNumber, PreviousPayPeriod, AddMonths, IsCivil, Within,
         DaysBetween, Covers, InReport, SamePeriod, ReadAsWritten, EndsAreRead, PeriodIndex, MonthRange;
    var r := ResolveReportRange(input, today).value;
    var b := r.bounds.value;
    RangeCoversSelection(input, today, today);
    AnswerParts(input, today);
    if r.payPeriod.Some? {
      var k :| r.payPeriod.value == PeriodAt(k) && PeriodAt(k).start.year >= 0;
      PrecedingPeriod(r, k);
      PreviousPeriodHolds(r, k, d);
    } else if IsWholeMonth(b) {
      CivilMonth(b.from);
      PreviousMonthHolds(b.from.year, b.from.month, d);
    } else {
      DaysBeforeHold(b, d);
    }
  }

  lemma LaterStepsAreRead(kind: Kind, today: CivilDate)
    requires IsCivil(today) && today.year >= 102
    ensures StepsAreRead(kind, today) && SundayOf(today).year >= 101
    ensures PreviousPayPeriod(PayPeriodContaining(today)) == PeriodAt(PeriodIndex(today) - 1)
    ensures PeriodAt(PeriodIndex(today) - 1).start.year >= 100 && PayPeriodContaining(today).start.year >= 101
  {
    hide PeriodAt, PayPeriodContaining, PreviousPayPeriod, AddDays, DayNumber, UtcDay, MonthLength;
    var k := PeriodIndex(today);
    CurrentIsPeriod(today);
    PeriodIndexYear(today);
    PeriodParts(k);
    PreviousIsPeriod(k);
    PeriodParts(k - 1);
    NearbyYear(today, -WeekDay(today));
  }

  /** From the year 102 on no selection and no comparison meets a misread year. */
  lemma LaterTodaysAreRead(input: ReportInput, today: CivilDate)
    requires IsCivil(today) && today.year >= 102 && ResolveReportRange(input, today).Some?
    ensures var r := ResolveReportRange(input, today).value;
            StepsAreRead(r.kind, today) && (r.bounds.Some? ==> StepBackIsRead(r))
  {
    hide PeriodAt, PayPeriodContaining, PeriodIndex, ParseIsoDate, PayPeriodFromKey, PayPeriodKey, DaysInMonth, AddDays,
         DayNumber, Lower, Trim, PreviousPayPeriod, KindAlias, AddMonths, IsCivil, SundayOf, StepsAreRead;
    var r := ResolveReportRange(input, today).value;
    LaterStepsAreRead(r.kind, today);
    RangeCoversSelection(input, today, today);
    if r.kind == Custom {
      ExplicitIsProper(input, today, today);
      ValidIsCivil(r.bounds.value.from);
    } else if r.kind == PreviousMonth {
      LaterPreviousMonth(today);
    } else if r.kind == CurrentPeriod && r.payPeriod != Some(PayPeriodContaining(today)) {
      AcceptedKeyIsTheKey(input.payPeriod.value);
      var j :| r.payPeriod == Some(PeriodAt(j));
      PeriodParts(j);
    }
    if r.bounds.Some? && !IsWholePeriod(r) {
      var b := r.bounds.value;
      NearbyYear(b.from, -1);
      ComparedBack(b.from, b.to);
      NotLaterYear(b.from, b.to);
    }
  }

  lemma LaterPreviousMonth(today: CivilDate)
    requires IsCivil(today) && today.year >= 102
    ensures AddMonths(today.year, today.month, -1).0 >= 101
  {
  }

  lemma CivilMonth(c: CivilDate)
    requires IsCivil(c)
    ensures 1 <= c.month <= 12
  {
  }
}
