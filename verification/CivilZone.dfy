// Civil days and instants (src/lib/pay-period.ts). A time zone is its offset from UTC, in
// milliseconds, at every instant; nothing else of a zone matters to the code.
module CivilZone {
  import opened CivilCalendar

  const DAY: int := 86_400_000

  /** Offset from UTC at each instant. */
  type Zone = int -> int

  /** What a clock in the zone shows at an instant, as milliseconds since local 1 January 1970. */
  function Local(zone: Zone, t: int): int {
    t + zone(t)
  }

  /** civilDateInZone: the date in the zone at an instant. */
  function CivilDateInZone(zone: Zone, t: int): CivilDate {
    CivilFromDay(Local(zone, t) / DAY)
  }

  /**
   * zoneOffsetMs: the parts of the local time, down to the second, read with Date.UTC, less the instant's own whole
   * seconds.
   */
  function ZoneOffsetMs(zone: Zone, t: int): int {
    var d := CivilDateInZone(zone, t);
    UtcDay(d.year, d.month - 1, d.day) * DAY + Local(zone, t) % DAY / 1000 * 1000 - t / 1000 * 1000
  }

  /** startOfCivilDay: guess with the offset at UTC midnight, then correct with the offset at the guess. */
  method StartOfCivilDay(zone: Zone, c: CivilDate) returns (start: int)
    ensures start == TwoStep(zone, UtcDay(c.year, c.month - 1, c.day) * DAY)
    ensures SmallOffsets(zone) && ChangesFarApart(zone) && PlainDay(c) && NearPlain(DayNumber(c)) ==>
              (Splits(zone, start, DayNumber(c)) <==> MidnightUnharmed(zone, DayNumber(c)))
  {
    hide ZoneOffsetMs, Splits, MidnightUnharmed, SmallOffsets, ChangesFarApart, NearPlain, IsCivil, UtcDay, MakeDay,
         DayNumber;
    var guess := UtcDay(c.year, c.month - 1, c.day) * DAY;
    var t := guess - ZoneOffsetMs(zone, guess);
    var corrected := guess - ZoneOffsetMs(zone, t);
    if corrected != t {
      t := corrected;
    }
    start := t;
    if SmallOffsets(zone) && ChangesFarApart(zone) && PlainDay(c) && NearPlain(DayNumber(c)) {
      UtcDayShifts(c, 0);
      StartIsExact(zone, DayNumber(c));
    }
  }

  function TwoStep(zone: Zone, guess: int): int {
    guess - ZoneOffsetMs(zone, guess - ZoneOffsetMs(zone, guess))
  }

  method CivilRangeToInstants(zone: Zone, from: CivilDate, to: CivilDate) returns (start: int, endExclusive: int)
    ensures SmallOffsets(zone) && ChangesFarApart(zone) && IsPlainRange(from, to)
            && MidnightUnharmed(zone, DayNumber(from)) && MidnightUnharmed(zone, DayNumber(to) + 1)
            ==> forall t :: start <= t < endExclusive <==> InDays(CivilDateInZone(zone, t), from, to)
  {
    hide SmallOffsets, ChangesFarApart, MidnightUnharmed, IsPlainRange, Splits, TwoStep, CivilDateInZone, InDays,
         UtcDay, AddDays;
    start := StartOfCivilDay(zone, from);
    endExclusive := StartOfCivilDay(zone, AddDays(to, 1));
    if SmallOffsets(zone) && ChangesFarApart(zone) && IsPlainRange(from, to)
       && MidnightUnharmed(zone, DayNumber(from)) && MidnightUnharmed(zone, DayNumber(to) + 1) {
      RangeIsExact(zone, from, to);
    }
  }

  /** A real date of a year Date.UTC does not misread. */
  predicate PlainDay(c: CivilDate) {
    IsCivil(c) && ReadAsWritten(c.year)
  }

  /** None of the days around day `day` is of a year Date.UTC misreads. */
  predicate NearPlain(day: int) {
    forall k :: day - 2 <= k <= day + 1 ==> ReadAsWritten(CivilFromDay(k).year)
  }

  /** The days that matter to the conversion of a range are far from the years Date.UTC misreads. */
  predicate IsPlainRange(from: CivilDate, to: CivilDate) {
    && PlainDay(from) && PlainDay(to) && PlainDay(AddDays(to, 1))
    && NearPlain(DayNumber(from)) && NearPlain(DayNumber(to) + 1)
  }

  /** Every date after the year 100 is. */
  lemma LaterDatesArePlain(c: CivilDate)
    requires IsCivil(c) && c.year > 100
    ensures PlainDay(c) && NearPlain(DayNumber(c)) && PlainDay(AddDays(c, 1)) && NearPlain(DayNumber(c) + 1)
  {
    hide DayNumber, CivilFromDay, AddDays, CompareCivil;
    var first := CivilDate(c.year, 1, 1);
    FirstIsEarliest(c);
    forall k | DayNumber(c) - 2 <= k <= DayNumber(c) + 2 ensures CivilFromDay(k).year >= 100 {
      YearsAfter(c.year - 1, k);
    }
    AddDaysExact(c, 1);
    CivilRoundTrip(AddDays(c, 1));
  }

  /**
   * The first day of a year is not after its other days, and comes at least a year after the first day of the year
   * before.
   */
  lemma FirstIsEarliest(c: CivilDate)
    requires IsCivil(c)
    ensures DayNumber(c) >= DayNumber(CivilDate(c.year, 1, 1)) >= DayNumber(CivilDate(c.year - 1, 1, 1)) + 365
  {
    hide DayNumber, DayFromYear;
    DayNumberParts(c);
    DayNumberParts(CivilDate(c.year, 1, 1));
    DayNumberParts(CivilDate(c.year - 1, 1, 1));
    YearsAscend(c.year - 1, c.year);
  }

  /** A day on or after the first day of a year is of that year or a later one. */
  lemma YearsAfter(year: int, k: int)
    requires k >= DayNumber(CivilDate(year, 1, 1))
    ensures CivilFromDay(k).year >= year
  {
    hide DayNumber, CivilFromDay;
    DayRoundTrip(k);
    if CivilFromDay(k).year < year {
      EarlierIsSmaller(CivilFromDay(k), CivilDate(year, 1, 1));
    }
  }

  predicate InDays(d: CivilDate, from: CivilDate, to: CivilDate) {
    CompareCivil(from, d) <= 0 && CompareCivil(d, to) <= 0
  }

  // ---- what is assumed of a zone ---------------------------------------------------

  /** Whole seconds, and always less than a day. */
  ghost predicate SmallOffsets(zone: Zone) {
    forall t :: -DAY < zone(t) < DAY && zone(t) % 1000 == 0
  }

  /** No two changes of offset within two days of each other. */
  ghost predicate ChangesFarApart(zone: Zone) {
    forall a, b, c :: a <= b <= c && c - a <= 2 * DAY ==> zone(a) == zone(b) || zone(b) == zone(c)
  }

  /**
   * A change at `t` moves the clock past the local times from `first` (inclusive) to `last` (exclusive): skipped or
   * repeated.
   */
  predicate Disturbs(zone: Zone, t: int, local: int) {
    var before, after := t + zone(t - 1), t + zone(t);
    (if before < after then before else after) <= local < (if before < after then after else before)
  }

  /**
   * A change of offset does no harm to a midnight it skips or repeats when it sets in exactly at that midnight and, if
   * it skips, the offset before it is not negative; if it repeats, the offset after it is negative.
   */
  predicate Harmless(zone: Zone, t: int, midnight: int) {
    var p, q := zone(t - 1), zone(t);
    (p < q && t + p == midnight && p >= 0) || (q < p && t + q == midnight && q < 0)
  }

  ghost predicate MidnightUnharmed(zone: Zone, day: int) {
    forall t :: Disturbs(zone, t, day * DAY) ==> Harmless(zone, t, day * DAY)
  }

  ghost predicate IsRealZone(zone: Zone) {
    SmallOffsets(zone) && ChangesFarApart(zone) && forall day :: MidnightUnharmed(zone, day)
  }

  // ---- the start of a day ------------------------------------------------------------

  lemma OffsetIsExact(zone: Zone, t: int)
    requires SmallOffsets(zone) && ReadAsWritten(CivilDateInZone(zone, t).year)
    ensures ZoneOffsetMs(zone, t) == zone(t)
  {
    hide CivilFromDay, UtcDay, DayNumber;
    var day := Local(zone, t) / DAY;
    DayRoundTrip(day);
    UtcDayShifts(CivilFromDay(day), 0);
    WholeSeconds(t, zone(t));
  }

  lemma WholeSeconds(t: int, offset: int)
    requires offset % 1000 == 0
    ensures (t + offset) / DAY * DAY + (t + offset) % DAY / 1000 * 1000 - t / 1000 * 1000 == offset
  {
    var k := offset / 1000;
    assert offset == 1000 * k;
    assert (t + 1000 * k) / 1000 == t / 1000 + k;
    var q, r := (t + offset) / DAY, (t + offset) % DAY;
    assert t + offset == (q * 86_400) * 1000 + r;
    assert (t + offset) / 1000 == q * 86_400 + r / 1000;
  }

  /** Near days Date.UTC does not misread both offsets that the computation reads are exact. */
  lemma OffsetsAreExact(zone: Zone, day: int)
    requires SmallOffsets(zone) && NearPlain(day)
    ensures var m := day * DAY;
            ZoneOffsetMs(zone, m) == zone(m) && ZoneOffsetMs(zone, m - zone(m)) == zone(m - zone(m))
  {
    hide CivilFromDay, ZoneOffsetMs;
    var m := day * DAY;
    assert -DAY < zone(m) < DAY && -DAY < zone(m - zone(m)) < DAY;
    assert day - 1 <= Local(zone, m) / DAY <= day;
    assert day - 2 <= Local(zone, m - zone(m)) / DAY <= day + 1;
    OffsetIsExact(zone, m);
    OffsetIsExact(zone, m - zone(m));
  }

  /** Once the clock has reached an unharmed midnight it never shows an earlier time again. */
  lemma {:induction false} MidnightIsFinal(zone: Zone, day: int, a: int, b: int)
    requires MidnightUnharmed(zone, day) && a <= b && Local(zone, a) >= day * DAY
    ensures Local(zone, b) >= day * DAY
    decreases b - a
  {
    if a < b {
      MidnightIsFinal(zone, day, a, b - 1);
      assert Disturbs(zone, b, day * DAY) ==> Harmless(zone, b, day * DAY);
    }
  }

  /** There is a first instant at which the clock has reached an unharmed midnight. */
  lemma {:induction false} FirstReached(zone: Zone, day: int, a: int, b: int) returns (s: int)
    requires MidnightUnharmed(zone, day) && a < b && Local(zone, a) < day * DAY <= Local(zone, b)
    ensures a < s <= b
    ensures forall t :: Local(zone, t) < day * DAY <==> t < s
    decreases b - a
  {
    if a + 1 == b {
      s := b;
      forall t ensures Local(zone, t) < day * DAY <==> t < s {
        if t < s && Local(zone, t) >= day * DAY {
          MidnightIsFinal(zone, day, t, a);
        }
        if t >= s {
          MidnightIsFinal(zone, day, s, t);
        }
      }
    } else if Local(zone, b - 1) >= day * DAY {
      s := FirstReached(zone, day, a, b - 1);
    } else {
      s := FirstReached(zone, day, b - 1, b);
    }
  }

  /** Two instants with different offsets have a change of offset between them. */
  lemma {:induction false} ChangeBetween(zone: Zone, a: int, b: int) returns (c: int)
    requires a <= b && zone(a) != zone(b)
    ensures a < c <= b && zone(c - 1) != zone(c)
    decreases b - a
  {
    if zone(b - 1) != zone(b) {
      c := b;
    } else {
      c := ChangeBetween(zone, a, b - 1);
    }
  }

  /** `start` parts the instants: before it the date is earlier than `day`, from it on it is not. */
  ghost predicate Splits(zone: Zone, start: int, day: int) {
    forall t :: start <= t <==> day <= Local(zone, t) / DAY
  }

  lemma SplitsByClock(zone: Zone, start: int, day: int)
    ensures Splits(zone, start, day) <==> forall t :: Local(zone, t) < day * DAY <==> t < start
  {
    assert forall t :: day <= Local(zone, t) / DAY <==> !(Local(zone, t) < day * DAY);
    if Splits(zone, start, day) {
      assert forall t :: start <= t <==> day <= Local(zone, t) / DAY;
    }
  }

  /** Offsets on either side of a change hold for two days. */
  lemma OffsetNearChange(zone: Zone, c: int, t: int)
    requires ChangesFarApart(zone) && zone(c - 1) != zone(c) && c - 2 * DAY <= t < c + 2 * DAY
    ensures zone(t) == if t < c then zone(c - 1) else zone(c)
  {
    if t < c {
      assert zone(t) == zone(c - 1) || zone(c - 1) == zone(c);
    } else {
      assert zone(c - 1) == zone(c) || zone(c) == zone(t);
    }
  }

  /** Between the right start of a day and a wrong first guess at it lies a harmful change. */
  lemma WrongGuessIsHarm(zone: Zone, day: int, s: int) returns (c: int)
    requires SmallOffsets(zone) && ChangesFarApart(zone)
    requires Local(zone, s) == day * DAY && Local(zone, s - 1) < day * DAY
    requires zone(day * DAY - zone(day * DAY)) != zone(s)
    ensures Disturbs(zone, c, day * DAY) && !Harmless(zone, c, day * DAY)
  {
    var m := day * DAY;
    var t1 := m - zone(m);
    c := ChangeBetween(zone, if s < t1 then s else t1, if s < t1 then t1 else s);
    OffsetNearChange(zone, c, s);
    OffsetNearChange(zone, c, t1);
    OffsetNearChange(zone, c, m);
  }

  /** A day that begins at a clock reading of midnight is found, on either side of a change of offset. */
  lemma ExactMidnightIsFound(zone: Zone, day: int, s: int)
    requires SmallOffsets(zone) && ChangesFarApart(zone) && MidnightUnharmed(zone, day)
    requires Local(zone, s) == day * DAY && Local(zone, s - 1) < day * DAY
    ensures zone(day * DAY - zone(day * DAY)) == zone(s)
  {
    if zone(day * DAY - zone(day * DAY)) != zone(s) {
      var c := WrongGuessIsHarm(zone, day, s);
    }
  }

  /** A day whose midnight is skipped is found if the change is harmless. */
  lemma SkippedMidnightIsFound(zone: Zone, day: int, s: int)
    requires SmallOffsets(zone) && ChangesFarApart(zone) && MidnightUnharmed(zone, day)
    requires Local(zone, s - 1) < day * DAY < Local(zone, s)
    ensures zone(day * DAY - zone(day * DAY)) == day * DAY - s
  {
    var m := day * DAY;
    assert Disturbs(zone, s, m);
    assert Harmless(zone, s, m);
    OffsetNearChange(zone, s, m);
    OffsetNearChange(zone, s, m - zone(m));
  }

  /** If the computed start is right, no change of offset harms the midnight. */
  lemma RightStartMeansUnharmed(zone: Zone, day: int, t: int)
    requires SmallOffsets(zone) && ChangesFarApart(zone) && NearPlain(day)
    requires Splits(zone, TwoStep(zone, day * DAY), day) && Disturbs(zone, t, day * DAY)
    ensures Harmless(zone, t, day * DAY)
  {
    var m := day * DAY;
    var t1 := m - zone(m);
    hide ZoneOffsetMs, NearPlain;
    var start := TwoStep(zone, m);
    OffsetsAreExact(zone, day);
    SplitsByClock(zone, start, day);
    assert Local(zone, t - 1) < m <==> t - 1 < start;
    assert Local(zone, t) < m <==> t < start;
    OffsetNearChange(zone, t, m);
    OffsetNearChange(zone, t, t1);
  }

  /** startOfCivilDay is the instant a day begins at if and only if no change of offset harms its midnight. */
  lemma StartIsExact(zone: Zone, day: int)
    requires SmallOffsets(zone) && ChangesFarApart(zone) && NearPlain(day)
    ensures Splits(zone, TwoStep(zone, day * DAY), day) <==> MidnightUnharmed(zone, day)
  {
    hide ZoneOffsetMs, Disturbs, Harmless, Splits, NearPlain;
    var m := day * DAY;
    if MidnightUnharmed(zone, day) {
      var s := FirstReached(zone, day, m - DAY, m + DAY);
      OffsetsAreExact(zone, day);
      assert Local(zone, s - 1) < m <= Local(zone, s);
      if Local(zone, s) == m {
        ExactMidnightIsFound(zone, day, s);
      } else {
        SkippedMidnightIsFound(zone, day, s);
      }
      SplitsByClock(zone, s, day);
    } else {
      var t :| Disturbs(zone, t, m) && !Harmless(zone, t, m);
      if Splits(zone, TwoStep(zone, m), day) {
        RightStartMeansUnharmed(zone, day, t);
      }
    }
  }

  /**
   * An instant is in the instant range of `from` to `to` exactly when its date in the zone is one of those days: all
   * that is asked of the zone's midnights is that the first one of the range and the one after its end are unharmed.
   */
  lemma RangeIsExact(zone: Zone, from: CivilDate, to: CivilDate)
    requires SmallOffsets(zone) && ChangesFarApart(zone) && IsPlainRange(from, to)
    requires MidnightUnharmed(zone, DayNumber(from)) && MidnightUnharmed(zone, DayNumber(to) + 1)
    ensures var next := AddDays(to, 1);
            forall t :: TwoStep(zone, UtcDay(from.year, from.month - 1, from.day) * DAY) <= t
                        && t < TwoStep(zone, UtcDay(next.year, next.month - 1, next.day) * DAY)
                    <==> InDays(CivilDateInZone(zone, t), from, to)
  {
    hide CivilFromDay, MakeDay, DayNumber, AddDays, TwoStep, IsCivil, CompareCivil, NearPlain, MidnightUnharmed;
    var next := AddDays(to, 1);
    UtcDayShifts(from, 0);
    AddDaysExact(to, 1);
    UtcDayShifts(next, 0);
    StartIsExact(zone, DayNumber(from));
    StartIsExact(zone, DayNumber(to) + 1);
    assert Splits(zone, TwoStep(zone, DayNumber(from) * DAY), DayNumber(from));
    assert Splits(zone, TwoStep(zone, (DayNumber(to) + 1) * DAY), DayNumber(to) + 1);
    forall t
      ensures DayNumber(from) <= Local(zone, t) / DAY < DayNumber(to) + 1 <==>
              InDays(CivilDateInZone(zone, t), from, to)
    {
      var d := CivilDateInZone(zone, t);
      DayRoundTrip(Local(zone, t) / DAY);
      OrderIsDayOrder(d, from);
      OrderIsDayOrder(to, d);
      OrderIsDayOrder(from, d);
      OrderIsDayOrder(d, to);
    }
  }

  // ---- zones that meet the assumptions, and one that does not -----------------------------

  /** One hour forward at instant `spring` and back at instant `autumn`, as in the business zone within one year. */
  function SummerTime(standard: int, spring: int, autumn: int): Zone {
    t => if spring <= t < autumn then standard + HOUR else standard
  }

  const TWO_O_CLOCK: int := 7_200_000
  const HOUR: int := 3_600_000

  /** The clock is put forward or back by an hour when it shows two, as in the business zone every year. */
  predicate IsTwoOClockChange(zone: Zone, t: int) {
    (zone(t) - zone(t - 1) == HOUR || zone(t) - zone(t - 1) == -HOUR) && (t + zone(t - 1)) % DAY == TWO_O_CLOCK
  }

  /** A zone all of whose changes are of that kind, however many there are, leaves every midnight alone. */
  lemma TwoOClockChangesAreFine(zone: Zone)
    requires SmallOffsets(zone) && ChangesFarApart(zone)
    requires forall t :: zone(t - 1) != zone(t) ==> IsTwoOClockChange(zone, t)
    ensures IsRealZone(zone)
  {
    forall day ensures MidnightUnharmed(zone, day) {
      forall t ensures !Disturbs(zone, t, day * DAY) {
        if zone(t - 1) != zone(t) {
          assert IsTwoOClockChange(zone, t);
          NeverMidnight(t + zone(t - 1), day);
        }
      }
    }
  }

  lemma NeverMidnight(local: int, day: int)
    requires local % DAY == TWO_O_CLOCK
    ensures day * DAY < local - HOUR || local + HOUR < day * DAY
  {
    var k := local / DAY;
    assert local == k * DAY + TWO_O_CLOCK;
    assert day <= k || day >= k + 1;
  }

  /** There are such zones. */
  lemma SummerTimeIsFine(standard: int, spring: int, autumn: int)
    requires -DAY < standard < DAY - HOUR && standard % 1000 == 0
    requires spring + 2 * DAY < autumn
    requires (spring + standard) % DAY == TWO_O_CLOCK && (autumn + standard + HOUR) % DAY == TWO_O_CLOCK
    ensures IsRealZone(SummerTime(standard, spring, autumn))
  {
    TwoOClockChangesAreFine(SummerTime(standard, spring, autumn));
  }

  /** West of Greenwich, where the hour from 0:00 is skipped, the computed start lies on the day before. */
  lemma SkippedMidnightIsMissed(standard: int, autumn: int)
    requires -DAY < standard <= -HOUR && standard % 1000 == 0 && autumn > 10 * DAY
    ensures var zone := SummerTime(standard, -standard, autumn);
            var start := TwoStep(zone, 0);
            start == -standard - HOUR && Local(zone, start) / DAY == -1
  {
    hide CivilFromDay, ZoneOffsetMs;
    var zone := SummerTime(standard, -standard, autumn);
    YearsAfter(1969, -1);
    YearsAfter(1969, 0);
    assert DayNumber(CivilDate(1969, 1, 1)) <= -1;
    OffsetIsExact(zone, 0);
    OffsetIsExact(zone, -standard);
  }
}
