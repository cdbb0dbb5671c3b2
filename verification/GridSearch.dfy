/** The next run by its meaning: the earliest date of the anchor's grid that is still to come. */
module GridSearch {
  import opened Wrappers
  import opened Calendar
  import opened CalendarLaws
  import opened LocalTime
  import opened Cadence
  import opened Series

  /** A date of the grid after `from`, no further on than the search looks. */
  predicate Ahead(r: Recurrence, start: LocalDate, from: LocalDate, e: LocalDate)
    requires r.interval >= 1
  {
    && ValidDate(e) && OnGrid(r, start, e) && DayNumber(from) < DayNumber(e)
    && match r.frequency
       case Daily => true
       case Weekly => DayNumber(e) <= DayNumber(from) + 3660
       case Monthly => MonthIndex(e) <= MonthIndex(from) + 1200 * r.interval
       case Yearly => e.year <= from.year + 100 * r.interval
  }

  lemma WholeDifference(a: int, b: int, n: int) returns (i: nat)
    requires n >= 1 && a % n == 0 && b % n == 0 && a < b
    ensures b == a + (i + 1) * n
  {
    SmallMultiples(b, a, n);
    var q := b / n - a / n;
    assert a == n * (a / n) && b == n * (b / n);
    assert b - a == n * q;
    assert q <= 0 ==> n * q <= 0;
    i := q - 1;
  }

  lemma StepsAhead(n: int, steps: int, limit: int)
    requires n >= 1 && steps * n <= limit * n
    ensures steps <= limit
  {
    if steps > limit { TimesAtMost(limit + 1, steps, n); }
  }

  lemma MonthsInOrder(d: LocalDate, e: LocalDate)
    requires ValidDate(d) && ValidDate(e) && d.day == e.day && DayNumber(d) < DayNumber(e)
    ensures MonthIndex(d) < MonthIndex(e)
  {
    hide DayNumber, ValidDate;
    DayNumberOrders(d, e);
    if MonthIndex(e) < MonthIndex(d) { LaterMonthIsFar(e, d); }
    if MonthIndex(e) == MonthIndex(d) { SameMonthSameDay(d, e); }
  }

  lemma SameMonthSameDay(d: LocalDate, e: LocalDate)
    requires ValidDate(d) && ValidDate(e) && d.day == e.day && MonthIndex(d) == MonthIndex(e)
    ensures d == e
  {
    assert d.year == MonthIndex(d) / 12 && e.year == MonthIndex(e) / 12;
  }

  /** Every date ahead is looked at by some attempt. */
  lemma EveryDateIsLookedAt(r: Recurrence, start: LocalDate, from: LocalDate, e: LocalDate) returns (i: nat)
    requires AnchoredOn(r, start) && ValidDate(from) && (r.frequency == Weekly || OnGrid(r, start, from))
    requires Ahead(r, start, from, e)
    ensures GridDate(r, start, from, i) == Some(e)
    ensures match r.frequency
            case Daily => true
            case Weekly => i < 3660
            case Monthly => i < 1200
            case Yearly => i < 100
  {
    match r.frequency
    case Daily => i := DailyLookedAt(r, start, from, e);
    case Weekly => i := WeeklyLookedAt(r, start, from, e);
    case Monthly => i := MonthlyLookedAt(r, start, from, e);
    case Yearly => i := YearlyLookedAt(r, start, from, e);
  }

  lemma DailyLookedAt(r: Recurrence, start: LocalDate, from: LocalDate, e: LocalDate) returns (i: nat)
    requires AnchoredOn(r, start) && r.frequency == Daily && ValidDate(from) && OnGrid(r, start, from)
    requires Ahead(r, start, from, e)
    ensures GridDate(r, start, from, i) == Some(e)
  {
    hide DayNumber, CivilDate, ParseLocalDate, ValidDate;
    CivilRoundTrip(e);
    i := WholeDifference(DayNumber(from) - DayNumber(start), DayNumber(e) - DayNumber(start), r.interval);
    assert (i + 1) * r.interval == i * r.interval + r.interval;
  }

  lemma WeeklyLookedAt(r: Recurrence, start: LocalDate, from: LocalDate, e: LocalDate) returns (i: nat)
    requires AnchoredOn(r, start) && r.frequency == Weekly && Ahead(r, start, from, e)
    ensures i < 3660 && GridDate(r, start, from, i) == Some(e)
  {
    hide DayNumber, CivilDate, ParseLocalDate, ValidDate, InWeeklyCycle;
    CivilRoundTrip(e);
    i := DayNumber(e) - DayNumber(from) - 1;
  }

  lemma MonthlyLookedAt(r: Recurrence, start: LocalDate, from: LocalDate, e: LocalDate) returns (i: nat)
    requires AnchoredOn(r, start) && r.frequency == Monthly && ValidDate(from) && OnGrid(r, start, from)
    requires Ahead(r, start, from, e)
    ensures i < 1200 && GridDate(r, start, from, i) == Some(e)
  {
    hide DayNumber, CivilDate, ParseLocalDate, DaysInMonth, MonthLength;
    MonthsInOrder(from, e);
    DaysInMonthIsLength(e.year, e.month);
    i := WholeDifference(MonthIndex(from) - MonthIndex(start), MonthIndex(e) - MonthIndex(start), r.interval);
    StepsAhead(r.interval, i + 1, 1200);
    assert (i + 1) * r.interval == i * r.interval + r.interval;
    assert MonthIndex(e) / 12 == e.year && MonthIndex(e) % 12 + 1 == e.month;
  }

  lemma YearlyLookedAt(r: Recurrence, start: LocalDate, from: LocalDate, e: LocalDate) returns (i: nat)
    requires AnchoredOn(r, start) && r.frequency == Yearly && ValidDate(from) && OnGrid(r, start, from)
    requires Ahead(r, start, from, e)
    ensures i < 100 && GridDate(r, start, from, i) == Some(e)
  {
    hide DayNumber, CivilDate, ParseLocalDate, DaysInMonth, MonthLength;
    MonthsInOrder(from, e);
    DaysInMonthIsLength(e.year, e.month);
    i := WholeDifference(from.year - start.year, e.year - start.year, r.interval);
    StepsAhead(r.interval, i + 1, 100);
    assert (i + 1) * r.interval == i * r.interval + r.interval;
  }

  /** What an attempt looks at is ahead. */
  lemma LookedAtIsAhead(r: Recurrence, start: LocalDate, from: LocalDate, i: nat)
    requires AnchoredOn(r, start) && ValidDate(from) && (r.frequency == Weekly || OnGrid(r, start, from))
    requires GridDate(r, start, from, i).Some?
    ensures var e := GridDate(r, start, from, i).value;
            ValidDate(e) && OnGrid(r, start, e) && DayNumber(from) < DayNumber(e)
  {
    hide DayNumber, CivilDate, ParseLocalDate, DaysInMonth, MonthLength, InWeeklyCycle, ValidDate;
    var e := GridDate(r, start, from, i).value;
    GridDatesStayOnGrid(r, start, from, i);
    assert i * r.interval >= 0;
    match r.frequency
    case Daily =>
    case Weekly =>
    case Monthly =>
      assert MonthIndex(e) == MonthIndex(from) + r.interval + i * r.interval;
      LaterMonthIsFar(from, e);
    case Yearly =>
      LaterMonthIsFar(from, e);
  }

  lemma AttemptsInOrder(r: Recurrence, start: LocalDate, from: LocalDate, i: nat, k: nat)
    requires AnchoredOn(r, start) && GridDate(r, start, from, i).Some? && GridDate(r, start, from, k).Some?
    requires DayNumber(GridDate(r, start, from, i).value) < DayNumber(GridDate(r, start, from, k).value)
    ensures i < k
  {
    hide DayNumber, CivilDate, ParseLocalDate, GridDate, Searchable;
    if k < i {
      if r.frequency == Daily { DailyDatesAscend(r, start, from, k, i); } else { GridDatesAscend(r, start, from, k, i); }
    }
  }

  lemma DailyDatesAscend(r: Recurrence, start: LocalDate, from: LocalDate, i: nat, j: nat)
    requires AnchoredOn(r, start) && r.frequency == Daily && i <= j
    ensures DayNumber(GridDate(r, start, from, i).value) <= DayNumber(GridDate(r, start, from, j).value)
  {
    hide DayNumber, CivilDate, ParseLocalDate;
    TimesAtMost(i, j, r.interval);
  }

  /** The next run after `after`, searched from a slot on the grid, is at the earliest date of the grid behind the
      slot whose instant is later than `after`, and there is none only if no date within the search's reach has a
      later instant. */
  lemma NextRunIsEarliestOnTheGrid(z: Zone, r: Recurrence, start: LocalDate, s: int, after: int)
    requires AnchoredOn(r, start) && (r.frequency == Weekly || OnGrid(r, start, LocalDateAt(z, s)))
    ensures var from, next, date := LocalDateAt(z, s), NextRun(z, r, s, after), NextDate(z, r, s, after);
            if date.Some? then
              && next == Some(CandidateAt(z, r, date.value)) && next.value > after
              && Ahead(r, start, from, date.value)
              && forall e | Ahead(r, start, from, e) && DayNumber(e) < DayNumber(date.value) :: CandidateAt(z, r, e) <= after
            else
              && next.None? && r.frequency != Daily
              && forall e | Ahead(r, start, from, e) :: CandidateAt(z, r, e) <= after
  {
    hide DayNumber, GridDate, ParseLocalDate, ZonedParts, CandidateAt, Searchable, OnGrid, Attempts, ValidDate, Ahead;
    var from, date := LocalDateAt(z, s), NextDate(z, r, s, after);
    ClockDate(z, s);
    var hit := Hit(z, r, start, from, after);
    var fires := FiresIn(z, r, start, from, after);
    if r.frequency == Daily { DailyAlwaysHits(z, r, start, from, after); }
    if hit.Some? {
      assert fires(hit.value);
      LookedAtIsAhead(r, start, from, hit.value);
      WithinReach(r, start, from, after, hit.value);
    }
    forall e | Ahead(r, start, from, e) && (date.None? || DayNumber(e) < DayNumber(date.value))
      ensures CandidateAt(z, r, e) <= after
    {
      var i := EveryDateIsLookedAt(r, start, from, e);
      ReachOfAttempts(r, start, from, after);
      if hit.Some? { AttemptsInOrder(r, start, from, i, hit.value); }
      assert !fires(i);
    }
  }

  lemma ReachOfAttempts(r: Recurrence, start: LocalDate, from: LocalDate, after: int)
    ensures match r.frequency
            case Daily => true
            case Weekly => Attempts(r, start, from, after) == 3660
            case Monthly => Attempts(r, start, from, after) == 1200
            case Yearly => Attempts(r, start, from, after) == 100
  {
    hide DailyShortfall;
  }

  lemma WithinReach(r: Recurrence, start: LocalDate, from: LocalDate, after: int, i: nat)
    requires AnchoredOn(r, start) && ValidDate(from) && (r.frequency == Weekly || OnGrid(r, start, from))
    requires i < Attempts(r, start, from, after) && GridDate(r, start, from, i).Some?
    requires var e := GridDate(r, start, from, i).value;
             ValidDate(e) && OnGrid(r, start, e) && DayNumber(from) < DayNumber(e)
    ensures Ahead(r, start, from, GridDate(r, start, from, i).value)
  {
    hide DayNumber, CivilDate, ParseLocalDate, DaysInMonth, MonthLength, InWeeklyCycle, ValidDate, Attempts, DailyShortfall;
    ReachOfAttempts(r, start, from, after);
    assert (i + 1) * r.interval == i * r.interval + r.interval;
    if r.frequency == Monthly { TimesAtMost(i + 1, 1200, r.interval); }
    if r.frequency == Yearly { TimesAtMost(i + 1, 100, r.interval); }
  }

  /** A recurrence never fires if its interval is not positive, its start date cannot be read, or what its frequency needs
      is missing or zero: a day of the month, a month, or some valid weekday. */
  lemma UnusableNeverFires(z: Zone, r: Recurrence, s: int, after: int)
    requires || r.interval <= 0 || ParseLocalDate(r.startDate) == None
             || ((r.frequency == Monthly || r.frequency == Yearly) && (r.dayOfMonth == None || r.dayOfMonth == Some(0)))
             || (r.frequency == Yearly && (r.month == None || r.month == Some(0)))
             || (r.frequency == Weekly && forall w | 0 <= w <= 6 :: r.weekdays == None || w !in r.weekdays.value)
    ensures NextRun(z, r, s, after) == None
  {
    hide ParseLocalDate, ZonedParts, WeekdaysFrom;
    var chosen := NormalizeWeekdays(r.weekdays);
    assert chosen != [] ==> chosen[0] in chosen;
  }

  /** A weekly run is a whole number of weeks and a chosen weekday behind day 3, the Sunday 4 January 1970. */
  lemma WeeklyRunsAreOnChosenDays(z: Zone, r: Recurrence, s: int, after: int)
    requires r.frequency == Weekly && NextRun(z, r, s, after).Some?
    ensures r.weekdays.Some? && NextDate(z, r, s, after).Some?
    ensures NextRun(z, r, s, after).value == CandidateAt(z, r, NextDate(z, r, s, after).value)
    ensures exists w | w in r.weekdays.value && 0 <= w <= 6 ::
              (DayNumber(NextDate(z, r, s, after).value) - 3 - w) % 7 == 0
  {
    hide DayNumber, ParseLocalDate, ZonedParts, CandidateAt, WeekdaysFrom, CivilDate, Weekday;
    var start, from := ParseLocalDate(r.startDate).value, LocalDateAt(z, s);
    var hit := Hit(z, r, start, from, after);
    assert FiresIn(z, r, start, from, after)(hit.value);
    var day := DayNumber(from) + 1 + hit.value;
    assert InWeeklyCycle(r, start, day);
    assert DayNumber(NextDate(z, r, s, after).value) == day;
    WeekdaysFromTheEpoch(day);
  }

  /** A built recurrence keeps what was asked for: its frequency, its interval if that is positive and otherwise one,
      and for a weekly one the chosen weekdays or otherwise the weekday of its first run. It has no other optional field
      than those its frequency needs, and these are of its first run. */
  lemma BuiltKeepsTheRequest(z: Zone, frequency: Frequency, interval: Option<int>, at: int, weekdays: Option<seq<int>>)
    requires 0 <= LocalDateAt(z, at).year <= 9999
    ensures var r, start := BuildCalendarRecurrence(z, frequency, interval, at, weekdays), LocalDateAt(z, at);
            && r.frequency == frequency && ParseLocalDate(r.startDate) == Some(start)
            && r.hour == ZonedParts(z, at).hour && r.minute == ZonedParts(z, at).minute
            && r.dayOfMonth == (match frequency case Monthly => Some(start.day) case Yearly => Some(start.day) case _ => None)
            && r.month == (if frequency == Yearly then Some(start.month) else None)
            && (r.weekdays.Some? ==> frequency == Weekly)
            && r.interval == (if interval.Some? && interval.value > 0 then interval.value else 1)
            && (frequency == Weekly ==>
                  var valid := weekdays.Some? && exists w :: w in weekdays.value && 0 <= w <= 6;
                  && r.weekdays.Some?
                  && (valid ==> forall w :: w in r.weekdays.value <==> w in weekdays.value && 0 <= w <= 6)
                  && (!valid ==> OnGrid(r, start, start)))
  {
    hide ParseLocalDate, FormatLocalDate, DayNumber, ZonedParts, WeekdaysFrom, MonthLength;
    var start := LocalDateAt(z, at);
    BuiltIsAnchored(z, frequency, interval, at, weekdays);
    var chosen := NormalizeWeekdays(weekdays);
    assert chosen != [] ==> chosen[0] in chosen;
    WeekdaysFromTheEpoch(DayNumber(start));
    SingleWeekday(Weekday(DayNumber(start)));
    assert Weekday(DayNumber(start)) in [Weekday(DayNumber(start))];
  }

  /** On its own date a built recurrence shows the clock reading of the instant it was built at, to the minute; if
      the offset does not change nearby it is that very minute. */
  lemma BuiltKeepsTheInstant(z: Zone, frequency: Frequency, interval: Option<int>, at: int, weekdays: Option<seq<int>>, offset: int)
    ensures var r, start := BuildCalendarRecurrence(z, frequency, interval, at, weekdays), LocalDateAt(z, at);
            Utc(start, r.hour, r.minute, 0) == WallClock(z, at) - WallClock(z, at) % 60_000
            && ((forall t | at - 2 * MS_PER_DAY < t < at + 2 * MS_PER_DAY :: z(t) == offset)
                ==> CandidateAt(z, r, start) == at - WallClock(z, at) % 60_000)
  {
    hide DayNumber, CivilDate, FormatLocalDate, NormalizeWeekdays, Resolve, Weekday, ZonedParts, Utc;
    var r, start := BuildCalendarRecurrence(z, frequency, interval, at, weekdays), LocalDateAt(z, at);
    ReadingToTheMinute(z, at);
    if forall t | at - 2 * MS_PER_DAY < t < at + 2 * MS_PER_DAY :: z(t) == offset {
      UtcIsWholeSeconds(start, r.hour, r.minute);
      SteadyZone(z, at, Utc(start, r.hour, r.minute, 0), offset);
    }
  }

  lemma ReadingToTheMinute(z: Zone, at: int)
    ensures var p := ZonedParts(z, at);
            Utc(p.date, p.hour, p.minute, 0) == WallClock(z, at) - WallClock(z, at) % 60_000
  {
    hide DayNumber, CivilDate;
    var clock := WallClock(z, at);
    MinuteOfDay(clock % MS_PER_DAY);
    assert clock == clock / MS_PER_DAY * MS_PER_DAY + clock % MS_PER_DAY;
    assert clock % MS_PER_DAY % 60_000 == clock % 60_000;
  }

  lemma SteadyZone(z: Zone, at: int, wanted: int, offset: int)
    requires wanted % 1000 == 0 && WallClock(z, at) - 60_000 < wanted <= WallClock(z, at)
    requires forall t | at - 2 * MS_PER_DAY < t < at + 2 * MS_PER_DAY :: z(t) == offset
    ensures Resolve(z, wanted) == wanted - offset
  {
    hide Resolve;
    FourCorrections(z, wanted);
    assert -MS_PER_DAY < z(at) < MS_PER_DAY;
    assert z(wanted) == offset && z(wanted - offset) == offset;
  }

  lemma MinuteOfDay(ms: int)
    requires 0 <= ms < MS_PER_DAY
    ensures ms / 3_600_000 * 3_600_000 + ms / 60_000 % 60 * 60_000 == ms - ms % 60_000
  {
    assert ms / 60_000 == 60 * (ms / 3_600_000) + ms / 60_000 % 60;
  }
}
