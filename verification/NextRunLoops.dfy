/** The four search loops as the program runs them, proved against `Cadence.NextRun`. */
module NextRunLoops {
  import opened Wrappers
  import opened Calendar
  import opened LocalTime
  import opened Cadence

  /** A search looks at its next attempt, or gives up at the limit. */
  lemma SearchStep(z: Zone, r: Recurrence, start: LocalDate, from: LocalDate, after: int, i: nat, limit: nat)
    requires r.interval >= 1 && Searchable(r) && i <= limit
    ensures var date := GridDate(r, start, from, i);
            FirstHit(FiresIn(z, r, start, from, after), i, limit) ==
            if i == limit then None
            else if date.Some? && CandidateAt(z, r, date.value) > after then Some(i)
            else FirstHit(FiresIn(z, r, start, from, after), i + 1, limit)
  {
    hide GridDate, CandidateAt, Searchable;
  }

  lemma DailyDates(r: Recurrence, start: LocalDate, from: LocalDate, i: nat)
    requires r.interval >= 1 && r.frequency == Daily && ValidDate(start)
    ensures GridDate(r, start, from, 0) ==
            Some(if DayNumber(AddDays(from, r.interval)) < DayNumber(start) then start else AddDays(from, r.interval))
    ensures GridDate(r, start, from, i + 1) == Some(AddDays(GridDate(r, start, from, i).value, r.interval))
  {
    hide DayNumber, CivilDate;
    CivilRoundTrip(start);
    assert (i + 1) * r.interval == i * r.interval + r.interval;
  }

  method DailyNextRun(z: Zone, r: Recurrence, scheduledFor: int, after: int) returns (next: Option<int>)
    requires r.frequency == Daily && r.interval >= 1
    ensures next == NextRun(z, r, scheduledFor, after)
  {
    hide DayNumber, CivilDate, ParseLocalDate, ZonedParts, GridDate, CandidateAt, DailyShortfall, FirstHit, AddDays;
    var parsed := ParseLocalDate(r.startDate);
    if parsed.None? {
      return None;
    }
    var start, from := parsed.value, LocalDateAt(z, scheduledFor);
    ParsedDateIsValid(r.startDate);
    ghost var limit := Attempts(r, start, from, after);
    DailyAlwaysHits(z, r, start, from, after);
    DailyDates(r, start, from, 0);

    var candidateDate := AddDays(from, r.interval);
    if DayNumber(candidateDate) < DayNumber(start) {
      candidateDate := start;
    }
    ghost var i: nat := 0;
    var candidate := CandidateAt(z, r, candidateDate);
    while candidate <= after
      invariant i <= limit
      invariant GridDate(r, start, from, i) == Some(candidateDate) && candidate == CandidateAt(z, r, candidateDate)
      invariant Hit(z, r, start, from, after) == FirstHit(FiresIn(z, r, start, from, after), i, limit)
      decreases limit - i
    {
      SearchStep(z, r, start, from, after, i, limit);
      DailyDates(r, start, from, i);
      candidateDate := AddDays(candidateDate, r.interval);
      candidate := CandidateAt(z, r, candidateDate);
      i := i + 1;
    }
    SearchStep(z, r, start, from, after, i, limit);
    next := Some(candidate);
  }

  lemma WeeklyDates(r: Recurrence, start: LocalDate, from: LocalDate, i: nat, candidateDate: LocalDate)
    requires r.interval >= 1 && r.frequency == Weekly && Searchable(r)
    requires candidateDate == AddDays(from, 1 + i)
    ensures GridDate(r, start, from, i) ==
            if InWeeklyCycle(r, start, DayNumber(candidateDate)) then Some(candidateDate) else None
    ensures AddDays(candidateDate, 1) == AddDays(from, 1 + (i + 1))
  {
    hide DayNumber, CivilDate, InWeeklyCycle, NormalizeWeekdays;
  }

  method WeeklyNextRun(z: Zone, r: Recurrence, scheduledFor: int, after: int) returns (next: Option<int>)
    requires r.frequency == Weekly && r.interval >= 1
    ensures next == NextRun(z, r, scheduledFor, after)
  {
    hide DayNumber, CivilDate, ParseLocalDate, ZonedParts, GridDate, CandidateAt, FirstHit, AddDays, NormalizeWeekdays;
    var parsed := ParseLocalDate(r.startDate);
    if parsed.None? {
      return None;
    }
    var start, from := parsed.value, LocalDateAt(z, scheduledFor);
    var weekdays := NormalizeWeekdays(r.weekdays);
    if |weekdays| == 0 {
      return None;
    }
    var candidateDate := AddDays(from, 1);
    var attempts := 0;
    while attempts < WEEKLY_ATTEMPTS
      invariant 0 <= attempts <= WEEKLY_ATTEMPTS
      invariant candidateDate == AddDays(from, 1 + attempts)
      invariant Hit(z, r, start, from, after) == FirstHit(FiresIn(z, r, start, from, after), attempts, WEEKLY_ATTEMPTS)
    {
      SearchStep(z, r, start, from, after, attempts, WEEKLY_ATTEMPTS);
      WeeklyDates(r, start, from, attempts, candidateDate);
      var weeksSinceStart := (DayNumber(candidateDate) - DayNumber(start)) / 7;
      var isInCycle := weeksSinceStart >= 0 && weeksSinceStart % r.interval == 0;
      if isInCycle && Weekday(DayNumber(candidateDate)) in weekdays {
        var candidate := CandidateAt(z, r, candidateDate);
        if candidate > after {
          return Some(candidate);
        }
      }
      candidateDate := AddDays(candidateDate, 1);
      attempts := attempts + 1;
    }
    SearchStep(z, r, start, from, after, attempts, WEEKLY_ATTEMPTS);
    next := None;
  }

  /** One more step of the interval from a clamped first step is never clamped again. */
  lemma ClampedSteps(base: int, interval: int, floor: int, i: nat)
    requires interval >= 1
    ensures Max(base + interval, floor) + i * interval >= floor
    ensures Max(base + interval, floor) + (i + 1) * interval == Max(base + interval, floor) + i * interval + interval
  {
    assert (i + 1) * interval == i * interval + interval;
  }

  method MonthlyNextRun(z: Zone, r: Recurrence, scheduledFor: int, after: int) returns (next: Option<int>)
    requires r.frequency == Monthly && r.interval >= 1
    ensures next == NextRun(z, r, scheduledFor, after)
  {
    hide DayNumber, CivilDate, ParseLocalDate, ZonedParts, CandidateAt, FirstHit, DaysInMonth;
    var parsed := ParseLocalDate(r.startDate);
    if parsed.None? || r.dayOfMonth.None? || r.dayOfMonth.value == 0 {
      return None;
    }
    var start, from, dayOfMonth := parsed.value, LocalDateAt(z, scheduledFor), r.dayOfMonth.value;
    var monthIndex := MonthIndex(from);
    var startMonthIndex := MonthIndex(start);
    ghost var first := Max(monthIndex + r.interval, startMonthIndex);
    var attempts := 0;
    while attempts < MONTHLY_ATTEMPTS
      invariant 0 <= attempts <= MONTHLY_ATTEMPTS
      invariant monthIndex == if attempts == 0 then MonthIndex(from) else first + (attempts - 1) * r.interval
      invariant Hit(z, r, start, from, after) == FirstHit(FiresIn(z, r, start, from, after), attempts, MONTHLY_ATTEMPTS)
    {
      SearchStep(z, r, start, from, after, attempts, MONTHLY_ATTEMPTS);
      ClampedSteps(MonthIndex(from), r.interval, startMonthIndex, attempts);
      if attempts > 0 { ClampedSteps(MonthIndex(from), r.interval, startMonthIndex, attempts - 1); }
      monthIndex := monthIndex + r.interval;
      if monthIndex < startMonthIndex {
        monthIndex := startMonthIndex;
      }
      assert monthIndex == first + attempts * r.interval;
      attempts := attempts + 1;
      var year, month := monthIndex / 12, monthIndex % 12 + 1;
      if dayOfMonth > DaysInMonth(year, month) {
        continue;
      }
      var candidate := CandidateAt(z, r, LocalDate(year, month, dayOfMonth));
      if candidate > after {
        return Some(candidate);
      }
    }
    SearchStep(z, r, start, from, after, attempts, MONTHLY_ATTEMPTS);
    next := None;
  }

  method YearlyNextRun(z: Zone, r: Recurrence, scheduledFor: int, after: int) returns (next: Option<int>)
    requires r.frequency == Yearly && r.interval >= 1
    ensures next == NextRun(z, r, scheduledFor, after)
  {
    hide DayNumber, CivilDate, ParseLocalDate, ZonedParts, CandidateAt, FirstHit, DaysInMonth;
    var parsed := ParseLocalDate(r.startDate);
    if parsed.None? || r.month.None? || r.month.value == 0 || r.dayOfMonth.None? || r.dayOfMonth.value == 0 {
      return None;
    }
    var start, from, dayOfMonth := parsed.value, LocalDateAt(z, scheduledFor), r.dayOfMonth.value;
    var year := from.year;
    ghost var first := Max(year + r.interval, start.year);
    var attempts := 0;
    while attempts < YEARLY_ATTEMPTS
      invariant 0 <= attempts <= YEARLY_ATTEMPTS
      invariant year == if attempts == 0 then from.year else first + (attempts - 1) * r.interval
      invariant Hit(z, r, start, from, after) == FirstHit(FiresIn(z, r, start, from, after), attempts, YEARLY_ATTEMPTS)
    {
      SearchStep(z, r, start, from, after, attempts, YEARLY_ATTEMPTS);
      ClampedSteps(from.year, r.interval, start.year, attempts);
      if attempts > 0 { ClampedSteps(from.year, r.interval, start.year, attempts - 1); }
      year := year + r.interval;
      if year < start.year {
        year := start.year;
      }
      assert year == first + attempts * r.interval;
      attempts := attempts + 1;
      if dayOfMonth > DaysInMonth(year, r.month.value) {
        continue;
      }
      var candidate := CandidateAt(z, r, LocalDate(year, r.month.value, dayOfMonth));
      if candidate > after {
        return Some(candidate);
      }
    }
    SearchStep(z, r, start, from, after, attempts, YEARLY_ATTEMPTS);
    next := None;
  }

  method GetNextRun(z: Zone, r: Recurrence, scheduledFor: int, after: int) returns (next: Option<int>)
    ensures next == NextRun(z, r, scheduledFor, after)
  {
    if r.interval <= 0 {
      return None;
    }
    match r.frequency {
      case Daily => next := DailyNextRun(z, r, scheduledFor, after);
      case Weekly => next := WeeklyNextRun(z, r, scheduledFor, after);
      case Monthly => next := MonthlyNextRun(z, r, scheduledFor, after);
      case Yearly => next := YearlyNextRun(z, r, scheduledFor, after);
    }
  }
}
