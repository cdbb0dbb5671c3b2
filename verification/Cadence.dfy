/** Recurring schedules: the search for the next fire time after a run. */
module Cadence {
  import opened Wrappers
  import opened Calendar
  import opened LocalTime

  const WEEKLY_ATTEMPTS := 3660
  const MONTHLY_ATTEMPTS := 1200
  const YEARLY_ATTEMPTS := 100

  datatype Frequency = Daily | Weekly | Monthly | Yearly

  datatype Recurrence = Recurrence(
    frequency: Frequency,
    interval: int,
    startDate: string,
    hour: int,
    minute: int,
    weekdays: Option<seq<int>>,
    dayOfMonth: Option<int>,
    month: Option<int>)

  /** The distinct values in 0..6, ascending. */
  function NormalizeWeekdays(values: Option<seq<int>>): seq<int> {
    if values.None? then [] else WeekdaysFrom(values.value, 0)
  }

  function WeekdaysFrom(values: seq<int>, day: nat): (r: seq<int>)
    requires day <= 7
    ensures forall d :: d in r <==> d in values && day <= d <= 6
    ensures forall i, j | 0 <= i < j < |r| :: r[i] < r[j]
    decreases 7 - day
  {
    if day == 7 then []
    else
      var rest := WeekdaysFrom(values, day + 1);
      assert forall j | 0 <= j < |rest| :: rest[j] in rest && day < rest[j];
      if day in values then [day] + rest else rest
  }

  function CandidateAt(z: Zone, r: Recurrence, date: LocalDate): int {
    ToInstant(z, date, r.hour, r.minute)
  }

  /** The optional fields that the recurrence's frequency needs are there and truthy. */
  predicate Searchable(r: Recurrence) {
    match r.frequency
    case Daily => true
    case Weekly => NormalizeWeekdays(r.weekdays) != []
    case Monthly => r.dayOfMonth.Some? && r.dayOfMonth.value != 0
    case Yearly => r.dayOfMonth.Some? && r.dayOfMonth.value != 0 && r.month.Some? && r.month.value != 0
  }

  function Max(a: int, b: int): int {
    if a < b then b else a
  }

  predicate InWeeklyCycle(r: Recurrence, start: LocalDate, day: int)
    requires r.interval >= 1
  {
    var weeks := (day - DayNumber(start)) / 7;
    weeks >= 0 && weeks % r.interval == 0 && Weekday(day) in NormalizeWeekdays(r.weekdays)
  }

  function MonthIndex(d: LocalDate): int {
    d.year * 12 + d.month - 1
  }

  /** The day of a month, unless the month is too short for it. */
  function DayInMonth(year: int, month: int, day: int): Option<LocalDate> {
    if day > DaysInMonth(year, month) then None else Some(LocalDate(year, month, day))
  }

  /** The `i`-th date that a search starting after `from` looks at; None when it passes over
      a day outside the weekly cycle or a month without the day. */
  function GridDate(r: Recurrence, start: LocalDate, from: LocalDate, i: nat): Option<LocalDate>
    requires r.interval >= 1 && Searchable(r)
  {
    match r.frequency
    case Daily =>
      Some(CivilDate(Max(DayNumber(from) + r.interval, DayNumber(start)) + i * r.interval))
    case Weekly =>
      var day := DayNumber(from) + 1 + i;
      if InWeeklyCycle(r, start, day) then Some(CivilDate(day)) else None
    case Monthly =>
      var index := Max(MonthIndex(from) + r.interval, MonthIndex(start)) + i * r.interval;
      DayInMonth(index / 12, index % 12 + 1, r.dayOfMonth.value)
    case Yearly =>
      var year := Max(from.year + r.interval, start.year) + i * r.interval;
      DayInMonth(year, r.month.value, r.dayOfMonth.value)
  }

  /** The `i`-th date looked at gives an instant later than `after`. */
  predicate Fires(z: Zone, r: Recurrence, start: LocalDate, from: LocalDate, after: int, i: nat)
    requires r.interval >= 1 && Searchable(r)
  {
    var date := GridDate(r, start, from, i);
    date.Some? && CandidateAt(z, r, date.value) > after
  }

  function FiresIn(z: Zone, r: Recurrence, start: LocalDate, from: LocalDate, after: int): nat -> bool
    requires r.interval >= 1 && Searchable(r)
  {
    (i: nat) => Fires(z, r, start, from, after, i)
  }

  /** The first of the attempts `i`, ..., `limit - 1` that fires. */
  function FirstHit(fires: nat -> bool, i: nat, limit: nat): (hit: Option<nat>)
    requires i <= limit
    ensures hit.Some? ==> i <= hit.value < limit && fires(hit.value) && forall j | i <= j < hit.value :: !fires(j)
    ensures hit.None? ==> forall j | i <= j < limit :: !fires(j)
    decreases limit - i
  {
    if i == limit then None else if fires(i) then Some(i) else FirstHit(fires, i + 1, limit)
  }

  /** How far the clock reading of the `i`-th day is from being certainly later than `after`. */
  function DailyShortfall(r: Recurrence, start: LocalDate, from: LocalDate, after: int, i: nat): int {
    after + MS_PER_DAY - r.hour * 3_600_000 - r.minute * 60_000
    - MS_PER_DAY * (Max(DayNumber(from) + r.interval, DayNumber(start)) + i * r.interval)
  }

  /** An offset is under a day, so a day whose clock reading is a day past `after` fires. */
  lemma DailyShortfallRunsOut(z: Zone, r: Recurrence, start: LocalDate, from: LocalDate, after: int, i: nat)
    requires r.interval >= 1 && r.frequency == Daily
    ensures DailyShortfall(r, start, from, after, i) <= 0 ==> Fires(z, r, start, from, after, i)
    ensures DailyShortfall(r, start, from, after, i + 1) <= DailyShortfall(r, start, from, after, i) - MS_PER_DAY
  {
    hide DayNumber, CivilDate, Resolve, Max;
    var date := GridDate(r, start, from, i).value;
    UtcIsWholeSeconds(date, r.hour, r.minute);
    ResolvedIsNear(z, Utc(date, r.hour, r.minute, 0));
    assert (i + 1) * r.interval == i * r.interval + r.interval;
  }

  /** The number of attempts a search makes. The daily search has no bound in the program;
      here it gets one that it never reaches. */
  function Attempts(r: Recurrence, start: LocalDate, from: LocalDate, after: int): nat {
    match r.frequency
    case Daily => Max(0, DailyShortfall(r, start, from, after, 0)) + 1
    case Weekly => WEEKLY_ATTEMPTS
    case Monthly => MONTHLY_ATTEMPTS
    case Yearly => YEARLY_ATTEMPTS
  }

  lemma {:induction false} DailyShortfallAfter(z: Zone, r: Recurrence, start: LocalDate, from: LocalDate, after: int, i: nat)
    requires r.interval >= 1 && r.frequency == Daily
    ensures DailyShortfall(r, start, from, after, i) <= DailyShortfall(r, start, from, after, 0) - i
  {
    hide DailyShortfall, Fires;
    if i > 0 {
      DailyShortfallAfter(z, r, start, from, after, i - 1);
      DailyShortfallRunsOut(z, r, start, from, after, i - 1);
    }
  }

  function Hit(z: Zone, r: Recurrence, start: LocalDate, from: LocalDate, after: int): Option<nat>
    requires r.interval >= 1 && Searchable(r)
  {
    FirstHit(FiresIn(z, r, start, from, after), 0, Attempts(r, start, from, after))
  }

  /** The daily search finds a fire time in every zone. */
  lemma DailyAlwaysHits(z: Zone, r: Recurrence, start: LocalDate, from: LocalDate, after: int)
    requires r.interval >= 1 && r.frequency == Daily
    ensures Hit(z, r, start, from, after).Some?
  {
    hide Fires, DailyShortfall;
    var last := Attempts(r, start, from, after) - 1;
    DailyShortfallAfter(z, r, start, from, after, last);
    DailyShortfallRunsOut(z, r, start, from, after, last);
    assert FiresIn(z, r, start, from, after)(last);
  }

  /** The local date of the next run. */
  function NextDate(z: Zone, r: Recurrence, scheduledFor: int, after: int): Option<LocalDate> {
    var start := ParseLocalDate(r.startDate);
    if r.interval <= 0 || start.None? || !Searchable(r) then None
    else
      var from := LocalDateAt(z, scheduledFor);
      var hit := Hit(z, r, start.value, from, after);
      if hit.None? then None else GridDate(r, start.value, from, hit.value)
  }

  /** The next fire time, as `getNextRunAtMs` computes it for a recurrence. */
  function NextRun(z: Zone, r: Recurrence, scheduledFor: int, after: int): Option<int> {
    var date := NextDate(z, r, scheduledFor, after);
    if date.None? then None else Some(CandidateAt(z, r, date.value))
  }

  /** The date is missing from the grid, or its instant is at or before `after`. */
  predicate NotAfter(z: Zone, r: Recurrence, date: Option<LocalDate>, after: int) {
    date.Some? ==> CandidateAt(z, r, date.value) <= after
  }

  /** A next run is strictly later than `after`, and every date that its search looked at before
      is missing from the calendar or the cycle, or gives an instant at or before `after`. When
      there is no next run, the recurrence is unusable or all its attempts were like that. */
  lemma NextRunIsFirstAfter(z: Zone, r: Recurrence, scheduledFor: int, after: int)
    ensures var next := NextRun(z, r, scheduledFor, after);
            var from := LocalDateAt(z, scheduledFor);
            var start := ParseLocalDate(r.startDate);
            if r.interval <= 0 || start.None? || !Searchable(r) then next.None?
            else
              var attempts := Attempts(r, start.value, from, after);
              if next.None? then
                r.frequency != Daily
                && forall j: nat | j < attempts :: NotAfter(z, r, GridDate(r, start.value, from, j), after)
              else
                next.value > after
                && exists k: nat | k < attempts ::
                     GridDate(r, start.value, from, k).Some?
                     && next.value == CandidateAt(z, r, GridDate(r, start.value, from, k).value)
                     && forall j: nat | j < k :: NotAfter(z, r, GridDate(r, start.value, from, j), after)
  {
    hide GridDate, ParseLocalDate, ZonedParts, CandidateAt, Searchable, Attempts;
    var start := ParseLocalDate(r.startDate);
    if r.interval > 0 && start.Some? && Searchable(r) {
      var from := LocalDateAt(z, scheduledFor);
      var fires := FiresIn(z, r, start.value, from, after);
      forall j: nat | !fires(j)
        ensures NotAfter(z, r, GridDate(r, start.value, from, j), after)
      {}
      var hit := Hit(z, r, start.value, from, after);
      if r.frequency == Daily { DailyAlwaysHits(z, r, start.value, from, after); }
      if hit.Some? { assert fires(hit.value); }
    }
  }

  lemma NextRunIsLater(z: Zone, r: Recurrence, scheduledFor: int, after: int)
    ensures NextRun(z, r, scheduledFor, after).Some? ==> NextRun(z, r, scheduledFor, after).value > after
  {
    hide *;
    NextRunIsFirstAfter(z, r, scheduledFor, after);
  }
}
