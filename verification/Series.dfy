/** What a recurrence anchored on its first run does when it is followed from run to run. */
module Series {
  import opened Wrappers
  import opened Calendar
  import opened LocalTime
  import opened Cadence

  function AnchorInterval(interval: Option<int>): int {
    if interval.Some? && interval.value > 0 then interval.value else 1
  }

  /** A calendar recurrence anchored to an exact first run. */
  function BuildCalendarRecurrence(z: Zone, frequency: Frequency, interval: Option<int>, at: int, weekdays: Option<seq<int>>)
    : Recurrence
  {
    var p := ZonedParts(z, at);
    var chosen := NormalizeWeekdays(weekdays);
    Recurrence(
      frequency, AnchorInterval(interval), FormatLocalDate(p.date), p.hour, p.minute,
      if frequency != Weekly then None
      else if |chosen| > 0 then Some(chosen) else Some([Weekday(DayNumber(p.date))]),
      if frequency == Monthly || frequency == Yearly then Some(p.date.day) else None,
      if frequency == Yearly then Some(p.date.month) else None)
  }

  /** The recurrence was anchored on local date `start`, with a four-digit year. */
  ghost predicate AnchoredOn(r: Recurrence, start: LocalDate) {
    && ValidDate(start) && 0 <= start.year <= 9999
    && r.interval >= 1
    && ParseLocalDate(r.startDate) == Some(start)
    && 0 <= r.hour < 24 && 0 <= r.minute < 60
    && Searchable(r)
    && (r.frequency == Monthly ==> r.dayOfMonth == Some(start.day))
    && (r.frequency == Yearly ==> r.dayOfMonth == Some(start.day) && r.month == Some(start.month))
  }

  lemma ChosenWeekdaysRemain(values: Option<seq<int>>)
    requires NormalizeWeekdays(values) != []
    ensures NormalizeWeekdays(Some(NormalizeWeekdays(values))) != []
  {
    hide WeekdaysFrom;
    var chosen := NormalizeWeekdays(values);
    assert chosen[0] in chosen;
    assert chosen[0] in NormalizeWeekdays(Some(chosen));
  }

  lemma SingleWeekday(day: int)
    requires 0 <= day <= 6
    ensures NormalizeWeekdays(Some([day])) == [day]
  {
    hide WeekdaysFrom;
    var only := NormalizeWeekdays(Some([day]));
    assert day in only;
    assert |only| > 1 ==> only[0] < only[1];
    forall i | 0 <= i < |only| ensures only[i] == day {
      assert only[i] in only && only[i] in [day];
    }
  }

  /** A recurrence built at an instant is anchored on its local date if and only if the year of that
      date has at most four digits. A later one can never be read back, and never fires. */
  lemma BuiltIsAnchored(z: Zone, frequency: Frequency, interval: Option<int>, at: int, weekdays: Option<seq<int>>)
    requires 0 <= LocalDateAt(z, at).year
    ensures var r, d := BuildCalendarRecurrence(z, frequency, interval, at, weekdays), LocalDateAt(z, at);
            && (AnchoredOn(r, d) <==> d.year <= 9999)
            && (d.year > 9999 ==> forall s, after :: NextRun(z, r, s, after).None?)
  {
    hide ParseLocalDate, FormatLocalDate, DayNumber, ZonedParts, NormalizeWeekdays, MonthLength, Hit, GridDate, CandidateAt;
    var d := LocalDateAt(z, at);
    ClockDate(z, at);
    DateTextRoundTrip(d);
    if NormalizeWeekdays(weekdays) != [] { ChosenWeekdaysRemain(weekdays); }
    SingleWeekday(Weekday(DayNumber(d)));
    assert d.day >= 1 && d.month >= 1;
  }

  /** A date on the recurrence's grid: a whole number of intervals after the start, on the right day. */
  predicate OnGrid(r: Recurrence, start: LocalDate, d: LocalDate)
    requires r.interval >= 1
  {
    match r.frequency
    case Daily => DayNumber(d) >= DayNumber(start) && (DayNumber(d) - DayNumber(start)) % r.interval == 0
    case Weekly => InWeeklyCycle(r, start, DayNumber(d))
    case Monthly => d.day == start.day && 1 <= d.month <= 12
                    && MonthIndex(d) >= MonthIndex(start) && (MonthIndex(d) - MonthIndex(start)) % r.interval == 0
    case Yearly => d.day == start.day && d.month == start.month
                   && d.year >= start.year && (d.year - start.year) % r.interval == 0
  }

  lemma {:induction false} WholeSteps(a: int, n: int, k: nat)
    requires n >= 1 && a % n == 0
    ensures (a + k * n) % n == 0
  {
    if k > 0 {
      WholeSteps(a, n, k - 1);
      var b := a + (k - 1) * n;
      assert a + k * n == b + n;
      assert b == n * (b / n);
      assert b + n == n * (b / n + 1);
      MultipleMod(b / n + 1, n);
    }
  }

  lemma MultipleMod(q: int, n: int)
    requires n >= 1
    ensures (n * q) % n == 0
  {
    var f := q - (n * q) / n;
    assert (n * q) % n == n * f;
    assert f >= 1 ==> n * f >= n;
    assert f <= -1 ==> n * f <= -n;
  }

  lemma MonthDatesStayOnGrid(r: Recurrence, start: LocalDate, from: LocalDate, i: nat)
    requires AnchoredOn(r, start) && r.frequency == Monthly && OnGrid(r, start, from)
    ensures var e := GridDate(r, start, from, i);
            e.Some? ==> ValidDate(e.value) && OnGrid(r, start, e.value)
  {
    hide DayNumber, CivilDate, ParseLocalDate, DaysInMonth, MonthLength;
    WholeSteps(MonthIndex(from) - MonthIndex(start), r.interval, i + 1);
    assert (i + 1) * r.interval == i * r.interval + r.interval;
    var index := MonthIndex(from) + (i + 1) * r.interval;
    DaysInMonthIsLength(index / 12, index % 12 + 1);
    assert MonthIndex(LocalDate(index / 12, index % 12 + 1, start.day)) == index;
  }

  lemma YearDatesStayOnGrid(r: Recurrence, start: LocalDate, from: LocalDate, i: nat)
    requires AnchoredOn(r, start) && r.frequency == Yearly && OnGrid(r, start, from)
    ensures var e := GridDate(r, start, from, i);
            e.Some? ==> ValidDate(e.value) && OnGrid(r, start, e.value)
  {
    hide DayNumber, CivilDate, ParseLocalDate, DaysInMonth, MonthLength;
    WholeSteps(from.year - start.year, r.interval, i + 1);
    assert (i + 1) * r.interval == i * r.interval + r.interval;
    DaysInMonthIsLength(from.year + (i + 1) * r.interval, start.month);
  }

  lemma DayDatesStayOnGrid(r: Recurrence, start: LocalDate, from: LocalDate, i: nat)
    requires AnchoredOn(r, start) && r.frequency == Daily && OnGrid(r, start, from)
    ensures var e := GridDate(r, start, from, i).value; ValidDate(e) && OnGrid(r, start, e)
  {
    hide DayNumber, ParseLocalDate;
    WholeSteps(DayNumber(from) - DayNumber(start), r.interval, i + 1);
    assert (i + 1) * r.interval == i * r.interval + r.interval;
  }

  /** From a date on the grid, every date that the search looks at is on the grid. A weekly
      search does not even need to start on it. */
  lemma GridDatesStayOnGrid(r: Recurrence, start: LocalDate, from: LocalDate, i: nat)
    requires AnchoredOn(r, start)
    requires r.frequency == Weekly || OnGrid(r, start, from)
    ensures var e := GridDate(r, start, from, i);
            e.Some? ==> ValidDate(e.value) && OnGrid(r, start, e.value)
  {
    hide DayNumber, CivilDate, InWeeklyCycle, ParseLocalDate, DaysInMonth, MonthLength;
    match r.frequency
    case Daily => DayDatesStayOnGrid(r, start, from, i);
    case Weekly =>
    case Monthly => MonthDatesStayOnGrid(r, start, from, i);
    case Yearly => YearDatesStayOnGrid(r, start, from, i);
  }

  lemma StepStaysOnGrid(z: Zone, r: Recurrence, start: LocalDate, s: int, after: int)
    requires AnchoredOn(r, start)
    requires r.frequency == Weekly || OnGrid(r, start, LocalDateAt(z, s))
    ensures var e := NextDate(z, r, s, after); e.Some? ==> ValidDate(e.value) && OnGrid(r, start, e.value)
  {
    hide GridDate, OnGrid, ParseLocalDate, ZonedParts, FirstHit, Searchable;
    var from := LocalDateAt(z, s);
    var hit := Hit(z, r, start, from, after);
    if hit.Some? { GridDatesStayOnGrid(r, start, from, hit.value); }
  }

  /** The local time of the slot is shown by the zone's clock, which changes at most once around it. */
  ghost predicate Unskipped(z: Zone, r: Recurrence, date: LocalDate) {
    var wanted := Utc(date, r.hour, r.minute, 0);
    Exists(z, wanted) && exists change, before, after :: OneChangeNear(z, wanted, change, before, after)
  }

  lemma UnskippedIsExact(z: Zone, r: Recurrence, date: LocalDate)
    requires ValidDate(date) && 0 <= r.hour < 24 && 0 <= r.minute < 60 && Unskipped(z, r, date)
    ensures ZonedParts(z, CandidateAt(z, r, date)) == Parts(date, r.hour, r.minute, 0)
  {
    hide ZonedParts, Utc, Resolve, OffsetAt;
    var wanted := Utc(date, r.hour, r.minute, 0);
    var change, before, after :| OneChangeNear(z, wanted, change, before, after);
    UtcIsWholeSeconds(date, r.hour, r.minute);
    ExactIffLocalTimeExists(z, wanted, change, before, after);
    FixpointShowsRequest(z, date, r.hour, r.minute);
  }

  /** The slot reached from `at` by following the recurrence, when the `n`-th step is taken at
      time `afters[n]`. */
  function Slot(z: Zone, r: Recurrence, at: int, afters: seq<int>): Option<int> {
    if afters == [] then Some(at)
    else
      var last := |afters| - 1;
      var previous := Slot(z, r, at, afters[..last]);
      if previous.None? then None else NextRun(z, r, previous.value, afters[last])
  }

  function SlotDate(z: Zone, r: Recurrence, at: int, afters: seq<int>): Option<LocalDate>
    requires afters != []
  {
    var last := |afters| - 1;
    var previous := Slot(z, r, at, afters[..last]);
    if previous.None? then None else NextDate(z, r, previous.value, afters[last])
  }

  /** The zone's clock shows the slot's own date at the slot, though perhaps at another time of that day. */
  predicate ShowsItsDate(z: Zone, r: Recurrence, date: LocalDate) {
    LocalDateAt(z, CandidateAt(z, r, date)) == date
  }

  /** Every step of a series lands on the anchor's grid, and after the step before it, as long as steps are not
      taken early and each slot shows its own date. */
  lemma {:induction false} SeriesKeepsGrid(z: Zone, r: Recurrence, start: LocalDate, at: int, afters: seq<int>)
    requires AnchoredOn(r, start) && LocalDateAt(z, at) == start
    requires forall n | 0 < n <= |afters| && SlotDate(z, r, at, afters[..n]).Some? ::
               ShowsItsDate(z, r, SlotDate(z, r, at, afters[..n]).value)
    ensures var s := Slot(z, r, at, afters);
            s.Some? && afters != [] ==>
              var previous := Slot(z, r, at, afters[..|afters| - 1]);
              var date := SlotDate(z, r, at, afters);
              && date.Some? && LocalDateAt(z, s.value) == date.value && s.value == CandidateAt(z, r, date.value)
              && ValidDate(date.value) && OnGrid(r, start, date.value)
              && s.value > afters[|afters| - 1]
              && previous.Some?
              && (previous.value <= afters[|afters| - 1] ==> s.value > previous.value)
    decreases |afters|
  {
    hide NextDate, ZonedParts, CandidateAt, ParseLocalDate, InWeeklyCycle, Searchable;
    if afters != [] && Slot(z, r, at, afters).Some? {
      var last := |afters| - 1;
      var earlier := afters[..last];
      var previous := Slot(z, r, at, earlier).value;
      forall n | 0 < n <= |earlier| && SlotDate(z, r, at, earlier[..n]).Some?
        ensures ShowsItsDate(z, r, SlotDate(z, r, at, earlier[..n]).value)
      {
        assert earlier[..n] == afters[..n];
      }
      SeriesKeepsGrid(z, r, start, at, earlier);
      if earlier == [] && r.frequency != Weekly { StartIsOnGrid(r, start); }
      StepStaysOnGrid(z, r, start, previous, afters[last]);
      assert afters[..|afters|] == afters;
      NextRunIsLater(z, r, previous, afters[last]);
    }
  }

  /** It also keeps the anchor's wall-clock time, as long as no slot falls in a skipped local time. */
  lemma SeriesKeepsGridAndTime(z: Zone, r: Recurrence, start: LocalDate, at: int, afters: seq<int>)
    requires AnchoredOn(r, start) && LocalDateAt(z, at) == start
    requires forall n | 0 < n <= |afters| && SlotDate(z, r, at, afters[..n]).Some? ::
               ValidDate(SlotDate(z, r, at, afters[..n]).value) ==> Unskipped(z, r, SlotDate(z, r, at, afters[..n]).value)
    ensures var s := Slot(z, r, at, afters);
            s.Some? && afters != [] ==>
              var previous := Slot(z, r, at, afters[..|afters| - 1]);
              var p := ZonedParts(z, s.value);
              p == Parts(p.date, r.hour, r.minute, 0)
              && ValidDate(p.date) && OnGrid(r, start, p.date)
              && s.value > afters[|afters| - 1]
              && previous.Some?
              && (previous.value <= afters[|afters| - 1] ==> s.value > previous.value)
  {
    hide Slot, SlotDate, CandidateAt, ZonedParts, Unskipped, OnGrid, ParseLocalDate, Searchable;
    forall n | 0 < n <= |afters| && SlotDate(z, r, at, afters[..n]).Some?
      ensures ShowsItsDate(z, r, SlotDate(z, r, at, afters[..n]).value)
    {
      SlotDatesAreValid(z, r, start, at, afters[..n]);
      UnskippedIsExact(z, r, SlotDate(z, r, at, afters[..n]).value);
    }
    SeriesKeepsGrid(z, r, start, at, afters);
    if Slot(z, r, at, afters).Some? && afters != [] {
      assert afters[..|afters|] == afters;
      UnskippedIsExact(z, r, SlotDate(z, r, at, afters).value);
    }
  }

  lemma SlotDatesAreValid(z: Zone, r: Recurrence, start: LocalDate, at: int, afters: seq<int>)
    requires AnchoredOn(r, start) && afters != []
    ensures SlotDate(z, r, at, afters).Some? ==> ValidDate(SlotDate(z, r, at, afters).value)
  {
    hide GridDate, ParseLocalDate, ZonedParts, FirstHit, Searchable, Slot, ValidDate;
    var last := |afters| - 1;
    var previous := Slot(z, r, at, afters[..last]);
    if previous.Some? {
      var from := LocalDateAt(z, previous.value);
      var hit := Hit(z, r, start, from, afters[last]);
      if hit.Some? { GridDateIsValid(r, start, from, hit.value); }
    }
  }

  /** The exact condition: near at most one change of offset, a slot shows its own date unless its time is
      skipped and the gap carries it over midnight. */
  lemma ShowsItsDateIff(z: Zone, r: Recurrence, date: LocalDate, change: int, before: int, after: int)
    requires ValidDate(date) && 0 <= r.hour < 24 && 0 <= r.minute < 60
    requires OneChangeNear(z, Utc(date, r.hour, r.minute, 0), change, before, after)
    ensures var wanted := Utc(date, r.hour, r.minute, 0);
            var ofDay, gap := wanted % MS_PER_DAY, after - before;
            ShowsItsDate(z, r, date) <==>
            Exists(z, wanted) || if wanted < change then gap <= ofDay else ofDay + gap < MS_PER_DAY
  {
    hide ZonedParts, Utc, Resolve, OffsetAt, CivilDate, DayNumber, Exists;
    var wanted := Utc(date, r.hour, r.minute, 0);
    var t := CandidateAt(z, r, date);
    assert t == Resolve(z, wanted);
    UtcIsWholeSeconds(date, r.hour, r.minute);
    ClockDate(z, t);
    DayNumberOrders(LocalDateAt(z, t), date);
    DayOfUtc(date, r.hour, r.minute);
    ExactIffLocalTimeExists(z, wanted, change, before, after);
    if !Exists(z, wanted) {
      SkippedTimeMovesByTheGap(z, wanted, change, before, after);
    }
    assert ShowsItsDate(z, r, date) <==> DayNumber(LocalDateAt(z, t)) == DayNumber(date);
  }

  lemma DayOfUtc(date: LocalDate, hour: int, minute: int)
    requires 0 <= hour < 24 && 0 <= minute < 60
    ensures var w := Utc(date, hour, minute, 0);
            w / MS_PER_DAY == DayNumber(date) && DayNumber(date) * MS_PER_DAY + w % MS_PER_DAY == w
  {
    hide DayNumber;
  }

  lemma ShownDateIsNear(z: Zone, r: Recurrence, date: LocalDate, change: int, before: int, after: int)
    requires ValidDate(date) && 0 <= r.hour < 24 && 0 <= r.minute < 60
    requires OneChangeNear(z, Utc(date, r.hour, r.minute, 0), change, before, after)
    ensures var shift := DayNumber(LocalDateAt(z, CandidateAt(z, r, date))) - DayNumber(date);
            var wanted := Utc(date, r.hour, r.minute, 0);
            && shift == (if Exists(z, wanted) then 0
                         else if wanted < change then (wanted % MS_PER_DAY - (after - before)) / MS_PER_DAY
                         else (wanted % MS_PER_DAY + (after - before)) / MS_PER_DAY)
            && -2 <= shift <= 2 && (after - before <= MS_PER_DAY ==> -1 <= shift <= 1)
  {
    hide ZonedParts, Utc, Resolve, OffsetAt, CivilDate, DayNumber, Exists;
    var wanted := Utc(date, r.hour, r.minute, 0);
    var t := CandidateAt(z, r, date);
    assert t == Resolve(z, wanted);
    UtcIsWholeSeconds(date, r.hour, r.minute);
    ClockDate(z, t);
    DayOfUtc(date, r.hour, r.minute);
    ExactIffLocalTimeExists(z, wanted, change, before, after);
    assert z(wanted) == if wanted < change then before else after;
    ResolvedIsNear(z, wanted);
    assert -MS_PER_DAY < z(t) < MS_PER_DAY;
    if !Exists(z, wanted) {
      SkippedTimeMovesByTheGap(z, wanted, change, before, after);
    }
  }

  /** A slot that does not show its own date is off the grid, for a monthly or yearly rule and for a daily one
      whose interval is longer than the displacement. */
  lemma LeavingTheDateLeavesTheGrid(z: Zone, r: Recurrence, start: LocalDate, date: LocalDate, change: int, before: int, after: int)
    requires AnchoredOn(r, start) && r.frequency != Weekly && ValidDate(date) && OnGrid(r, start, date)
    requires OneChangeNear(z, Utc(date, r.hour, r.minute, 0), change, before, after)
    requires r.frequency == Daily ==> r.interval >= 3 || (r.interval == 2 && after - before <= MS_PER_DAY)
    ensures ShowsItsDate(z, r, date) <==> OnGrid(r, start, LocalDateAt(z, CandidateAt(z, r, date)))
  {
    hide ZonedParts, Utc, CandidateAt, ParseLocalDate, DayNumber, CivilDate, Searchable, MonthLength;
    var shown := LocalDateAt(z, CandidateAt(z, r, date));
    ShownDateIsNear(z, r, date, change, before, after);
    ClockDate(z, CandidateAt(z, r, date));
    DayNumberOrders(shown, date);
    if OnGrid(r, start, shown) && shown != date {
      if r.frequency == Daily {
        SmallMultiples(DayNumber(shown) - DayNumber(start), DayNumber(date) - DayNumber(start), r.interval);
      } else if MonthIndex(shown) < MonthIndex(date) {
        LaterMonthIsFar(shown, date);
      } else if MonthIndex(date) < MonthIndex(shown) {
        LaterMonthIsFar(date, shown);
      }
    }
  }

  /** A weekly slot that shows another day than its own is still on the grid if and only if that day is a chosen
      weekday too, and either of the same week, counted from the start, or of any week if the interval is one. */
  lemma WeeklySlotStaysOnTheGridIff(r: Recurrence, start: LocalDate, date: LocalDate, shown: LocalDate)
    requires r.frequency == Weekly && r.interval >= 1 && OnGrid(r, start, date)
    requires -2 <= DayNumber(shown) - DayNumber(date) <= 2
    ensures var offset := (DayNumber(date) - DayNumber(start)) % 7;
            var shift := DayNumber(shown) - DayNumber(date);
            OnGrid(r, start, shown) <==>
            && Weekday(DayNumber(shown)) in NormalizeWeekdays(r.weekdays)
            && (0 <= offset + shift < 7 || (r.interval == 1 && DayNumber(start) <= DayNumber(shown)))
  {
    hide DayNumber, NormalizeWeekdays, Weekday;
    var days, shift := DayNumber(date) - DayNumber(start), DayNumber(shown) - DayNumber(date);
    var weeks, offset := days / 7, days % 7;
    assert days == 7 * weeks + offset;
    assert (days + shift) / 7 == if offset + shift < 0 then weeks - 1 else if offset + shift < 7 then weeks else weeks + 1;
    if r.interval > 1 {
      if (weeks - 1) % r.interval == 0 { SmallMultiples(weeks, weeks - 1, r.interval); }
      if (weeks + 1) % r.interval == 0 { SmallMultiples(weeks + 1, weeks, r.interval); }
    }
  }

  lemma SmallMultiples(a: int, b: int, n: int)
    requires n >= 1 && a % n == 0 && b % n == 0 && a != b
    ensures a - b >= n || b - a >= n
  {
    assert a == n * (a / n) && b == n * (b / n);
    var k := a / n - b / n;
    assert a - b == n * k;
    assert k >= 1 ==> n * k >= n;
    assert k <= -1 ==> n * k <= -n;
    assert k == 0 ==> n * k == 0;
  }

  /** From a day off the grid a daily search stays off it: the phase has changed for good. */
  lemma OffGridStaysOff(r: Recurrence, start: LocalDate, from: LocalDate, i: nat)
    requires AnchoredOn(r, start) && r.frequency == Daily && ValidDate(from) && DayNumber(start) <= DayNumber(from)
    ensures OnGrid(r, start, from) <==> OnGrid(r, start, GridDate(r, start, from, i).value)
  {
    hide DayNumber, CivilDate, ParseLocalDate;
    var a := DayNumber(from) - DayNumber(start);
    assert (i + 1) * r.interval == i * r.interval + r.interval;
    var e := GridDate(r, start, from, i).value;
    assert DayNumber(e) - DayNumber(start) == a + (i + 1) * r.interval;
    if a % r.interval == 0 {
      WholeSteps(a, r.interval, i + 1);
    }
    if (a + (i + 1) * r.interval) % r.interval == 0 {
      WholeStepsBack(a, r.interval, i + 1);
    }
  }

  lemma WholeStepsBack(a: int, n: int, k: nat)
    requires n >= 1 && (a + k * n) % n == 0
    ensures a % n == 0
  {
    var b := a + k * n;
    assert b == n * (b / n);
    assert a == n * (b / n - k);
    MultipleMod(b / n - k, n);
  }

  lemma StartIsOnGrid(r: Recurrence, start: LocalDate)
    requires AnchoredOn(r, start) && r.frequency != Weekly
    ensures OnGrid(r, start, start)
  {}

  // ---------- a series does not run dry ----------

  lemma FourthYear(y: int, b: int)
    requires y % 4 == 0 && (y + 4 * b) % 100 != 0
    ensures Leap(y + 4 * b)
  {
    assert y == 4 * (y / 4);
    assert (4 * (y / 4 + b)) % 4 == 0;
  }

  lemma FourHundredthYear(y: int, v: int)
    requires y % 400 == 0
    ensures Leap(y + 16 * (25 * v))
  {
    assert y == 400 * (y / 400);
    assert (400 * (y / 400 + v)) % 400 == 0;
    assert y + 16 * (25 * v) == 400 * (y / 400 + v);
  }

  lemma BothCenturies(y: int, n: int)
    requires (y + 4 * n) % 100 == 0 && (y + 8 * n) % 100 == 0
    ensures y % 100 == 0 && n == 25 * (n / 25)
  {
    var p, q := (y + 4 * n) / 100, (y + 8 * n) / 100;
    assert y + 4 * n == 100 * p && y + 8 * n == 100 * q;
    assert n == 25 * (q - p) && y == 100 * (2 * p - q);
  }

  /** From a leap year, stepping by any interval meets another leap year within 16 steps. */
  lemma LeapYearWithin16Steps(y: int, n: int) returns (k: nat)
    requires Leap(y) && n >= 1
    ensures 1 <= k <= 16 && Leap(y + k * n)
  {
    if (y + 4 * n) % 100 != 0 {
      k := 4;
      FourthYear(y, n);
    } else if (y + 8 * n) % 100 != 0 {
      k := 8;
      FourthYear(y, 2 * n);
    } else {
      k := 16;
      BothCenturies(y, n);
      FourHundredthYear(y, n / 25);
    }
  }

  /** So one of any 16 consecutive steps from a leap year is a leap year. */
  lemma {:induction false} LeapYearInEvery16Steps(y: int, n: int, m: nat) returns (k: nat)
    requires Leap(y) && n >= 1
    ensures m < k <= m + 16 && Leap(y + k * n)
    decreases m
  {
    if m == 0 {
      k := LeapYearWithin16Steps(y, n);
    } else {
      k := LeapYearInEvery16Steps(y, n, m - 1);
      if k == m {
        var more := LeapYearWithin16Steps(y + m * n, n);
        assert y + m * n + more * n == y + (m + more) * n;
        k := m + more;
      }
    }
  }

  /** Sixteen steps can be needed: from 2000 by 25 years. */
  lemma SixteenStepsCanBeNeeded(k: nat)
    requires 1 <= k < 16
    ensures Leap(2000) && !Leap(2000 + k * 25)
  {}

  /** A monthly rule that steps by one month never passes over two months in a row. */
  lemma NoTwoShortMonthsInARow(r: Recurrence, start: LocalDate, from: LocalDate, i: nat)
    requires r.frequency == Monthly && r.interval == 1 && Searchable(r) && r.dayOfMonth.value <= 31
    ensures GridDate(r, start, from, i).Some? || GridDate(r, start, from, i + 1).Some?
  {
    hide DayNumber, CivilDate, DaysInMonth;
    var index := Max(MonthIndex(from) + 1, MonthIndex(start)) + i;
    DaysInMonthIsLength(index / 12, index % 12 + 1);
    DaysInMonthIsLength((index + 1) / 12, (index + 1) % 12 + 1);
  }

  /** Of two dates at least two days apart the later one is reached later, whatever the zone does. */
  lemma TwoDaysIsLater(z: Zone, r: Recurrence, a: LocalDate, b: LocalDate)
    requires 0 <= r.hour < 24 && 0 <= r.minute < 60 && DayNumber(a) + 2 <= DayNumber(b)
    ensures CandidateAt(z, r, a) < CandidateAt(z, r, b)
  {
    CandidateIsNear(z, r, a);
    CandidateIsNear(z, r, b);
    hide DayNumber, Resolve;
  }

  lemma CandidateIsNear(z: Zone, r: Recurrence, e: LocalDate)
    requires 0 <= r.hour < 24 && 0 <= r.minute < 60
    ensures var w := DayNumber(e) * MS_PER_DAY + r.hour * 3_600_000 + r.minute * 60_000;
            w - MS_PER_DAY < CandidateAt(z, r, e) < w + MS_PER_DAY
    ensures (DayNumber(e) - 1) * MS_PER_DAY < CandidateAt(z, r, e) < (DayNumber(e) + 2) * MS_PER_DAY
  {
    hide DayNumber, Resolve;
    UtcIsWholeSeconds(e, r.hour, r.minute);
    ResolvedIsNear(z, Utc(e, r.hour, r.minute, 0));
  }

  /** Once some attempt fires, there is a next run. */
  lemma SomeAttemptFires(z: Zone, r: Recurrence, start: LocalDate, s: int, after: int, i: nat)
    requires AnchoredOn(r, start)
    requires var from := LocalDateAt(z, s); i < Attempts(r, start, from, after) && Fires(z, r, start, from, after, i)
    ensures NextRun(z, r, s, after).Some?
  {
    hide GridDate, DayNumber, ZonedParts, CandidateAt, ParseLocalDate, Searchable, Attempts;
    assert FiresIn(z, r, start, LocalDateAt(z, s), after)(i);
  }

  lemma NoAttemptFires(z: Zone, r: Recurrence, start: LocalDate, s: int, after: int)
    requires AnchoredOn(r, start)
    requires var from := LocalDateAt(z, s);
             forall i: nat | i < Attempts(r, start, from, after) :: !Fires(z, r, start, from, after, i)
    ensures NextRun(z, r, s, after).None?
  {
    hide Fires, GridDate, DayNumber, ZonedParts, CandidateAt, ParseLocalDate, Searchable, Attempts;
    var from := LocalDateAt(z, s);
    var hit := Hit(z, r, start, from, after);
  }

  function MonthStart(index: int): int {
    MakeDay(0, index, 1)
  }

  lemma {:induction false} MonthStartsAscend(a: int, b: int)
    requires a <= b
    ensures MonthStart(a) + 28 * (b - a) <= MonthStart(b)
    decreases b - a
  {
    hide DaysBeforeYear;
    if a < b {
      MonthStartsAscend(a, b - 1);
      var y, m := (b - 1) / 12, (b - 1) % 12 + 1;
      YearIsItsMonths(y);
      YearStep(y);
      assert m < 12 ==> b / 12 == y && b % 12 + 1 == m + 1;
      assert m == 12 ==> b / 12 == y + 1 && b % 12 + 1 == 1;
      assert MonthStart(b) == MonthStart(b - 1) + MonthLength(y, m);
    }
  }

  lemma LaterMonthIsFar(d: LocalDate, e: LocalDate)
    requires ValidDate(d) && ValidDate(e) && d.day == e.day && MonthIndex(d) < MonthIndex(e)
    ensures DayNumber(e) >= DayNumber(d) + 28
  {
    hide DaysBeforeYear;
    MonthStartsAscend(MonthIndex(d), MonthIndex(e));
    assert MonthIndex(d) / 12 == d.year && MonthIndex(d) % 12 == d.month - 1;
    assert MonthIndex(e) / 12 == e.year && MonthIndex(e) % 12 == e.month - 1;
    assert DayNumber(d) == MonthStart(MonthIndex(d)) + d.day - 1;
    assert DayNumber(e) == MonthStart(MonthIndex(e)) + e.day - 1;
  }

  /** In any 16 consecutive intervals of years the same month has room for the day. */
  lemma SameMonthInEvery16(d: LocalDate, n: int, m: nat) returns (k: nat)
    requires ValidDate(d) && n >= 1
    ensures m < k <= m + 16 && ValidDate(LocalDate(d.year + k * n, d.month, d.day))
  {
    if Leap(d.year) {
      k := LeapYearInEvery16Steps(d.year, n, m);
    } else {
      k := m + 1;
    }
  }

  // ---------- how long a series goes on ----------

  lemma GridDateIsValid(r: Recurrence, start: LocalDate, from: LocalDate, i: nat)
    requires AnchoredOn(r, start)
    ensures var e := GridDate(r, start, from, i); e.Some? ==> ValidDate(e.value)
  {
    hide DayNumber, CivilDate, ParseLocalDate, DaysInMonth, MonthLength, InWeeklyCycle;
    match r.frequency
    case Daily =>
    case Weekly =>
    case Monthly =>
      var index := Max(MonthIndex(from) + r.interval, MonthIndex(start)) + i * r.interval;
      DaysInMonthIsLength(index / 12, index % 12 + 1);
    case Yearly =>
      DaysInMonthIsLength(Max(from.year + r.interval, start.year) + i * r.interval, start.month);
  }

  /** Later attempts look at later dates: by a day for each attempt, and by weeks for a monthly or yearly rule. */
  lemma GridDatesAscend(r: Recurrence, start: LocalDate, from: LocalDate, i: nat, j: nat)
    requires AnchoredOn(r, start) && r.frequency != Daily && i < j
    requires GridDate(r, start, from, i).Some? && GridDate(r, start, from, j).Some?
    ensures var d, e := DayNumber(GridDate(r, start, from, i).value), DayNumber(GridDate(r, start, from, j).value);
            d + (if r.frequency == Weekly then j - i else 28) <= e
  {
    hide DayNumber, CivilDate, ParseLocalDate, DaysInMonth, MonthLength, InWeeklyCycle, ValidDate;
    var d, e := GridDate(r, start, from, i).value, GridDate(r, start, from, j).value;
    GridDateIsValid(r, start, from, i);
    GridDateIsValid(r, start, from, j);
    if r.frequency != Weekly {
      assert j * r.interval == i * r.interval + (j - i) * r.interval;
      assert (j - i) * r.interval >= 1;
      if r.frequency == Monthly {
        var first := Max(MonthIndex(from) + r.interval, MonthIndex(start));
        assert MonthIndex(d) == first + i * r.interval && MonthIndex(e) == first + j * r.interval;
      }
      LaterMonthIsFar(d, e);
    }
  }

  /** The last of the numbers below `n` that satisfy a test. */
  function LastOf(test: nat -> bool, n: nat): (last: Option<nat>)
    ensures last.Some? ==> last.value < n && test(last.value)
    ensures forall j: nat | j < n && test(j) :: last.Some? && j <= last.value
  {
    if n == 0 then None else if test(n - 1) then Some(n - 1) else LastOf(test, n - 1)
  }

  function LooksAtDate(r: Recurrence, start: LocalDate, from: LocalDate): nat -> bool
    requires r.interval >= 1 && Searchable(r)
  {
    (i: nat) => GridDate(r, start, from, i).Some?
  }

  /** The last of the first `n` attempts that looks at a date of the grid. */
  function LastAttempt(r: Recurrence, start: LocalDate, from: LocalDate, n: nat): (last: Option<nat>)
    requires r.interval >= 1 && Searchable(r)
  {
    LastOf(LooksAtDate(r, start, from), n)
  }

  lemma LastAttemptIsLast(r: Recurrence, start: LocalDate, from: LocalDate, n: nat)
    requires r.interval >= 1 && Searchable(r)
    ensures var last := LastAttempt(r, start, from, n);
            && (last.Some? ==> last.value < n && GridDate(r, start, from, last.value).Some?)
            && forall j: nat | j < n && GridDate(r, start, from, j).Some? :: last.Some? && j <= last.value
  {
    hide GridDate, Searchable, LastOf;
    var test := LooksAtDate(r, start, from);
    forall j: nat | j < n && GridDate(r, start, from, j).Some?
      ensures LastAttempt(r, start, from, n).Some? && j <= LastAttempt(r, start, from, n).value
    {
      assert test(j);
    }
  }

  /** A search finds something exactly if the last date it looks at fires, or in a weekly one the day before it. */
  lemma ContinuesIff(z: Zone, r: Recurrence, start: LocalDate, s: int, after: int)
    requires AnchoredOn(r, start) && r.frequency != Daily
    ensures var from := LocalDateAt(z, s);
            var last := LastAttempt(r, start, from, Attempts(r, start, from, after));
            NextRun(z, r, s, after).Some? <==>
            && last.Some?
            && (Fires(z, r, start, from, after, last.value)
                || (r.frequency == Weekly && last.value > 0 && Fires(z, r, start, from, after, last.value - 1)))
  {
    hide GridDate, DayNumber, ZonedParts, CandidateAt, ParseLocalDate, Searchable, Attempts, NextRun, LastAttempt;
    var from := LocalDateAt(z, s);
    var n := Attempts(r, start, from, after);
    var last := LastAttempt(r, start, from, n);
    LastAttemptIsLast(r, start, from, n);
    if j: nat :| j < n && Fires(z, r, start, from, after, j) {
      SomeAttemptFires(z, r, start, s, after, j);
      assert last.Some? && j <= last.value;
      if j < last.value && !(r.frequency == Weekly && j == last.value - 1) {
        GridDatesAscend(r, start, from, j, last.value);
        TwoDaysIsLater(z, r, GridDate(r, start, from, j).value, GridDate(r, start, from, last.value).value);
        assert Fires(z, r, start, from, after, last.value);
      }
    } else {
      NoAttemptFires(z, r, start, s, after);
    }
  }

  /** The time up to which a search from a date of the grid is sure to find something. */
  function Horizon(r: Recurrence, d: LocalDate): int {
    if r.frequency == Weekly then (DayNumber(d) + WEEKLY_ATTEMPTS - 7 * r.interval) * MS_PER_DAY
    else (DaysBeforeYear(d.year + 85 * r.interval) - 1) * MS_PER_DAY
  }

  /** The time from which it is sure to find nothing. */
  function EndOfSearch(r: Recurrence, d: LocalDate): int {
    if r.frequency == Weekly then (DayNumber(d) + WEEKLY_ATTEMPTS + 2) * MS_PER_DAY
    else (DaysBeforeYear(d.year + 100 * r.interval + 1) + 1) * MS_PER_DAY
  }

  /** The attempt that looks at the anchor's date `k` intervals of years on. */
  lemma YearsOn(r: Recurrence, start: LocalDate, d: LocalDate, k: nat)
    requires AnchoredOn(r, start) && (r.frequency == Monthly || r.frequency == Yearly) && OnGrid(r, start, d) && ValidDate(d)
    requires 1 <= k <= 100 && ValidDate(LocalDate(d.year + k * r.interval, d.month, d.day))
    ensures var i := if r.frequency == Monthly then 12 * k - 1 else k - 1;
            i < (if r.frequency == Monthly then MONTHLY_ATTEMPTS else YEARLY_ATTEMPTS)
            && GridDate(r, start, d, i) == Some(LocalDate(d.year + k * r.interval, d.month, d.day))
  {
    hide DayNumber, ParseLocalDate, MonthLength, DaysInMonth, FormatLocalDate;
    var n := r.interval;
    var e := LocalDate(d.year + k * n, d.month, d.day);
    DaysInMonthIsLength(e.year, e.month);
    if r.frequency == Monthly {
      assert MonthIndex(d) + n + (12 * k - 1) * n == MonthIndex(e) by {
        assert (12 * k - 1) * n + n == 12 * (k * n);
      }
      assert MonthIndex(e) / 12 == e.year && MonthIndex(e) % 12 + 1 == e.month;
    } else {
      assert d.year + n + (k - 1) * n == e.year;
    }
  }

  /** A monthly or yearly rule has a next run for searches that begin up to 85 intervals of years after the slot. */
  lemma CalendarContinues(z: Zone, r: Recurrence, start: LocalDate, s: int, after: int)
    requires AnchoredOn(r, start) && (r.frequency == Monthly || r.frequency == Yearly)
    requires OnGrid(r, start, LocalDateAt(z, s)) && after <= Horizon(r, LocalDateAt(z, s))
    ensures NextRun(z, r, s, after).Some?
  {
    hide ZonedParts, DayNumber, ParseLocalDate, MonthLength, DaysInMonth, NextRun, FormatLocalDate, GridDate, CandidateAt,
         DaysBeforeYear, OnGrid, Searchable;
    var d, n := LocalDateAt(z, s), r.interval;
    ClockDate(z, s);
    var k := SameMonthInEvery16(d, n, 84);
    var e := LocalDate(d.year + k * n, d.month, d.day);
    YearsOn(r, start, d, k);
    CandidateIsNear(z, r, e);
    WithinItsYear(e);
    TimesAtMost(85, k, n);
    YearsAscend(d.year + 85 * n, e.year);
    assert DayNumber(e) >= DaysBeforeYear(d.year + 85 * n);
    SomeAttemptFires(z, r, start, s, after, if r.frequency == Monthly then 12 * k - 1 else k - 1);
  }

  /** A monthly rule has a next run up to the horizon: its 1200 attempts suffice for every positive interval. */
  lemma MonthlyContinues(z: Zone, r: Recurrence, start: LocalDate, s: int, after: int)
    requires AnchoredOn(r, start) && r.frequency == Monthly && OnGrid(r, start, LocalDateAt(z, s))
    requires after <= Horizon(r, LocalDateAt(z, s))
    ensures NextRun(z, r, s, after).Some?
  {
    hide *;
    CalendarContinues(z, r, start, s, after);
  }

  /** So has a yearly one: its 100 attempts suffice for every positive interval. */
  lemma YearlyContinues(z: Zone, r: Recurrence, start: LocalDate, s: int, after: int)
    requires AnchoredOn(r, start) && r.frequency == Yearly && OnGrid(r, start, LocalDateAt(z, s))
    requires after <= Horizon(r, LocalDateAt(z, s))
    ensures NextRun(z, r, s, after).Some?
  {
    hide *;
    CalendarContinues(z, r, start, s, after);
  }

  /** The first day from `day` on whose weekday is chosen. */
  lemma ChosenDayWithinAWeek(chosen: seq<int>, day: int) returns (q: nat)
    requires chosen != [] && forall w | w in chosen :: 0 <= w <= 6
    ensures q <= 6 && Weekday(day + q) in chosen
    ensures Weekday(day) in chosen ==> q == 0
  {
    if Weekday(day) in chosen {
      q := 0;
    } else {
      assert chosen[0] in chosen;
      q := (chosen[0] - Weekday(day)) % 7;
    }
  }

  lemma WeeklyCycleRepeats(r: Recurrence, start: LocalDate, day: int)
    requires r.interval >= 1 && InWeeklyCycle(r, start, day)
    ensures InWeeklyCycle(r, start, day + 7 * r.interval)
  {
    hide DayNumber, NormalizeWeekdays;
    var n := r.interval;
    var offset := day - DayNumber(start);
    assert (offset + 7 * n) / 7 == offset / 7 + n;
    WholeSteps(offset / 7, n, 1);
    assert Weekday(day + 7 * n) == Weekday(day);
  }

  lemma {:induction false} WeeklyCycleRepeatsOften(r: Recurrence, start: LocalDate, day: int, k: nat)
    requires r.interval >= 1 && InWeeklyCycle(r, start, day)
    ensures InWeeklyCycle(r, start, day + k * (7 * r.interval))
  {
    hide InWeeklyCycle;
    if k > 0 {
      WeeklyCycleRepeatsOften(r, start, day, k - 1);
      WeeklyCycleRepeats(r, start, day + (k - 1) * (7 * r.interval));
      assert day + (k - 1) * (7 * r.interval) + 7 * r.interval == day + k * (7 * r.interval);
    }
  }

  /** Up to 522 weeks a cycle day lies among the last interval of the 3660 days looked at, so a weekly rule has
      a next run up to the horizon. */
  lemma WeeklyContinues(z: Zone, r: Recurrence, start: LocalDate, s: int, after: int)
    requires AnchoredOn(r, start) && r.frequency == Weekly
    requires LocalDateAt(z, s) == start || OnGrid(r, start, LocalDateAt(z, s))
    requires r.interval <= 522 && after <= Horizon(r, LocalDateAt(z, s))
    ensures NextRun(z, r, s, after).Some?
  {
    hide ZonedParts, DayNumber, ParseLocalDate, NormalizeWeekdays, NextRun, InWeeklyCycle, CivilDate, CandidateAt;
    var d, n := LocalDateAt(z, s), r.interval;
    var chosen := NormalizeWeekdays(r.weekdays);
    ChosenAreWeekdays(r.weekdays);
    var q := ChosenDayWithinAWeek(chosen, DayNumber(d));
    CycleHolds(r, start, d, q);
    var step := 7 * n;
    var k := (WEEKLY_ATTEMPTS - q) / step;
    LastMultiple(WEEKLY_ATTEMPTS - q, step);
    WeeklyCycleRepeatsOften(r, start, DayNumber(d) + q, k);
    var day := DayNumber(d) + q + k * step;
    var i := q + k * step - 1;
    var e := CivilDate(day);
    assert GridDate(r, start, d, i) == Some(e) && DayNumber(e) == day;
    CandidateIsNear(z, r, e);
    SomeAttemptFires(z, r, start, s, after, i);
  }

  lemma LastMultiple(a: int, n: int)
    requires 1 <= n <= a
    ensures a / n >= 1 && a - n < (a / n) * n <= a
  {
    assert a == n * (a / n) + a % n;
  }

  lemma ChosenAreWeekdays(values: Option<seq<int>>)
    ensures forall w | w in NormalizeWeekdays(values) :: 0 <= w <= 6
  {
    hide WeekdaysFrom;
  }

  lemma CycleHolds(r: Recurrence, start: LocalDate, d: LocalDate, q: nat)
    requires AnchoredOn(r, start) && r.frequency == Weekly && q <= 6
    requires d == start || OnGrid(r, start, d)
    requires Weekday(DayNumber(d) + q) in NormalizeWeekdays(r.weekdays)
    requires Weekday(DayNumber(d)) in NormalizeWeekdays(r.weekdays) ==> q == 0
    ensures InWeeklyCycle(r, start, DayNumber(d) + q)
  {
    hide DayNumber, NormalizeWeekdays, ParseLocalDate;
  }

  /** An anchored series has a next run whenever it is asked for by the horizon of its slot; a daily one always
      has. A weekly one may need an interval of at most 522 weeks. */
  lemma SeriesContinues(z: Zone, r: Recurrence, start: LocalDate, s: int, after: int)
    requires AnchoredOn(r, start)
    requires LocalDateAt(z, s) == start || OnGrid(r, start, LocalDateAt(z, s))
    requires r.frequency == Weekly ==> r.interval <= 522
    requires r.frequency == Daily || after <= Horizon(r, LocalDateAt(z, s))
    ensures NextRun(z, r, s, after).Some?
  {
    hide NextRun, ZonedParts, ParseLocalDate, OnGrid, Horizon;
    if r.frequency != Weekly { StartIsOnGrid(r, start); }
    match r.frequency
    case Daily => NextRunIsFirstAfter(z, r, s, after);
    case Weekly => WeeklyContinues(z, r, start, s, after);
    case Monthly => MonthlyContinues(z, r, start, s, after);
    case Yearly => YearlyContinues(z, r, start, s, after);
  }

  /** A search that begins too late finds nothing, whatever the interval: every series but a daily one can end. */
  lemma LateSearchFindsNothing(z: Zone, r: Recurrence, start: LocalDate, s: int, after: int)
    requires AnchoredOn(r, start) && r.frequency != Daily
    requires LocalDateAt(z, s) == start || OnGrid(r, start, LocalDateAt(z, s))
    requires after >= EndOfSearch(r, LocalDateAt(z, s))
    ensures NextRun(z, r, s, after).None?
  {
    hide ZonedParts, DayNumber, ParseLocalDate, NextRun, GridDate, CandidateAt, DaysBeforeYear, OnGrid, Searchable;
    var d := LocalDateAt(z, s);
    ClockDate(z, s);
    if r.frequency != Weekly { StartIsOnGrid(r, start); }
    forall i: nat | i < Attempts(r, start, d, after) ensures !Fires(z, r, start, d, after, i) {
      if GridDate(r, start, d, i).Some? {
        var e := GridDate(r, start, d, i).value;
        LookedAtSoon(r, start, d, i);
        CandidateIsNear(z, r, e);
      }
    }
    NoAttemptFires(z, r, start, s, after);
  }

  lemma LookedAtSoon(r: Recurrence, start: LocalDate, d: LocalDate, i: nat)
    requires AnchoredOn(r, start) && r.frequency != Daily && ValidDate(d)
    requires r.frequency != Weekly ==> OnGrid(r, start, d)
    requires i < (match r.frequency case Monthly => MONTHLY_ATTEMPTS case Yearly => YEARLY_ATTEMPTS case _ => WEEKLY_ATTEMPTS)
    requires GridDate(r, start, d, i).Some?
    ensures var e := GridDate(r, start, d, i).value;
            DayNumber(e) <= if r.frequency == Weekly then DayNumber(d) + WEEKLY_ATTEMPTS
                            else DaysBeforeYear(d.year + 100 * r.interval + 1) - 1
  {
    hide DayNumber, CivilDate, ParseLocalDate, DaysInMonth, MonthLength, InWeeklyCycle, DaysBeforeYear, ValidDate;
    var e := GridDate(r, start, d, i).value;
    if r.frequency != Weekly {
      GridDateIsValid(r, start, d, i);
      WithinItsYear(e);
      YearLookedAt(r, start, d, i);
      YearsAscend(e.year + 1, d.year + 100 * r.interval + 1);
    }
  }

  lemma YearLookedAt(r: Recurrence, start: LocalDate, d: LocalDate, i: nat)
    requires AnchoredOn(r, start) && (r.frequency == Monthly || r.frequency == Yearly) && OnGrid(r, start, d)
    requires i < (if r.frequency == Monthly then MONTHLY_ATTEMPTS else YEARLY_ATTEMPTS)
    requires GridDate(r, start, d, i).Some?
    ensures GridDate(r, start, d, i).value.year <= d.year + 100 * r.interval
  {
    hide DayNumber, CivilDate, ParseLocalDate, DaysInMonth, MonthLength, FormatLocalDate;
    var n := r.interval;
    assert (i + 1) * n == i * n + n;
    if r.frequency == Monthly {
      TimesAtMost(i + 1, 1200, n);
      assert GridDate(r, start, d, i).value.year == (MonthIndex(d) + (i + 1) * n) / 12;
    } else {
      TimesAtMost(i + 1, 100, n);
    }
  }

  lemma TimesAtMost(a: int, b: int, n: int)
    requires a <= b && 0 <= n
    ensures a * n <= b * n
  {}

  /** Followed for any number of steps, each taken by the horizon of the slot before it, a series never ends. */
  lemma {:induction false} SeriesNeverEnds(z: Zone, r: Recurrence, start: LocalDate, at: int, afters: seq<int>)
    requires AnchoredOn(r, start) && LocalDateAt(z, at) == start && (r.frequency == Weekly ==> r.interval <= 522)
    requires forall n | 0 < n <= |afters| && SlotDate(z, r, at, afters[..n]).Some? ::
               ShowsItsDate(z, r, SlotDate(z, r, at, afters[..n]).value)
    requires forall n | 0 <= n < |afters| && Slot(z, r, at, afters[..n]).Some? ::
               r.frequency == Daily || afters[n] <= Horizon(r, LocalDateAt(z, Slot(z, r, at, afters[..n]).value))
    ensures Slot(z, r, at, afters).Some?
    decreases |afters|
  {
    hide NextRun, ZonedParts, CandidateAt, ParseLocalDate, Horizon, OnGrid, ShowsItsDate, SlotDate, Searchable;
    if afters != [] {
      var last := |afters| - 1;
      var earlier := afters[..last];
      forall n | 0 < n <= |earlier| && SlotDate(z, r, at, earlier[..n]).Some?
        ensures ShowsItsDate(z, r, SlotDate(z, r, at, earlier[..n]).value)
      {
        assert earlier[..n] == afters[..n];
      }
      forall n | 0 <= n < |earlier| && Slot(z, r, at, earlier[..n]).Some?
        ensures r.frequency == Daily || earlier[n] <= Horizon(r, LocalDateAt(z, Slot(z, r, at, earlier[..n]).value))
      {
        assert earlier[..n] == afters[..n];
      }
      SeriesNeverEnds(z, r, start, at, earlier);
      SeriesKeepsGrid(z, r, start, at, earlier);
      SeriesContinues(z, r, start, Slot(z, r, at, earlier).value, afters[last]);
    }
  }

  /** With the default weekday, that of the start, the grid days are whole intervals apart. */
  lemma SingleWeekdayGap(r: Recurrence, start: LocalDate, a: int, b: int)
    requires r.interval >= 1 && r.weekdays == Some([Weekday(DayNumber(start))])
    requires InWeeklyCycle(r, start, a) && InWeeklyCycle(r, start, b) && a < b
    ensures b - a >= 7 * r.interval
  {
    hide DayNumber;
    SingleWeekday(Weekday(DayNumber(start)));
    var s := DayNumber(start);
    SameWeekday(s, a);
    SameWeekday(s, b);
    SmallMultiples((b - s) / 7, (a - s) / 7, r.interval);
  }

  lemma SameWeekday(a: int, b: int)
    requires Weekday(a) == Weekday(b)
    ensures (b - a) % 7 == 0
  {}

  /** A weekly series on its start's own weekday has a next run if and only if the last whole number of intervals
      within the 3660 days looked at is positive and its day comes after the given time. */
  lemma WeeklySeriesContinuesIff(z: Zone, r: Recurrence, start: LocalDate, s: int, after: int)
    requires AnchoredOn(r, start) && r.frequency == Weekly
    requires r.weekdays == Some([Weekday(DayNumber(start))])
    requires OnGrid(r, start, LocalDateAt(z, s))
    ensures var k := WEEKLY_ATTEMPTS / (7 * r.interval);
            NextRun(z, r, s, after).Some? <==>
            k >= 1 && CandidateAt(z, r, CivilDate(DayNumber(LocalDateAt(z, s)) + k * (7 * r.interval))) > after
    ensures WEEKLY_ATTEMPTS / (7 * r.interval) >= 1 <==> r.interval <= 522
  {
    hide ZonedParts, DayNumber, ParseLocalDate, NormalizeWeekdays, NextRun, InWeeklyCycle, CivilDate, CandidateAt;
    var d, step := LocalDateAt(z, s), 7 * r.interval;
    var day := DayNumber(d);
    var k := WEEKLY_ATTEMPTS / step;
    WholeIntervals(r.interval);
    WeeklyCycleRepeatsOften(r, start, day, k);
    forall i: nat | i < WEEKLY_ATTEMPTS && GridDate(r, start, d, i).Some? && k * step <= i ensures false {
      SingleWeekdayGap(r, start, day + k * step, day + 1 + i);
    }
    if k == 0 {
      forall i: nat | i < WEEKLY_ATTEMPTS ensures !Fires(z, r, start, d, after, i) {}
      NoAttemptFires(z, r, start, s, after);
    } else {
      var i := k * step - 1;
      assert GridDate(r, start, d, i) == Some(CivilDate(day + k * step));
      LastAttemptIsLast(r, start, d, WEEKLY_ATTEMPTS);
      assert LastAttempt(r, start, d, WEEKLY_ATTEMPTS) == Some(i);
      assert GridDate(r, start, d, i - 1).None? by {
        if GridDate(r, start, d, i - 1).Some? { SingleWeekdayGap(r, start, day + i, day + i + 1); }
      }
      ContinuesIff(z, r, start, s, after);
    }
  }

  lemma WholeIntervals(interval: int)
    requires interval >= 1
    ensures var step, k := 7 * interval, WEEKLY_ATTEMPTS / (7 * interval);
            k >= 0 && k * step <= WEEKLY_ATTEMPTS < k * step + step
            && (k >= 1 <==> interval <= 522) && (k >= 1 ==> k * step >= 7)
  {
    var step := 7 * interval;
    if interval <= 522 {
      LastMultiple(WEEKLY_ATTEMPTS, step);
      TimesAtMost(1, WEEKLY_ATTEMPTS / step, step);
    } else {
      SmallQuotient(WEEKLY_ATTEMPTS, step);
    }
  }

  lemma SmallQuotient(a: int, n: int)
    requires 0 <= a < n
    ensures a / n == 0
  {}
}
