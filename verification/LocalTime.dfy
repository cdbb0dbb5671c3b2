/** Wall-clock time in a named time zone, and the search for the instant that shows a given
    local date and time. A zone is its offset in milliseconds as a function of the instant. */
module LocalTime {
  import opened Calendar

  /** What every IANA zone keeps: offsets under a day, in whole seconds. */
  ghost predicate IsOffset(z: int -> int) {
    forall t :: -MS_PER_DAY < z(t) < MS_PER_DAY && z(t) % 1000 == 0
  }

  type Zone = z: int -> int | IsOffset(z) witness (t: int) => 0

  datatype Parts = Parts(date: LocalDate, hour: int, minute: int, second: int)

  function Utc(date: LocalDate, hour: int, minute: int, second: int): int {
    DayNumber(date) * MS_PER_DAY + hour * 3_600_000 + minute * 60_000 + second * 1000
  }

  /** The milliseconds a zone's clock shows at an instant, counted as if it were UTC. */
  function WallClock(z: Zone, t: int): int {
    t + z(t)
  }

  function ZonedParts(z: Zone, t: int): Parts {
    var clock := WallClock(z, t);
    var ms := clock % MS_PER_DAY;
    Parts(CivilDate(clock / MS_PER_DAY), ms / 3_600_000, ms / 60_000 % 60, ms / 1000 % 60)
  }

  function LocalDateAt(z: Zone, t: int): LocalDate {
    ZonedParts(z, t).date
  }

  /** The offset as the formatter reveals it: the parts have no milliseconds. */
  function OffsetAt(z: Zone, t: int): int {
    var p := ZonedParts(z, t);
    Utc(p.date, p.hour, p.minute, p.second) - t
  }

  lemma OffsetDropsMilliseconds(z: Zone, t: int)
    ensures OffsetAt(z, t) == z(t) - WallClock(z, t) % 1000
  {
    var ms := WallClock(z, t) % MS_PER_DAY;
    assert ms / 60_000 == 60 * (ms / 3_600_000) + ms / 60_000 % 60;
    assert ms / 1000 == 60 * (ms / 60_000) + ms / 1000 % 60;
    assert ms % 1000 == WallClock(z, t) % 1000;
  }

  lemma OffsetOnSeconds(z: Zone, t: int)
    requires t % 1000 == 0
    ensures OffsetAt(z, t) == z(t)
  {
    hide OffsetAt;
    OffsetDropsMilliseconds(z, t);
  }

  lemma SplitClock(day: int, hour: int, minute: int, clock: int)
    requires 0 <= hour < 24 && 0 <= minute < 60
    requires clock == day * MS_PER_DAY + hour * 3_600_000 + minute * 60_000
    ensures clock / MS_PER_DAY == day
    ensures clock % MS_PER_DAY == hour * 3_600_000 + minute * 60_000
  {}

  lemma SplitDay(hour: int, minute: int)
    requires 0 <= hour < 24 && 0 <= minute < 60
    ensures var ms := hour * 3_600_000 + minute * 60_000;
            ms / 3_600_000 == hour && ms / 60_000 % 60 == minute && ms / 1000 % 60 == 0
  {
    var ms := hour * 3_600_000 + minute * 60_000;
    assert ms / 60_000 == hour * 60 + minute;
    assert ms / 1000 == (hour * 60 + minute) * 60;
  }

  /** The clock at an instant shows exactly a valid date and an in-range time. */
  lemma ClockShows(z: Zone, t: int, date: LocalDate, hour: int, minute: int)
    requires ValidDate(date) && 0 <= hour < 24 && 0 <= minute < 60
    ensures WallClock(z, t) == Utc(date, hour, minute, 0)
            ==> ZonedParts(z, t) == Parts(date, hour, minute, 0)
  {
    hide DayNumber, CivilDate;
    if WallClock(z, t) == Utc(date, hour, minute, 0) {
      SplitClock(DayNumber(date), hour, minute, WallClock(z, t));
      SplitDay(hour, minute);
      CivilRoundTrip(date);
    }
  }

  lemma ClockDate(z: Zone, t: int)
    ensures DayNumber(LocalDateAt(z, t)) * MS_PER_DAY <= WallClock(z, t)
            < DayNumber(LocalDateAt(z, t)) * MS_PER_DAY + MS_PER_DAY
    ensures ValidDate(LocalDateAt(z, t))
    ensures var p := ZonedParts(z, t); 0 <= p.hour < 24 && 0 <= p.minute < 60
  {}

  /** At most `rounds` corrections of a guessed instant, stopping early at a fixpoint. */
  function Settle(z: Zone, wanted: int, t: int, rounds: nat): int
    decreases rounds
  {
    if rounds == 0 then t
    else
      var next := wanted - OffsetAt(z, t);
      if next == t then t else Settle(z, wanted, next, rounds - 1)
  }

  /** The instant chosen for a clock reading, itself given as if it were UTC. */
  function Resolve(z: Zone, wanted: int): int {
    Settle(z, wanted, wanted - OffsetAt(z, wanted), 3)
  }

  function ToInstant(z: Zone, date: LocalDate, hour: int, minute: int): int {
    Resolve(z, Utc(date, hour, minute, 0))
  }

  /** The conversion loop, as the program runs it. */
  method LocalDateTimeToTimestamp(z: Zone, date: LocalDate, hour: int, minute: int) returns (timestamp: int)
    ensures timestamp == ToInstant(z, date, hour, minute)
  {
    hide OffsetAt;
    var localAsUtc := Utc(date, hour, minute, 0);
    timestamp := localAsUtc - OffsetAt(z, localAsUtc);
    var index := 0;
    while index < 3
      invariant 0 <= index <= 3
      invariant Resolve(z, localAsUtc) == Settle(z, localAsUtc, timestamp, 3 - index)
    {
      var next := localAsUtc - OffsetAt(z, timestamp);
      if next == timestamp {
        break;
      }
      timestamp := next;
      index := index + 1;
    }
  }

  // ---------- what the loop returns ----------

  lemma UtcIsWholeSeconds(date: LocalDate, hour: int, minute: int)
    ensures Utc(date, hour, minute, 0) % 1000 == 0
  {
    hide DayNumber;
    var seconds := DayNumber(date) * 86_400 + hour * 3600 + minute * 60;
    assert Utc(date, hour, minute, 0) == seconds * 1000;
    assert (seconds * 1000) % 1000 == 0;
  }

  /** Every guess is the wanted clock reading less some offset of the zone. */
  lemma {:induction false} SettleStaysNear(z: Zone, wanted: int, t: int, rounds: nat)
    requires wanted % 1000 == 0
    requires t % 1000 == 0 && wanted - MS_PER_DAY < t < wanted + MS_PER_DAY
    ensures var r := Settle(z, wanted, t, rounds);
            r % 1000 == 0 && wanted - MS_PER_DAY < r < wanted + MS_PER_DAY
    decreases rounds
  {
    hide OffsetAt;
    OffsetOnSeconds(z, t);
    if rounds > 0 { SettleStaysNear(z, wanted, wanted - z(t), rounds - 1); }
  }

  /** The chosen instant is less than a day from the reading taken as UTC. */
  lemma ResolvedIsNear(z: Zone, wanted: int)
    requires wanted % 1000 == 0
    ensures var r := Resolve(z, wanted);
            r % 1000 == 0 && wanted - MS_PER_DAY < r < wanted + MS_PER_DAY
  {
    hide OffsetAt;
    OffsetOnSeconds(z, wanted);
    SettleStaysNear(z, wanted, wanted - z(wanted), 3);
  }

  /** The next guess after `t` for a clock reading. */
  function Corrected(z: Zone, wanted: int, t: int): int {
    wanted - z(t)
  }

  /** The rounds correct the reading taken as UTC exactly four times in any zone: stopping early changes nothing. */
  lemma FourCorrections(z: Zone, wanted: int)
    requires wanted % 1000 == 0
    ensures Resolve(z, wanted) ==
            Corrected(z, wanted, Corrected(z, wanted, Corrected(z, wanted, Corrected(z, wanted, wanted))))
  {
    hide OffsetAt;
    var t0 := Corrected(z, wanted, wanted);
    var t1 := Corrected(z, wanted, t0);
    var t2 := Corrected(z, wanted, t1);
    OffsetOnSeconds(z, wanted);
    OffsetOnSeconds(z, t0);
    OffsetOnSeconds(z, t1);
    OffsetOnSeconds(z, t2);
    assert Settle(z, wanted, t2, 1) == Corrected(z, wanted, t2);
    assert Settle(z, wanted, t1, 2) == Corrected(z, wanted, t2);
    assert Settle(z, wanted, t0, 3) == Corrected(z, wanted, t2);
  }

  /** A fixpoint is exactly an instant at which the zone's clock shows the requested date and time. */
  lemma FixpointShowsRequest(z: Zone, date: LocalDate, hour: int, minute: int)
    requires ValidDate(date) && 0 <= hour < 24 && 0 <= minute < 60
    ensures var w, r := Utc(date, hour, minute, 0), ToInstant(z, date, hour, minute);
            (w - OffsetAt(z, r) == r <==> ZonedParts(z, r) == Parts(date, hour, minute, 0))
            && (WallClock(z, r) == w <==> ZonedParts(z, r) == Parts(date, hour, minute, 0))
  {
    hide Utc, ZonedParts, Resolve;
    var w := Utc(date, hour, minute, 0);
    var r := Resolve(z, w);
    UtcIsWholeSeconds(date, hour, minute);
    ResolvedIsNear(z, w);
    OffsetOnSeconds(z, r);
    ClockShows(z, r, date, hour, minute);
  }

  /** Within a day of a clock reading the offset changes at most once, at `change`, from `before` to `after`. */
  ghost predicate OneChangeNear(z: Zone, wanted: int, change: int, before: int, after: int) {
    forall t | wanted - MS_PER_DAY < t < wanted + MS_PER_DAY :: z(t) == if t < change then before else after
  }

  /** Some instant shows the clock reading: it is not skipped by a change of offset. */
  ghost predicate Exists(z: Zone, wanted: int) {
    exists t :: WallClock(z, t) == wanted
  }

  lemma ExistsNearOneChange(z: Zone, wanted: int, change: int, before: int, after: int)
    requires OneChangeNear(z, wanted, change, before, after)
    ensures Exists(z, wanted) <==>
            (wanted - before < change && z(wanted - before) == before)
            || (change <= wanted - after && z(wanted - after) == after)
  {
    if Exists(z, wanted) {
      var t :| WallClock(z, t) == wanted;
      assert -MS_PER_DAY < z(t) < MS_PER_DAY;
    }
    if wanted - before < change && z(wanted - before) == before {
      assert WallClock(z, wanted - before) == wanted;
    }
    if change <= wanted - after && z(wanted - after) == after {
      assert WallClock(z, wanted - after) == wanted;
    }
  }

  /** The rounds, written out for a zone whose offset changes at most once nearby. */
  lemma RoundsNearOneChange(z: Zone, wanted: int, change: int, before: int, after: int)
    requires wanted % 1000 == 0
    requires OneChangeNear(z, wanted, change, before, after)
    ensures var first := wanted - z(wanted);
            var second := wanted - z(first);
            z(wanted) == (if wanted < change then before else after)
            && z(first) == (if first < change then before else after)
            && z(second) == (if second < change then before else after)
            && Resolve(z, wanted) ==
               if second == first then first else second
  {
    hide OffsetAt;
    var first := wanted - z(wanted);
    var second := wanted - z(first);
    var third := wanted - z(second);
    OffsetOnSeconds(z, wanted);
    OffsetOnSeconds(z, first);
    OffsetOnSeconds(z, second);
    assert third == first || third == second;
    assert Settle(z, wanted, first, 3) == if second == first then first else Settle(z, wanted, second, 2);
    assert Settle(z, wanted, second, 2) == if third == second then second else Settle(z, wanted, third, 1);
    OffsetOnSeconds(z, third);
    assert Settle(z, wanted, third, 1) == wanted - z(third);
  }

  /** With at most one offset change nearby, the conversion shows exactly the requested reading
      if and only if some instant shows it at all. */
  lemma ExactIffLocalTimeExists(z: Zone, wanted: int, change: int, before: int, after: int)
    requires wanted % 1000 == 0
    requires OneChangeNear(z, wanted, change, before, after)
    ensures WallClock(z, Resolve(z, wanted)) == wanted <==> Exists(z, wanted)
  {
    hide Resolve;
    RoundsNearOneChange(z, wanted, change, before, after);
    ExistsNearOneChange(z, wanted, change, before, after);
  }

  /** A skipped reading is displaced by exactly the size of the gap: forwards when the reading,
      taken as UTC, is already past the change, and backwards otherwise. */
  lemma SkippedTimeMovesByTheGap(z: Zone, wanted: int, change: int, before: int, after: int)
    requires wanted % 1000 == 0
    requires OneChangeNear(z, wanted, change, before, after)
    requires !Exists(z, wanted)
    ensures before < after
    ensures WallClock(z, Resolve(z, wanted)) ==
            if wanted < change then wanted - (after - before) else wanted + (after - before)
  {
    hide Resolve;
    RoundsNearOneChange(z, wanted, change, before, after);
    ExistsNearOneChange(z, wanted, change, before, after);
  }

  /** A reading shown twice resolves to its first occurrence when the reading, taken as UTC,
      precedes the change, and to its second otherwise. */
  lemma RepeatedTimeChoice(z: Zone, wanted: int, change: int, before: int, after: int)
    requires wanted % 1000 == 0
    requires OneChangeNear(z, wanted, change, before, after)
    requires wanted - before < change <= wanted - after
    ensures Resolve(z, wanted) == if wanted < change then wanted - before else wanted - after
  {
    hide Resolve;
    RoundsNearOneChange(z, wanted, change, before, after);
  }
}
