/** The calendar against its epoch: the first weekday, the starts of the months, and the count of days. */
module CalendarLaws {
  import opened Calendar

  /** Day 0 is 1 January 1970, a Thursday, so 4 January was a Sunday; and weekdays follow one another. */
  lemma WeekdaysFromTheEpoch(n: int)
    ensures forall d: LocalDate | d.year == 1970 && d.month == 1 :: DayNumber(d) == d.day - 1
    ensures Weekday(0) == 4 && Weekday(3) == 0
    ensures 0 <= Weekday(n) <= 6 && Weekday(n + 1) == if Weekday(n) == 6 then 0 else Weekday(n) + 1
    ensures (n - 3 - Weekday(n)) % 7 == 0
  {
    hide DayNumber, DaysBeforeYear, DaysBeforeMonth;
    EpochYear();
    FirstMonth(1970);
    forall d: LocalDate | d.year == 1970 && d.month == 1 ensures DayNumber(d) == d.day - 1 {
      InItsMonth(1970, 1, d.day);
    }
  }

  lemma EpochYear()
    ensures DaysBeforeYear(1970) == 0
  {}

  /** The days before each month: in a common year those of section 21.4.1 of ECMA-262, and one more after February
      in a leap year. */
  lemma {:induction false} MonthStarts(y: int, m: int)
    requires 1 <= m <= 12
    ensures DaysBeforeMonth(y, m) ==
            [0, 31, 59, 90, 120, 151, 181, 212, 243, 273, 304, 334][m - 1] + if m > 2 && Leap(y) then 1 else 0
    decreases m
  {
    hide Leap;
    if m > 1 { MonthStarts(y, m - 1); }
  }

  /** Adding days counts day numbers, across months and years. */
  lemma AddDaysCounts(d: LocalDate, days: int)
    ensures ValidDate(AddDays(d, days)) && DayNumber(AddDays(d, days)) == DayNumber(d) + days
  {
    hide CivilDate, DayNumber;
  }
}
