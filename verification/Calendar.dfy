/** The proleptic Gregorian calendar behind `Date.UTC` and the `getUTC*` accessors
    (section 21.4.1 of ECMA-262), and the `YYYY-MM-DD` text of a recurrence's start date. */
module Calendar {
  import opened Wrappers

  const MS_PER_DAY := 86_400_000

  /** A calendar date. `Date.UTC` also accepts a month or a day outside its usual range. */
  datatype LocalDate = LocalDate(year: int, month: int, day: int)

  predicate Leap(y: int) {
    y % 4 == 0 && (y % 100 != 0 || y % 400 == 0)
  }

  function YearLength(y: int): int {
    if Leap(y) then 366 else 365
  }

  /** DayFromYear of ECMA-262: the day number of 1 January. Day 0 is 1 January 1970. */
  function DaysBeforeYear(y: int): int {
    365 * (y - 1970) + (y - 1969) / 4 - (y - 1901) / 100 + (y - 1601) / 400
  }

  lemma FourthsStep(y: int)
    ensures (y - 1968) / 4 - (y - 1969) / 4 == if y % 4 == 0 then 1 else 0
  {}

  lemma CenturiesStep(y: int)
    ensures (y - 1900) / 100 - (y - 1901) / 100 == if y % 100 == 0 then 1 else 0
  {}

  lemma FourCenturiesStep(y: int)
    ensures (y - 1600) / 400 - (y - 1601) / 400 == if y % 400 == 0 then 1 else 0
  {}

  lemma CenturiesAreFourths(y: int)
    ensures y % 400 == 0 ==> y % 100 == 0 && y % 4 == 0
    ensures y % 100 == 0 ==> y % 4 == 0
  {
    assert y == 400 * (y / 400) + y % 400 && y == 100 * (y / 100) + y % 100;
  }

  lemma YearStep(y: int)
    ensures DaysBeforeYear(y + 1) == DaysBeforeYear(y) + YearLength(y)
  {
    FourthsStep(y);
    CenturiesStep(y);
    FourCenturiesStep(y);
    CenturiesAreFourths(y);
  }

  lemma {:induction false} YearsAscend(y: int, z: int)
    requires y <= z
    ensures DaysBeforeYear(y) + 365 * (z - y) <= DaysBeforeYear(z) <= DaysBeforeYear(y) + 366 * (z - y)
    decreases z - y
  {
    if y < z {
      YearStep(y);
      YearsAscend(y + 1, z);
    }
  }

  function MonthLength(y: int, m: int): int
    requires 1 <= m <= 12
  {
    if m == 2 then if Leap(y) then 29 else 28
    else if m == 4 || m == 6 || m == 9 || m == 11 then 30
    else 31
  }

  function DaysBeforeMonth(y: int, m: int): int
    requires 1 <= m <= 12
  {
    if m == 1 then 0 else DaysBeforeMonth(y, m - 1) + MonthLength(y, m - 1)
  }

  lemma YearIsItsMonths(y: int)
    ensures DaysBeforeMonth(y, 12) + 31 == YearLength(y)
    ensures forall m | 1 <= m <= 12 :: 28 * (m - 1) <= DaysBeforeMonth(y, m)
    ensures forall m | 1 <= m <= 11 :: DaysBeforeMonth(y, m + 1) == DaysBeforeMonth(y, m) + MonthLength(y, m)
  {
    assert DaysBeforeMonth(y, 2) == 31;
    assert DaysBeforeMonth(y, 3) == 31 + MonthLength(y, 2);
    assert DaysBeforeMonth(y, 4) == 62 + MonthLength(y, 2);
    assert DaysBeforeMonth(y, 5) == 92 + MonthLength(y, 2);
    assert DaysBeforeMonth(y, 6) == 123 + MonthLength(y, 2);
    assert DaysBeforeMonth(y, 7) == 153 + MonthLength(y, 2);
    assert DaysBeforeMonth(y, 8) == 184 + MonthLength(y, 2);
    assert DaysBeforeMonth(y, 9) == 215 + MonthLength(y, 2);
    assert DaysBeforeMonth(y, 10) == 245 + MonthLength(y, 2);
    assert DaysBeforeMonth(y, 11) == 276 + MonthLength(y, 2);
  }

  predicate ValidDate(d: LocalDate) {
    1 <= d.month <= 12 && 1 <= d.day <= MonthLength(d.year, d.month)
  }

  /** MakeDay of ECMA-262, with a zero-based month that may overflow into other years. */
  function MakeDay(year: int, monthIndex: int, day: int): int {
    var y := year + monthIndex / 12;
    DaysBeforeYear(y) + DaysBeforeMonth(y, monthIndex % 12 + 1) + day - 1
  }

  function DayNumber(d: LocalDate): int {
    MakeDay(d.year, d.month - 1, d.day)
  }

  lemma LongerYears(y: int)
    ensures DaysBeforeYear(y) < DaysBeforeYear(y + 1) == DaysBeforeYear(y) + YearLength(y)
  {
    YearStep(y);
  }

  /** The year of a day number: climbs from a year known not to be later. */
  function YearFrom(n: int, y: int): (r: int)
    requires DaysBeforeYear(y) <= n
    ensures DaysBeforeYear(r) <= n < DaysBeforeYear(r + 1)
    decreases n - DaysBeforeYear(y)
  {
    hide DaysBeforeYear, YearLength;
    LongerYears(y);
    if n < DaysBeforeYear(y + 1) then y else YearFrom(n, y + 1)
  }

  function YearOf(n: int): (r: int)
    ensures DaysBeforeYear(r) <= n < DaysBeforeYear(r + 1)
  {
    var y := if n >= 0 then 1970 + n / 366 else 1970 + n / 365;
    assert DaysBeforeYear(y) <= n by {
      if n >= 0 { YearsAscend(1970, y); } else { YearsAscend(y, 1970); }
    }
    YearFrom(n, y)
  }

  function MonthFrom(y: int, offset: int, m: int): (r: int)
    requires 1 <= m <= 12
    requires DaysBeforeMonth(y, m) <= offset < YearLength(y)
    ensures 1 <= r <= 12
    ensures DaysBeforeMonth(y, r) <= offset < DaysBeforeMonth(y, r) + MonthLength(y, r)
    decreases 12 - m
  {
    YearIsItsMonths(y);
    if offset < DaysBeforeMonth(y, m) + MonthLength(y, m) then m else MonthFrom(y, offset, m + 1)
  }

  lemma InItsMonth(y: int, m: int, day: int)
    requires 1 <= m <= 12
    ensures DayNumber(LocalDate(y, m, day)) == DaysBeforeYear(y) + DaysBeforeMonth(y, m) + day - 1
  {
    hide DaysBeforeYear, DaysBeforeMonth;
    assert (m - 1) / 12 == 0 && (m - 1) % 12 == m - 1;
  }

  /** The date that `getUTCFullYear`, `getUTCMonth` and `getUTCDate` read off a day number. */
  function CivilDate(n: int): (d: LocalDate)
    ensures ValidDate(d)
    ensures DayNumber(d) == n
  {
    hide DaysBeforeYear, DaysBeforeMonth, YearLength, MonthLength, MakeDay, DayNumber;
    var y := YearOf(n);
    LongerYears(y);
    FirstMonth(y);
    var m := MonthFrom(y, n - DaysBeforeYear(y), 1);
    var day := n - DaysBeforeYear(y) - DaysBeforeMonth(y, m) + 1;
    InItsMonth(y, m, day);
    LocalDate(y, m, day)
  }

  lemma FirstMonth(y: int)
    ensures DaysBeforeMonth(y, 1) == 0
  {}

  predicate Before(a: LocalDate, b: LocalDate) {
    a.year < b.year || (a.year == b.year && (a.month < b.month || (a.month == b.month && a.day < b.day)))
  }

  lemma {:induction false} MonthsAscend(y: int, m: int, k: int)
    requires 1 <= m < k <= 12
    ensures DaysBeforeMonth(y, m) + MonthLength(y, m) <= DaysBeforeMonth(y, k)
    decreases k
  {
    if m + 1 < k { MonthsAscend(y, m, k - 1); }
  }

  /** Day numbers list the valid dates in calendar order, so each date has its own. */
  lemma DayNumberOrders(a: LocalDate, b: LocalDate)
    requires ValidDate(a) && ValidDate(b)
    ensures DayNumber(a) < DayNumber(b) <==> Before(a, b)
    ensures DayNumber(a) == DayNumber(b) <==> a == b
  {
    if Before(a, b) { BeforeHasLowerNumber(a, b); }
    if Before(b, a) { BeforeHasLowerNumber(b, a); }
  }

  lemma WithinItsYear(d: LocalDate)
    requires ValidDate(d)
    ensures DayNumber(d) == DaysBeforeYear(d.year) + DaysBeforeMonth(d.year, d.month) + d.day - 1
    ensures DaysBeforeYear(d.year) <= DayNumber(d) < DaysBeforeYear(d.year + 1)
  {
    hide DaysBeforeYear, YearLength, MakeDay, DayNumber;
    InItsMonth(d.year, d.month, d.day);
    YearIsItsMonths(d.year);
    LongerYears(d.year);
    if d.month < 12 { MonthsAscend(d.year, d.month, 12); }
  }

  lemma BeforeHasLowerNumber(a: LocalDate, b: LocalDate)
    requires ValidDate(a) && ValidDate(b) && Before(a, b)
    ensures DayNumber(a) < DayNumber(b)
  {
    WithinItsYear(a);
    WithinItsYear(b);
    if a.year < b.year {
      YearsAscend(a.year + 1, b.year);
    } else if a.month < b.month {
      MonthsAscend(a.year, a.month, b.month);
    }
  }

  /** Reading back the day number of a valid date gives that date. */
  lemma CivilRoundTrip(d: LocalDate)
    requires ValidDate(d)
    ensures CivilDate(DayNumber(d)) == d
  {
    DayNumberOrders(CivilDate(DayNumber(d)), d);
  }

  function AddDays(d: LocalDate, days: int): LocalDate {
    CivilDate(DayNumber(d) + days)
  }

  /** Day 0 of the following month. */
  function DaysInMonth(year: int, month: int): int {
    CivilDate(MakeDay(year, month, 0)).day
  }

  /** Day 0 of the following month is the last day of the month, December included. */
  lemma DaysInMonthIsLength(y: int, m: int)
    requires 1 <= m <= 12
    ensures DaysInMonth(y, m) == MonthLength(y, m)
  {
    hide CivilDate, MakeDay, DayNumber, MonthLength;
    var last := LocalDate(y, m, MonthLength(y, m));
    assert ValidDate(last) by { MonthsAreNotEmpty(y, m); }
    if m == 12 { DayZeroOfNextYear(y); } else { DayZeroInYear(y, m); }
    CivilRoundTrip(last);
  }

  lemma MonthsAreNotEmpty(y: int, m: int)
    requires 1 <= m <= 12
    ensures 28 <= MonthLength(y, m) <= 31
  {}

  lemma DayZeroInYear(y: int, m: int)
    requires 1 <= m < 12
    ensures MakeDay(y, m, 0) == DayNumber(LocalDate(y, m, MonthLength(y, m)))
  {
    hide DaysBeforeYear, MonthLength;
    assert m / 12 == 0 && m % 12 == m;
    YearIsItsMonths(y);
    InItsMonth(y, m, MonthLength(y, m));
  }

  lemma DayZeroOfNextYear(y: int)
    ensures MakeDay(y, 12, 0) == DayNumber(LocalDate(y, 12, MonthLength(y, 12)))
  {
    hide DaysBeforeYear;
    assert 12 / 12 == 1 && 12 % 12 == 0;
    YearIsItsMonths(y);
    LongerYears(y);
    InItsMonth(y, 12, 31);
  }

  /** WeekDay of ECMA-262: 0 is Sunday. */
  function Weekday(n: int): int {
    (n + 4) % 7
  }

  // ---------- `YYYY-MM-DD` ----------

  function Digit(n: nat): char
    requires n < 10
  {
    '0' + n as char
  }

  predicate IsDigit(c: char) {
    '0' <= c <= '9'
  }

  function Decimal(n: nat): (s: string)
    ensures |s| > 0
    ensures forall i | 0 <= i < |s| :: IsDigit(s[i])
  {
    if n < 10 then [Digit(n)] else Decimal(n / 10) + [Digit(n % 10)]
  }

  function PadStart(s: string, width: nat): string
    decreases width - |s|
  {
    if |s| >= width then s else PadStart("0" + s, width)
  }

  predicate AllDigits(s: string) {
    forall i | 0 <= i < |s| :: IsDigit(s[i])
  }

  function Number(s: string): nat
    requires AllDigits(s)
  {
    if s == "" then 0 else 10 * Number(s[..|s| - 1]) + (s[|s| - 1] - '0') as nat
  }

  /** `String(n)`, with a sign for the years before year 0. */
  function Text(n: int): string {
    if n < 0 then "-" + Decimal(-n) else Decimal(n)
  }

  function FormatLocalDate(d: LocalDate): string {
    PadStart(Text(d.year), 4) + "-" + PadStart(Text(d.month), 2) + "-" + PadStart(Text(d.day), 2)
  }

  function ParseLocalDate(s: string): Option<LocalDate> {
    if |s| != 10 || s[4] != '-' || s[7] != '-'
       || !AllDigits(s[..4]) || !AllDigits(s[5..7]) || !AllDigits(s[8..]) then None
    else
      var d := LocalDate(Number(s[..4]), Number(s[5..7]), Number(s[8..]));
      if d.month < 1 || d.month > 12 || d.day < 1 || d.day > DaysInMonth(d.year, d.month) then None
      else Some(d)
  }

  lemma ParsedDateIsValid(s: string)
    ensures ParseLocalDate(s).Some? ==> ValidDate(ParseLocalDate(s).value)
  {
    hide DaysInMonth;
    if ParseLocalDate(s).Some? {
      var d := ParseLocalDate(s).value;
      DaysInMonthIsLength(d.year, d.month);
    }
  }

  lemma {:induction false} DecimalReads(n: nat)
    ensures AllDigits(Decimal(n)) && Number(Decimal(n)) == n
  {
    if n >= 10 {
      DecimalReads(n / 10);
      assert Decimal(n)[..|Decimal(n)| - 1] == Decimal(n / 10);
    }
  }

  lemma {:induction false} LeadingZero(s: string)
    requires AllDigits(s)
    ensures AllDigits("0" + s) && Number("0" + s) == Number(s)
  {
    var t := "0" + s;
    if s == "" {
      assert t[..0] == "";
    } else {
      LeadingZero(s[..|s| - 1]);
      assert t[..|t| - 1] == "0" + s[..|s| - 1];
    }
  }

  lemma {:induction false} PaddingKeepsNumber(s: string, width: nat)
    requires AllDigits(s)
    ensures AllDigits(PadStart(s, width)) && Number(PadStart(s, width)) == Number(s)
    ensures |PadStart(s, width)| == if |s| >= width then |s| else width
    decreases width - |s|
  {
    if |s| < width {
      LeadingZero(s);
      PaddingKeepsNumber("0" + s, width);
    }
  }

  lemma {:induction false} DecimalWidth(n: nat)
    ensures n < 100 ==> |Decimal(n)| <= 2
    ensures |Decimal(n)| <= 4 <==> n <= 9999
  {
    if n >= 10 { DecimalWidth(n / 10); if n >= 100 { DecimalWidth(n / 100); if n >= 1000 { DecimalWidth(n / 1000); } } }
  }

  lemma FieldReads(n: nat, width: nat)
    ensures var s := PadStart(Decimal(n), width);
            AllDigits(s) && Number(s) == n && |s| == if |Decimal(n)| >= width then |Decimal(n)| else width
  {
    DecimalReads(n);
    PaddingKeepsNumber(Decimal(n), width);
  }

  /** A valid date survives being written and read back exactly when its year has at most four digits. */
  lemma DateTextRoundTrip(d: LocalDate)
    requires ValidDate(d) && d.year >= 0
    ensures ParseLocalDate(FormatLocalDate(d)) == if d.year <= 9999 then Some(d) else None
  {
    var y, m, e := PadStart(Decimal(d.year), 4), PadStart(Decimal(d.month), 2), PadStart(Decimal(d.day), 2);
    DecimalWidth(d.year); DecimalWidth(d.month); DecimalWidth(d.day);
    FieldReads(d.year, 4); FieldReads(d.month, 2); FieldReads(d.day, 2);
    var s := FormatLocalDate(d);
    SplitDate(s, y, m, e);
    DaysInMonthIsLength(d.year, d.month);
  }

  lemma SplitDate(s: string, y: string, m: string, e: string)
    requires s == y + "-" + m + "-" + e && |m| == 2 && |e| == 2
    ensures |s| == |y| + 6
    ensures |y| == 4 ==> s[4] == '-' && s[7] == '-' && s[..4] == y && s[5..7] == m && s[8..] == e
  {
    if |y| == 4 {
      assert s[..4] == y;
      assert s[5..7] == m;
      assert s[8..] == e;
    }
  }
}
