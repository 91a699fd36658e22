/** The proleptic Gregorian calendar that a JavaScript `Date` presents through
    `getFullYear`, `getMonth` and `getDate`, over a plain day count: day 0 is
    1 January of year 1, and every integer is a day. */
module Calendar {

  /** A calendar date; `month` runs 1..12 (JavaScript's `getMonth() + 1`). */
  datatype CivilDate = CivilDate(year: int, month: int, day: int)

  predicate IsLeapYear(y: int)
  {
    y % 4 == 0 && (y % 100 != 0 || y % 400 == 0)
  }

  function YearLength(y: int): nat
  {
    if IsLeapYear(y) then 366 else 365
  }

  function DaysInMonth(y: int, m: int): nat
    requires 1 <= m <= 12
  {
    if m == 2 then (if IsLeapYear(y) then 29 else 28)
    else if m == 4 || m == 6 || m == 9 || m == 11 then 30
    else 31
  }

  predicate Valid(c: CivilDate)
  {
    1 <= c.month <= 12 && 1 <= c.day <= DaysInMonth(c.year, c.month)
  }

  /** Days of year `y` before the first of month `m` (m = 13: the whole year) */
  function DaysBeforeMonth(y: int, m: int): nat
    requires 1 <= m <= 13
  {
    if m == 1 then 0 else DaysBeforeMonth(y, m - 1) + DaysInMonth(y, m - 1)
  }

  /** Days from 1 January of year 1 to 1 January of year `y` (negative before it) */
  function DaysBeforeYear(y: int): int
  {
    365 * (y - 1) + (y - 1) / 4 - (y - 1) / 100 + (y - 1) / 400
  }

  /** The day count of a calendar date */
  function Ordinal(c: CivilDate): int
    requires 1 <= c.month <= 12
  {
    DaysBeforeYear(c.year) + DaysBeforeMonth(c.year, c.month) + c.day - 1
  }

  /** The months of a year add up to the year */
  lemma MonthsFillYear(y: int)
    ensures DaysBeforeMonth(y, 13) == YearLength(y)
  {
    var feb := DaysInMonth(y, 2);
    assert DaysBeforeMonth(y, 2) == 31;
    assert DaysBeforeMonth(y, 3) == 31 + feb;
    assert DaysBeforeMonth(y, 4) == 62 + feb;
    assert DaysBeforeMonth(y, 5) == 92 + feb;
    assert DaysBeforeMonth(y, 6) == 123 + feb;
    assert DaysBeforeMonth(y, 7) == 153 + feb;
    assert DaysBeforeMonth(y, 8) == 184 + feb;
    assert DaysBeforeMonth(y, 9) == 215 + feb;
    assert DaysBeforeMonth(y, 10) == 245 + feb;
    assert DaysBeforeMonth(y, 11) == 276 + feb;
    assert DaysBeforeMonth(y, 12) == 306 + feb;
  }

  lemma {:induction false} DaysBeforeMonthMonotone(y: int, a: int, b: int)
    requires 1 <= a <= b <= 13
    ensures DaysBeforeMonth(y, a) <= DaysBeforeMonth(y, b)
  {
    if a < b {
      DaysBeforeMonthMonotone(y, a, b - 1);
    }
  }

  /** `(a + 1) / k` steps up by one exactly when `k` divides `a + 1` */
  lemma DivStep(a: int, k: int)
    requires k == 4 || k == 100 || k == 400
    ensures (a + 1) / k == a / k + (if (a + 1) % k == 0 then 1 else 0)
  {
  }

  /** A year adds its own length to the day count */
  lemma YearStep(y: int)
    ensures DaysBeforeYear(y + 1) == DaysBeforeYear(y) + YearLength(y)
  {
    DivStep(y - 1, 4);
    DivStep(y - 1, 100);
    DivStep(y - 1, 400);
  }

  lemma {:induction false} DaysBeforeYearMonotone(a: int, b: int)
    requires a <= b
    ensures DaysBeforeYear(a) + 365 * (b - a) <= DaysBeforeYear(b)
    decreases b - a
  {
    if a < b {
      DaysBeforeYearMonotone(a, b - 1);
      YearStep(b - 1);
    }
  }

  /** Four hundred years are 146097 days. */
  lemma CycleShift(y: int)
    ensures DaysBeforeYear(y - 400) == DaysBeforeYear(y) - 146097
  {
    var a := y - 1;
    assert (a - 400) / 4 == a / 4 - 100;
    assert (a - 400) / 100 == a / 100 - 4;
    assert (a - 400) / 400 == a / 400 - 1;
  }

  /** The year holding day `n`, searched upwards from year `y` */
  function FindYear(y: int, n: int): (r: int)
    requires DaysBeforeYear(y) <= n
    decreases n - DaysBeforeYear(y)
    ensures DaysBeforeYear(r) <= n < DaysBeforeYear(r + 1)
  {
    YearStep(y);
    if n < DaysBeforeYear(y + 1) then y else FindYear(y + 1, n)
  }

  /** The year holding day `n`: searched upwards from year 1, after moving a
      day before year 1 up by whole 400-year cycles */
  function YearOf(n: int): (r: int)
    decreases if n < 0 then -n else 0
    ensures DaysBeforeYear(r) <= n < DaysBeforeYear(r + 1)
  {
    if n >= 0 then FindYear(1, n)
    else
      var y := YearOf(n + 146097);
      CycleShift(y);
      CycleShift(y + 1);
      y - 400
  }

  /** The month holding day `k` of year `y`, searched upwards from month `m` */
  function FindMonth(y: int, m: int, k: int): (r: int)
    requires 1 <= m <= 12
    requires DaysBeforeMonth(y, m) <= k < YearLength(y)
    decreases 12 - m
    ensures m <= r <= 12
    ensures DaysBeforeMonth(y, r) <= k < DaysBeforeMonth(y, r + 1)
  {
    MonthsFillYear(y);
    if k < DaysBeforeMonth(y, m + 1) then m else FindMonth(y, m + 1, k)
  }

  /** The calendar date of day `n`: what the `Date` getters answer */
  function CivilOf(n: int): (c: CivilDate)
    ensures Valid(c) && Ordinal(c) == n
  {
    var y := YearOf(n);
    YearStep(y);
    var k := n - DaysBeforeYear(y);
    var m := FindMonth(y, 1, k);
    CivilDate(y, m, k - DaysBeforeMonth(y, m) + 1)
  }

  /** Moving to day `d` of the same month moves the day count by the difference. */
  lemma OrdinalSameMonth(c: CivilDate, d: int)
    requires Valid(c) && 1 <= d <= DaysInMonth(c.year, c.month)
    ensures Valid(CivilDate(c.year, c.month, d))
    ensures Ordinal(CivilDate(c.year, c.month, d)) == Ordinal(c) - c.day + d
  {
  }

  /** A valid date lies within its year's range of days */
  lemma OrdinalInYear(c: CivilDate)
    requires Valid(c)
    ensures DaysBeforeYear(c.year) <= Ordinal(c) < DaysBeforeYear(c.year + 1)
    ensures DaysBeforeMonth(c.year, c.month) <= Ordinal(c) - DaysBeforeYear(c.year) < DaysBeforeMonth(c.year, c.month + 1)
  {
    YearStep(c.year);
    MonthsFillYear(c.year);
    DaysBeforeMonthMonotone(c.year, c.month + 1, 13);
  }

  /** Distinct valid dates have distinct day counts. */
  lemma OrdinalInjective(a: CivilDate, b: CivilDate)
    requires Valid(a) && Valid(b) && Ordinal(a) == Ordinal(b)
    ensures a == b
  {
    SameYear(a, b);
    OrdinalInYear(a);
    OrdinalInYear(b);
    if a.month < b.month {
      DaysBeforeMonthMonotone(a.year, a.month + 1, b.month);
    } else if b.month < a.month {
      DaysBeforeMonthMonotone(a.year, b.month + 1, a.month);
    }
  }

  /** Valid dates with the same day count lie in the same year. */
  lemma SameYear(a: CivilDate, b: CivilDate)
    requires Valid(a) && Valid(b) && Ordinal(a) == Ordinal(b)
    ensures a.year == b.year
  {
    OrdinalInYear(a);
    OrdinalInYear(b);
    if a.year < b.year {
      DaysBeforeYearMonotone(a.year + 1, b.year);
    } else if b.year < a.year {
      DaysBeforeYearMonotone(b.year + 1, a.year);
    }
  }

  /** The two views of a day agree: the date of a date's day count is that date. */
  lemma CivilOfOrdinal(c: CivilDate)
    requires Valid(c)
    ensures CivilOf(Ordinal(c)) == c
  {
    OrdinalInjective(CivilOf(Ordinal(c)), c);
  }

  /** A valid date is the date of its own day count. */
  lemma DateOfDay(n: int, c: CivilDate)
    requires Valid(c) && Ordinal(c) == n
    ensures CivilOf(n) == c
  {
    CivilOfOrdinal(c);
  }

  /** The calendar's "next day", defined by month lengths alone */
  function NextDay(c: CivilDate): (r: CivilDate)
    requires Valid(c)
  {
    if c.day < DaysInMonth(c.year, c.month) then CivilDate(c.year, c.month, c.day + 1)
    else if c.month < 12 then CivilDate(c.year, c.month + 1, 1)
    else CivilDate(c.year + 1, 1, 1)
  }

  /** The calendar's next day is a valid date one day count later. */
  lemma NextDayOrdinal(c: CivilDate)
    requires Valid(c)
    ensures Valid(NextDay(c)) && Ordinal(NextDay(c)) == Ordinal(c) + 1
  {
    if c.day == DaysInMonth(c.year, c.month) && c.month == 12 {
      YearStep(c.year);
      MonthsFillYear(c.year);
    }
  }

  /** The day after day `n` is the calendar's next day after the date of `n`:
      month ends, year ends and 29 February all roll over as the calendar says. */
  lemma NextDayIsSuccessor(n: int)
    ensures CivilOf(n + 1) == NextDay(CivilOf(n))
  {
    var c := CivilOf(n);
    NextDayOrdinal(c);
    DateOfDay(n + 1, NextDay(c));
  }
}
