/** Day arithmetic on the proleptic Gregorian calendar, counted in days from
    1970-01-01 (day 0), as ECMAScript's Date does. */
module Calendar {

  predicate IsLeap(y: int) {
    y % 4 == 0 && (y % 100 != 0 || y % 400 == 0)
  }

  function YearLength(y: int): int {
    if IsLeap(y) then 366 else 365
  }

  function MonthLength(y: int, m: int): int
    requires 1 <= m <= 12
  {
    if m == 2 then (if IsLeap(y) then 29 else 28)
    else if m == 4 || m == 6 || m == 9 || m == 11 then 30
    else 31
  }

  /** Days in the months of year `y` that precede month `m`. */
  function DaysBeforeMonth(y: int, m: int): int
    requires 1 <= m <= 13
  {
    if m == 1 then 0 else DaysBeforeMonth(y, m - 1) + MonthLength(y, m - 1)
  }

  /** The number of leap years before year `y`, counted from a fixed origin;
      only differences of it are meaningful. */
  function LeapsBefore(y: int): int {
    (y - 1) / 4 - (y - 1) / 100 + (y - 1) / 400
  }

  /** The day number of January 1st of year `y`. */
  function DaysBeforeYear(y: int): int {
    365 * (y - 1970) + LeapsBefore(y) - LeapsBefore(1970)
  }

  /** A calendar date: year, month 1-12, day of month. */
  datatype Civil = Civil(year: int, month: int, day: int)

  predicate ValidCivil(c: Civil) {
    1 <= c.month <= 12 && 1 <= c.day <= MonthLength(c.year, c.month)
  }

  /** The day number of a valid calendar date. */
  function DaysFromCivil(c: Civil): int
    requires ValidCivil(c)
  {
    DaysBeforeYear(c.year) + DaysBeforeMonth(c.year, c.month) + c.day - 1
  }

  // ---------------------------------------------------------------------------
  // Year and month lengths

  lemma DivStep(y: int, d: int)
    requires d == 4 || d == 100 || d == 400
    ensures y / d - (y - 1) / d == if y % d == 0 then 1 else 0
  {
    var q := y / d;
    var r := y % d;
    assert y == q * d + r;
    if r == 0 {
      assert y - 1 == (q - 1) * d + (d - 1);
    } else {
      assert y - 1 == q * d + (r - 1);
    }
  }

  /** Consecutive years are `YearLength` days apart. */
  lemma YearStep(y: int)
    ensures DaysBeforeYear(y + 1) == DaysBeforeYear(y) + YearLength(y)
  {
    DivStep(y, 4);
    DivStep(y, 100);
    DivStep(y, 400);
    assert y % 4 == 0 && y % 100 != 0 ==> y % 400 != 0 by {
      if y % 400 == 0 { assert y == (y / 400) * 400; assert y == (y / 400 * 4) * 100; }
    }
    assert y % 100 == 0 ==> y % 4 == 0 by {
      if y % 100 == 0 { assert y == (y / 100 * 25) * 4; }
    }
    assert y % 400 == 0 ==> y % 100 == 0 by {
      if y % 400 == 0 { assert y == (y / 400 * 4) * 100; }
    }
  }

  lemma MonthsFillYear(y: int)
    ensures DaysBeforeMonth(y, 13) == YearLength(y)
  {
    assert DaysBeforeMonth(y, 2) == 31;
    assert DaysBeforeMonth(y, 3) == 31 + MonthLength(y, 2);
    assert DaysBeforeMonth(y, 4) == DaysBeforeMonth(y, 3) + 31;
    assert DaysBeforeMonth(y, 5) == DaysBeforeMonth(y, 3) + 61;
    assert DaysBeforeMonth(y, 6) == DaysBeforeMonth(y, 3) + 92;
    assert DaysBeforeMonth(y, 7) == DaysBeforeMonth(y, 3) + 122;
    assert DaysBeforeMonth(y, 8) == DaysBeforeMonth(y, 3) + 153;
    assert DaysBeforeMonth(y, 9) == DaysBeforeMonth(y, 3) + 184;
    assert DaysBeforeMonth(y, 10) == DaysBeforeMonth(y, 3) + 214;
    assert DaysBeforeMonth(y, 11) == DaysBeforeMonth(y, 3) + 245;
    assert DaysBeforeMonth(y, 12) == DaysBeforeMonth(y, 3) + 275;
    assert DaysBeforeMonth(y, 13) == DaysBeforeMonth(y, 3) + 306;
  }

  lemma {:induction false} DaysBeforeMonthMonotone(y: int, a: int, b: int)
    requires 1 <= a <= b <= 13
    ensures DaysBeforeMonth(y, a) <= DaysBeforeMonth(y, b)
    ensures a < b ==> DaysBeforeMonth(y, a) + MonthLength(y, a) <= DaysBeforeMonth(y, b)
    decreases b - a
  {
    if a < b {
      DaysBeforeMonthMonotone(y, a, b - 1);
    }
  }

  /** Later years start later: day numbers of years are strictly increasing. */
  lemma {:induction false} DaysBeforeYearMonotone(a: int, b: int)
    requires a < b
    ensures DaysBeforeYear(a) + YearLength(a) <= DaysBeforeYear(b)
    decreases b - a
  {
    YearStep(a);
    if a + 1 < b {
      DaysBeforeYearMonotone(a + 1, b);
      YearStep(a + 1);
    }
  }

  // ---------------------------------------------------------------------------
  // From a day number back to a calendar date

  /** The year containing day `n`, searching downwards from `g`. */
  function SearchYearDown(n: int, g: int): (y: int)
    ensures y <= g && DaysBeforeYear(y) <= n
    decreases DaysBeforeYear(g) - n
  {
    if DaysBeforeYear(g) <= n then g
    else
      YearStep(g - 1);
      SearchYearDown(n, g - 1)
  }

  /** The year containing day `n`, searching upwards from a year that starts
      no later than `n`. */
  function SearchYearUp(n: int, g: int): (y: int)
    requires DaysBeforeYear(g) <= n
    ensures DaysBeforeYear(y) <= n < DaysBeforeYear(y + 1)
    decreases n - DaysBeforeYear(g)
  {
    YearStep(g);
    if n < DaysBeforeYear(g + 1) then g
    else SearchYearUp(n, g + 1)
  }

  /** The year in which day `n` falls. */
  function YearOf(n: int): (y: int)
    ensures DaysBeforeYear(y) <= n < DaysBeforeYear(y + 1)
  {
    SearchYearUp(n, SearchYearDown(n, 1970 + n / 366))
  }

  /** The month of year `y` in which day-of-year `d` (0-based) falls. */
  function MonthOf(y: int, d: int, m: int): (r: int)
    requires 1 <= m <= 12 && DaysBeforeMonth(y, m) <= d < YearLength(y)
    ensures m <= r <= 12
    ensures DaysBeforeMonth(y, r) <= d < DaysBeforeMonth(y, r) + MonthLength(y, r)
    decreases 12 - m
  {
    if d < DaysBeforeMonth(y, m) + MonthLength(y, m) then m
    else
      MonthsFillYear(y);
      DaysBeforeMonthMonotone(y, m + 1, 13);
      MonthOf(y, d, m + 1)
  }

  /** The calendar date of day number `n`: a valid date whose day number is `n`. */
  function CivilFromDays(n: int): (c: Civil)
    ensures ValidCivil(c) && DaysFromCivil(c) == n
  {
    var y := YearOf(n);
    YearStep(y);
    var d := n - DaysBeforeYear(y);
    var m := MonthOf(y, d, 1);
    Civil(y, m, d - DaysBeforeMonth(y, m) + 1)
  }

  /** Distinct valid dates have distinct day numbers. */
  lemma DaysFromCivilInjective(a: Civil, b: Civil)
    requires ValidCivil(a) && ValidCivil(b) && DaysFromCivil(a) == DaysFromCivil(b)
    ensures a == b
  {
    DayWithinYear(a);
    DayWithinYear(b);
    if a.year < b.year {
      DaysBeforeYearMonotone(a.year, b.year);
    } else if b.year < a.year {
      DaysBeforeYearMonotone(b.year, a.year);
    }
    assert a.year == b.year;
    if a.month < b.month {
      DaysBeforeMonthMonotone(a.year, a.month, b.month);
    } else if b.month < a.month {
      DaysBeforeMonthMonotone(a.year, b.month, a.month);
    }
  }

  lemma DayWithinYear(c: Civil)
    requires ValidCivil(c)
    ensures DaysBeforeYear(c.year) <= DaysFromCivil(c) < DaysBeforeYear(c.year) + YearLength(c.year)
  {
    MonthsFillYear(c.year);
    DaysBeforeMonthMonotone(c.year, 1, c.month);
    DaysBeforeMonthMonotone(c.year, c.month, 13);
  }

  /** Converting a valid date to its day number and back gives the same date. */
  lemma CivilRoundTrip(c: Civil)
    requires ValidCivil(c)
    ensures CivilFromDays(DaysFromCivil(c)) == c
  {
    DaysFromCivilInjective(CivilFromDays(DaysFromCivil(c)), c);
  }
}
