/** The Gregorian calendar as the date library counts it, and the two ways the code computes an age. */
module CivilDates {

  datatype Date = Date(year: nat, month: nat, day: nat)

  predicate IsLeap(y: nat) {
    y % 4 == 0 && (y % 100 != 0 || y % 400 == 0)
  }

  function DaysInMonth(y: nat, m: nat): nat
    requires 1 <= m <= 12
  {
    if m == 2 then (if IsLeap(y) then 29 else 28)
    else if m == 4 || m == 6 || m == 9 || m == 11 then 30
    else 31
  }

  predicate Valid(d: Date) {
    1 <= d.year && 1 <= d.month <= 12 && 1 <= d.day <= DaysInMonth(d.year, d.month)
  }

  function DaysBeforeYear(y: nat): nat
    requires y >= 1
  {
    (y - 1) * 365 + (y - 1) / 4 - (y - 1) / 100 + (y - 1) / 400
  }

  function DaysBeforeMonth(y: nat, m: nat): nat
    requires 1 <= m <= 12
  {
    if m == 1 then 0 else DaysBeforeMonth(y, m - 1) + DaysInMonth(y, m - 1)
  }

  /** Days since 1 January of year 1. */
  function Ordinal(d: Date): nat
    requires Valid(d)
  {
    DaysBeforeYear(d.year) + DaysBeforeMonth(d.year, d.month) + d.day - 1
  }

  predicate MonthDayBefore(a: Date, b: Date) {
    a.month < b.month || (a.month == b.month && a.day < b.day)
  }

  predicate Before(a: Date, b: Date) {
    a.year < b.year || (a.year == b.year && MonthDayBefore(a, b))
  }

  /** The age shown on profiles. */
  function Age(born: Date, today: Date): int {
    today.year - born.year - (if MonthDayBefore(today, born) then 1 else 0)
  }

  /** The age shown in the admin's user list. */
  function FastAge(born: Date, today: Date): int
    requires Valid(born) && Valid(today)
  {
    (Ordinal(today) - Ordinal(born)) / 365
  }

  // ---------- the calendar ----------

  lemma YearLength(y: nat)
    requires y >= 1
    ensures DaysBeforeYear(y + 1) == DaysBeforeYear(y) + (if IsLeap(y) then 366 else 365)
  {
    QuotientStep(y, 4);
    QuotientStep(y, 100);
    QuotientStep(y, 400);
    CenturiesNest(y);
  }

  lemma CenturiesNest(y: nat)
    ensures y % 400 == 0 ==> y % 100 == 0
    ensures y % 100 == 0 ==> y % 4 == 0
  {
    if y % 100 == 0 {
      assert y == 4 * (25 * (y / 100));
    }
    if y % 400 == 0 {
      assert y == 100 * (4 * (y / 400));
    }
  }

  lemma QuotientStep(y: nat, d: nat)
    requires y >= 1 && d in {4, 100, 400}
    ensures y / d == (y - 1) / d + (if y % d == 0 then 1 else 0)
  {
    if d == 4 {
      assert y / 4 == (y - 1) / 4 + (if y % 4 == 0 then 1 else 0);
    } else if d == 100 {
      assert y / 100 == (y - 1) / 100 + (if y % 100 == 0 then 1 else 0);
    } else {
      assert y / 400 == (y - 1) / 400 + (if y % 400 == 0 then 1 else 0);
    }
  }

  /** Days before a month of a leap year exceed those of a common year by one from March on. */
  lemma MonthTable(y: nat, m: nat)
    requires 1 <= m <= 12
    ensures DaysBeforeMonth(y, m) ==
            [0, 31, 59, 90, 120, 151, 181, 212, 243, 273, 304, 334][m - 1] + (if IsLeap(y) && m > 2 then 1 else 0)
  {
    assert DaysBeforeMonth(y, 1) == 0;
    assert DaysBeforeMonth(y, 2) == 31;
    assert DaysBeforeMonth(y, 3) == 31 + DaysInMonth(y, 2);
    var leap := if IsLeap(y) then 1 else 0;
    assert DaysBeforeMonth(y, 4) == 90 + leap;
    assert DaysBeforeMonth(y, 5) == 120 + leap;
    assert DaysBeforeMonth(y, 6) == 151 + leap;
    assert DaysBeforeMonth(y, 7) == 181 + leap;
    assert DaysBeforeMonth(y, 8) == 212 + leap;
    assert DaysBeforeMonth(y, 9) == 243 + leap;
    assert DaysBeforeMonth(y, 10) == 273 + leap;
    assert DaysBeforeMonth(y, 11) == 304 + leap;
    assert DaysBeforeMonth(y, 12) == 334 + leap;
  }

  function DayOfYear(d: Date): nat
    requires Valid(d)
  {
    DaysBeforeMonth(d.year, d.month) + d.day - 1
  }

  lemma DayOfYearInYear(d: Date)
    requires Valid(d)
    ensures DayOfYear(d) < (if IsLeap(d.year) then 366 else 365)
  {
    MonthTable(d.year, d.month);
  }

  lemma YearsApart(y: nat, n: nat)
    requires y >= 1
    ensures 365 * n + (if n >= 1 && IsLeap(y) then 1 else 0) <= DaysBeforeYear(y + n) - DaysBeforeYear(y) <= 365 * n + n / 4 + 1
  {
    YearsAreLong(y, n);
    YearsAreShort(y, n);
  }

  lemma {:induction false} YearsAreLong(y: nat, n: nat)
    requires y >= 1
    ensures DaysBeforeYear(y + n) >= DaysBeforeYear(y) + 365 * n + (if n >= 1 && IsLeap(y) then 1 else 0)
  {
    if n > 0 {
      YearsAreLong(y, n - 1);
      YearLength(y + n - 1);
    }
  }

  lemma YearsAreShort(y: nat, n: nat)
    requires y >= 1
    ensures DaysBeforeYear(y + n) <= DaysBeforeYear(y) + 365 * n + n / 4 + 1
  {
    CenturiesOnlyTake(y - 1, n);
  }

  /** Dropping three century leap days in four never adds days. */
  lemma CenturiesOnlyTake(x: nat, n: nat)
    ensures (x + n) / 400 - (x + n) / 100 <= x / 400 - x / 100
    ensures (x + n) / 4 - x / 4 <= n / 4 + 1
  {
    assert x / 400 == x / 100 / 4 && (x + n) / 400 == (x + n) / 100 / 4;
  }

  /** Ordinals order dates as calendars do, so different dates have different ordinals. */
  lemma OrdinalOrders(a: Date, b: Date)
    requires Valid(a) && Valid(b)
    ensures Before(a, b) <==> Ordinal(a) < Ordinal(b)
  {
    if a.year < b.year {
      OrdinalAcrossYears(a, b);
    } else if b.year < a.year {
      OrdinalAcrossYears(b, a);
    } else {
      MonthTable(a.year, a.month);
      MonthTable(b.year, b.month);
    }
  }

  lemma OrdinalAcrossYears(a: Date, b: Date)
    requires Valid(a) && Valid(b) && a.year < b.year
    ensures Ordinal(a) < Ordinal(b)
  {
    DayOfYearInYear(a);
    YearLength(a.year);
    YearsApart(a.year + 1, b.year - a.year - 1);
  }

  // ---------- the two ages ----------

  lemma AgeMonotone(born: Date, today: Date, later: Date)
    requires Valid(born) && Valid(today) && Valid(later) && Ordinal(today) <= Ordinal(later)
    ensures Age(born, today) <= Age(born, later)
  {
    OrdinalOrders(later, today);
  }

  /** In a year's time, the same day and month falls within one day of the same day of the year. */
  lemma DayOfYearOrder(a: Date, b: Date)
    requires Valid(a) && Valid(b)
    ensures MonthDayBefore(a, b) ==> DayOfYear(a) <= DayOfYear(b) + (if IsLeap(a.year) then 1 else 0)
    ensures !MonthDayBefore(a, b) ==> DayOfYear(a) >= DayOfYear(b) - (if IsLeap(b.year) then 1 else 0)
  {
    MonthTable(a.year, a.month);
    MonthTable(b.year, b.month);
  }

  /** Dividing days by 365 is never below the calendar age, and at most one above it for 1000 years. */
  lemma FastAgeWithinOne(born: Date, today: Date)
    requires Valid(born) && Valid(today) && Ordinal(born) <= Ordinal(today) && Age(born, today) <= 1000
    ensures Age(born, today) <= FastAge(born, today) <= Age(born, today) + 1
  {
    OrdinalOrders(today, born);
    var n := today.year - born.year;
    var days := Ordinal(today) - Ordinal(born);
    YearsApart(born.year, n);
    DayOfYearOrder(today, born);
    DayOfYearInYear(today);
    DayOfYearInYear(born);
    assert days == DaysBeforeYear(today.year) - DaysBeforeYear(born.year) + DayOfYear(today) - DayOfYear(born);
    if MonthDayBefore(today, born) {
      YearsApart(born.year, n - 1);
      YearLength(today.year - 1);
      assert days >= 365 * (n - 1);
      assert days < 365 * (n + 1);
    } else {
      assert days >= 365 * n;
      assert days < 365 * (n + 2);
    }
  }

  /** The leap years among the years before `y`. */
  function LeapYearsBefore(y: nat): nat
    requires y >= 1
  {
    if y == 1 then 0 else LeapYearsBefore(y - 1) + (if IsLeap(y - 1) then 1 else 0)
  }

  lemma {:induction false} YearsInDays(y: nat)
    requires y >= 1
    ensures DaysBeforeYear(y) == 365 * (y - 1) + LeapYearsBefore(y)
  {
    if y > 1 {
      YearsInDays(y - 1);
      YearLength(y - 1);
    } else {
      assert DaysBeforeYear(1) == 0;
    }
  }

  /** The 29ths of February before a date. */
  function LeapDaysBefore(d: Date): nat
    requires d.year >= 1
  {
    LeapYearsBefore(d.year) + (if IsLeap(d.year) && d.month > 2 then 1 else 0)
  }

  /** The birthday in a year: 1 March for those born on a 29 February that the year does not have. */
  function Birthday(born: Date, year: nat): Date {
    if born.month == 2 && born.day == 29 && !IsLeap(year) then Date(year, 3, 1) else Date(year, born.month, born.day)
  }

  /** From birth to a birthday there are 365 days a year and the leap days lived through. */
  lemma DaysToBirthday(born: Date, year: nat)
    requires Valid(born) && year >= born.year
    ensures var b := Birthday(born, year);
            Valid(b) && Ordinal(b) - Ordinal(born) == 365 * (year - born.year) + LeapDaysBefore(b) - LeapDaysBefore(born)
  {
    var b := Birthday(born, year);
    YearsInDays(born.year);
    YearsInDays(year);
    MonthTable(born.year, born.month);
    MonthTable(year, b.month);
  }

  lemma BirthdayIsValid(born: Date, year: nat)
    requires Valid(born) && year >= 1
    ensures Valid(Birthday(born, year))
  {
  }

  /** A date has the birthday of its year behind it, or is on it, exactly when its month and day say so. */
  lemma BirthdayReached(born: Date, today: Date)
    requires Valid(born) && Valid(today) && Valid(Birthday(born, today.year))
    ensures Ordinal(Birthday(born, today.year)) <= Ordinal(today) <==> !MonthDayBefore(today, born)
  {
    OrdinalOrders(today, Birthday(born, today.year));
  }

  /** The birthday of some year that is behind `today`, or today, while the next year's is ahead. */
  predicate IsLastBirthday(born: Date, last: Date, today: Date)
    requires Valid(born) && Valid(last) && Valid(today)
  {
    var next := Birthday(born, last.year + 1);
    last == Birthday(born, last.year) && Valid(next) && Ordinal(last) <= Ordinal(today) < Ordinal(next)
  }

  lemma LastBirthdayIn(born: Date, today: Date, year: nat)
    requires Valid(born) && Valid(today) && 1 <= year == today.year - (if MonthDayBefore(today, born) then 1 else 0)
    ensures Valid(Birthday(born, year)) && IsLastBirthday(born, Birthday(born, year), today)
  {
    BirthdayIsValid(born, year);
    BirthdayIsValid(born, year + 1);
    BirthdayReached(born, today);
    if year < today.year {
      OrdinalAcrossYears(Birthday(born, year), today);
    } else {
      OrdinalAcrossYears(today, Birthday(born, year + 1));
    }
  }

  /** The last birthday is that of the calendar age, and the way to it is 365 days a year and the leap days. */
  lemma LastBirthday(born: Date, today: Date) returns (last: Date)
    requires Valid(born) && Valid(today) && Ordinal(born) <= Ordinal(today)
    ensures Age(born, today) >= 0 && Valid(last) && IsLastBirthday(born, last, today)
    ensures Ordinal(last) == Ordinal(born) + 365 * Age(born, today) + LeapDaysBefore(last) - LeapDaysBefore(born)
  {
    AgeIsNotNegative(born, today);
    last := Birthday(born, born.year + Age(born, today));
    LastBirthdayIn(born, today, last.year);
    DaysToBirthday(born, last.year);
  }

  lemma AgeIsNotNegative(born: Date, today: Date)
    requires Valid(born) && Valid(today) && Ordinal(born) <= Ordinal(today)
    ensures Age(born, today) >= 0
  {
    OrdinalOrders(today, born);
  }

  lemma AheadByDays(age: nat, days: nat, since: nat, leapDays: int)
    requires days == 365 * age + leapDays + since && age <= days / 365 <= age + 1
    ensures days / 365 == age + 1 <==> since + leapDays >= 365
  {
  }

  /**
    The fast age is ahead of the calendar age exactly when the days since the last birthday and the leap days lived
    through up to it come to a year of 365 days.
   */
  lemma FastAgeAheadExactly(born: Date, today: Date) returns (last: Date)
    requires Valid(born) && Valid(today) && Ordinal(born) <= Ordinal(today) && Age(born, today) <= 1000
    ensures Valid(last) && IsLastBirthday(born, last, today)
    ensures FastAge(born, today) == Age(born, today) + 1 <==>
            Ordinal(today) - Ordinal(last) + LeapDaysBefore(last) - LeapDaysBefore(born) >= 365
  {
    last := LastBirthday(born, today);
    FastAgeWithinOne(born, today);
    AheadByDays(Age(born, today), Ordinal(today) - Ordinal(born), Ordinal(today) - Ordinal(last), LeapDaysBefore(last) - LeapDaysBefore(born));
  }

  /** The extra year is real: someone a day short of a birthday can already be shown a year older. */
  lemma FastAgeCanBeAhead()
    ensures var born, today := Date(1990, 6, 15), Date(2020, 6, 14);
            Valid(born) && Valid(today) && Age(born, today) == 29 && FastAge(born, today) == 30
  {
    MonthTable(1990, 6);
    MonthTable(2020, 6);
  }

  // ---------- months ----------

  /** The first day of the month numbered from January of year 1. */
  function MonthStart(m: nat): nat {
    DaysBeforeYear(m / 12 + 1) + DaysBeforeMonth(m / 12 + 1, m % 12 + 1)
  }

  predicate InMonth(day: nat, m: nat) {
    MonthStart(m) <= day < MonthStart(m + 1)
  }

  lemma MonthStartsRise(m: nat)
    ensures MonthStart(m) < MonthStart(m + 1)
  {
    var y := m / 12 + 1;
    MonthTable(y, m % 12 + 1);
    if m % 12 == 11 {
      assert (m + 1) / 12 + 1 == y + 1 && (m + 1) % 12 == 0;
      YearLength(y);
    } else {
      assert (m + 1) / 12 + 1 == y && (m + 1) % 12 == m % 12 + 1;
    }
  }

  predicate IsMonthStart(day: nat) {
    exists m: nat :: m <= day && MonthStart(m) == day
  }

  /** The month a day falls in: how many months have begun by that day, not counting the first. */
  function MonthOf(day: nat): nat {
    if day == 0 then 0 else MonthOf(day - 1) + (if IsMonthStart(day) then 1 else 0)
  }

  lemma {:induction false} MonthOfOrdered(d: nat, e: nat)
    requires d <= e
    ensures MonthOf(d) <= MonthOf(e)
    decreases e
  {
    if d < e {
      MonthOfOrdered(d, e - 1);
    }
  }

  lemma {:induction false} Rising(xs: seq<nat>, m: nat, n: nat)
    requires m <= n < |xs| && forall i :: 0 <= i < |xs| - 1 ==> xs[i] < xs[i + 1]
    ensures xs[m] + (n - m) <= xs[n]
    decreases n - m
  {
    if m < n {
      Rising(xs, m, n - 1);
    }
  }

  lemma MonthStartsOrdered(m: nat, n: nat)
    requires m <= n
    ensures MonthStart(m) + (n - m) <= MonthStart(n)
  {
    var starts := seq(n + 1, i requires 0 <= i <= n => MonthStart(i));
    forall i | 0 <= i < n ensures starts[i] < starts[i + 1] {
      MonthStartsRise(i);
    }
    Rising(starts, m, n);
  }

  lemma FirstMonth()
    ensures MonthStart(0) == 0 && MonthStart(1) == 31
  {
    assert DaysBeforeYear(1) == 0 && DaysBeforeMonth(1, 1) == 0 && DaysBeforeMonth(1, 2) == 31;
  }

  lemma NoStartBetween(m: nat, k: nat)
    requires MonthStart(m) < MonthStart(k) <= MonthStart(m + 1)
    ensures MonthStart(k) == MonthStart(m + 1)
  {
    if k <= m {
      MonthStartsOrdered(k, m);
    } else {
      MonthStartsOrdered(m + 1, k);
    }
  }

  lemma StartIsStart(m: nat)
    ensures IsMonthStart(MonthStart(m))
  {
    MonthStartsOrdered(0, m);
  }

  lemma NextMonthStart(m: nat, day: nat)
    requires MonthStart(m) < day <= MonthStart(m + 1)
    ensures IsMonthStart(day) <==> day == MonthStart(m + 1)
  {
    if IsMonthStart(day) {
      var k: nat :| k <= day && MonthStart(k) == day;
      NoStartBetween(m, k);
    }
    StartIsStart(m + 1);
  }

  lemma MonthAdvances(m: nat, n: nat, day: nat)
    requires day > 0 && InMonth(day - 1, m) && n == m + (if IsMonthStart(day) then 1 else 0)
    ensures InMonth(day, n)
  {
    NextMonthStart(m, day);
    if n != m {
      MonthStartsRise(n);
    }
  }

  /** The count is the month whose first day is the last one not after `day`. */
  lemma {:induction false} MonthOfIsMonth(day: nat)
    ensures InMonth(day, MonthOf(day))
  {
    if day == 0 {
      FirstMonth();
      assert InMonth(0, 0);
    } else {
      var m, n := MonthOf(day - 1), MonthOf(day);
      MonthOfIsMonth(day - 1);
      MonthAdvances(m, n, day);
      assert InMonth(day, n);
    }
  }
}
