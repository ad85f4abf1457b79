/** The proleptic Gregorian calendar, counted in days from Monday 1 January of year 1. */
module Calendar {

  predicate IsLeap(y: int) { y % 4 == 0 && (y % 100 != 0 || y % 400 == 0) }

  function DaysInMonth(y: int, m: int): (d: int)
    ensures 28 <= d <= 31
  {
    if m == 2 then (if IsLeap(y) then 29 else 28)
    else if m == 4 || m == 6 || m == 9 || m == 11 then 30
    else 31
  }

  datatype Date = Date(year: int, month: int, day: int)

  predicate ValidDate(d: Date) {
    d.year >= 1 && 1 <= d.month <= 12 && 1 <= d.day <= DaysInMonth(d.year, d.month)
  }

  function NextDate(d: Date): Date {
    if d.day < DaysInMonth(d.year, d.month) then d.(day := d.day + 1)
    else if d.month < 12 then Date(d.year, d.month + 1, 1)
    else Date(d.year + 1, 1, 1)
  }

  /** The date of day `n`, counted one day at a time. */
  function DateAt(n: nat): Date {
    if n == 0 then Date(1, 1, 1) else NextDate(DateAt(n - 1))
  }

  /** Sunday is 0. */
  function Weekday(n: nat): int { (n + 1) % 7 }

  // ---- Day numbers ----

  function DaysBeforeYear(y: int): int {
    365 * (y - 1) + (y - 1) / 4 - (y - 1) / 100 + (y - 1) / 400
  }

  function DaysBeforeMonth(y: int, m: int): int
    decreases m
  {
    if m <= 1 then 0 else DaysBeforeMonth(y, m - 1) + DaysInMonth(y, m - 1)
  }

  /** The number of a date; a day past the end of its month runs on into the next. */
  function DayNumber(d: Date): int {
    DaysBeforeYear(d.year) + DaysBeforeMonth(d.year, d.month) + d.day - 1
  }

  lemma YearLength(y: int)
    ensures DaysBeforeYear(y + 1) == DaysBeforeYear(y) + (if IsLeap(y) then 366 else 365)
  {
    Quarter(y);
    Century(y);
    FourCenturies(y);
    LeapRules(y);
  }

  lemma Quarter(y: int)
    ensures y / 4 == (y - 1) / 4 + (if y % 4 == 0 then 1 else 0)
  {}

  lemma Century(y: int)
    ensures y / 100 == (y - 1) / 100 + (if y % 100 == 0 then 1 else 0)
  {}

  lemma FourCenturies(y: int)
    ensures y / 400 == (y - 1) / 400 + (if y % 400 == 0 then 1 else 0)
  {}

  lemma LeapRules(y: int)
    ensures y % 400 == 0 ==> y % 100 == 0
    ensures y % 100 == 0 ==> y % 4 == 0
  {}

  lemma MonthsOfYear(y: int)
    ensures DaysBeforeMonth(y, 12) + DaysInMonth(y, 12) == if IsLeap(y) then 366 else 365
  {
    hide IsLeap;
    var leap := if IsLeap(y) then 1 else 0;
    assert DaysBeforeMonth(y, 3) == 59 + leap;
    assert DaysBeforeMonth(y, 6) == 151 + leap;
    assert DaysBeforeMonth(y, 9) == 243 + leap;
  }

  lemma {:induction false} MonthsGrow(y: int, m: int, k: int)
    requires 1 <= m <= k <= 12
    ensures DaysBeforeMonth(y, m) + 28 * (k - m) <= DaysBeforeMonth(y, k)
    decreases k
  {
    if m < k { MonthsGrow(y, m, k - 1); }
  }

  lemma {:induction false} YearsGrow(y: int, z: int)
    requires y <= z
    ensures DaysBeforeYear(y) + 365 * (z - y) <= DaysBeforeYear(z) <= DaysBeforeYear(y) + 366 * (z - y)
    decreases z - y
  {
    if y < z {
      YearsGrow(y, z - 1);
      YearLength(z - 1);
      hide DaysBeforeYear;
    }
  }

  lemma NextDateNumber(d: Date)
    requires ValidDate(d)
    ensures ValidDate(NextDate(d)) && DayNumber(NextDate(d)) == DayNumber(d) + 1
    ensures NextDate(d).day != d.day
  {
    hide IsLeap, DaysBeforeYear;
    if d.month == 12 && d.day == DaysInMonth(d.year, 12) {
      MonthsOfYear(d.year);
      YearLength(d.year);
    }
  }

  /** The day-by-day count and the closed form agree. */
  lemma {:induction false} DateAtNumber(n: nat)
    ensures ValidDate(DateAt(n)) && DayNumber(DateAt(n)) == n
  {
    hide DaysInMonth, NextDate;
    if n == 0 {
      assert DaysBeforeYear(1) == 0 && DaysBeforeMonth(1, 1) == 0;
      assert 1 <= DaysInMonth(1, 1);
    } else {
      hide DayNumber, ValidDate;
      DateAtNumber(n - 1);
      NextDateNumber(DateAt(n - 1));
    }
  }

  lemma InYear(d: Date)
    requires ValidDate(d)
    ensures DaysBeforeYear(d.year) <= DayNumber(d) < DaysBeforeYear(d.year + 1)
  {
    MonthsGrow(d.year, 1, d.month);
    MonthsGrow(d.year, d.month, 12);
    MonthsOfYear(d.year);
    YearLength(d.year);
    hide IsLeap, DaysBeforeYear;
    if d.month < 12 {
      MonthsGrow(d.year, d.month + 1, 12);
      assert DaysBeforeMonth(d.year, d.month + 1) == DaysBeforeMonth(d.year, d.month) + DaysInMonth(d.year, d.month);
    }
  }

  /** Dates are ordered as their numbers. */
  lemma Earlier(d: Date, e: Date)
    requires ValidDate(d) && ValidDate(e)
    requires d.year < e.year || (d.year == e.year && (d.month < e.month || (d.month == e.month && d.day < e.day)))
    ensures DayNumber(d) < DayNumber(e)
  {
    InYear(d);
    InYear(e);
    hide DaysBeforeYear, IsLeap;
    if d.year < e.year {
      YearsGrow(d.year + 1, e.year);
    } else if d.month < e.month {
      MonthsGrow(d.year, d.month + 1, e.month);
      assert DaysBeforeMonth(d.year, d.month + 1) == DaysBeforeMonth(d.year, d.month) + DaysInMonth(d.year, d.month);
    }
  }

  lemma SameNumber(d: Date, e: Date)
    requires ValidDate(d) && ValidDate(e) && DayNumber(d) == DayNumber(e)
    ensures d == e
  {
    hide DayNumber, ValidDate;
    if d.year < e.year || (d.year == e.year && (d.month < e.month || (d.month == e.month && d.day < e.day))) {
      Earlier(d, e);
    } else if d != e {
      Earlier(e, d);
    }
  }

  lemma NumberNatural(d: Date)
    requires ValidDate(d)
    ensures DayNumber(d) >= 0
  {
    InYear(d);
    YearsGrow(1, d.year);
    assert DaysBeforeYear(1) == 0;
  }

  lemma DateOfNumber(d: Date)
    requires ValidDate(d)
    ensures DayNumber(d) >= 0 && DateAt(DayNumber(d)) == d
  {
    NumberNatural(d);
    DateAtNumber(DayNumber(d));
    hide DayNumber, ValidDate, DateAt;
    SameNumber(DateAt(DayNumber(d)), d);
  }

  /** A leap day only counts from March on. */
  lemma {:induction false} LeapMonth(y: int, m: int)
    ensures DaysBeforeMonth(y, m) == DaysBeforeMonth(1, m) + (if m > 2 && IsLeap(y) then 1 else 0)
    decreases m
  {
    if m > 1 {
      LeapMonth(y, m - 1);
      assert !IsLeap(1);
      hide IsLeap;
    }
  }

  /** The same date a number of years on, normalized like any other. */
  lemma YearsOn(d: Date, k: nat)
    requires ValidDate(d)
    ensures DayNumber(d) + 365 * k - 1 <= DayNumber(d.(year := d.year + k)) <= DayNumber(d) + 366 * k + 1
    ensures k == 1 ==> DayNumber(d) + 365 <= DayNumber(d.(year := d.year + k)) <= DayNumber(d) + 366
  {
    hide IsLeap, DaysBeforeYear, DaysBeforeMonth, ValidDate;
    var y, z := d.year, d.year + k;
    YearsGrow(y, z);
    YearLength(y);
    LeapMonth(y, d.month);
    LeapMonth(z, d.month);
    NoTwoLeaps(y);
    assert DayNumber(d) == DaysBeforeYear(y) + DaysBeforeMonth(y, d.month) + d.day - 1;
    assert DayNumber(d.(year := z)) == DaysBeforeYear(z) + DaysBeforeMonth(z, d.month) + d.day - 1;
  }

  lemma NoTwoLeaps(y: int)
    ensures IsLeap(y) ==> !IsLeap(y + 1)
  {}

  // ---- The cycle of 400 years ----

  /** A whole number of weeks. */
  const CYCLE_DAYS: nat := 146097

  lemma CycleNumber(d: Date)
    ensures DayNumber(d.(year := d.year + 400)) == DayNumber(d) + CYCLE_DAYS
    ensures ValidDate(d) ==> ValidDate(d.(year := d.year + 400))
  {
    var y := d.year;
    CycleLeap(y);
    LeapMonth(y, d.month);
    LeapMonth(y + 400, d.month);
    CycleYears(y);
    var e := d.(year := y + 400);
    assert DayNumber(e) == DaysBeforeYear(y + 400) + DaysBeforeMonth(y + 400, d.month) + d.day - 1;
    hide IsLeap, DaysBeforeYear, DaysBeforeMonth;
    assert DaysInMonth(y + 400, d.month) == DaysInMonth(y, d.month);
  }

  lemma CycleLeap(y: int)
    ensures IsLeap(y + 400) == IsLeap(y)
  {
    assert (y + 400) % 4 == y % 4 && (y + 400) % 100 == y % 100 && (y + 400) % 400 == y % 400;
  }

  lemma CycleYears(y: int)
    ensures DaysBeforeYear(y + 400) == DaysBeforeYear(y) + CYCLE_DAYS
  {
    assert (y + 399) / 4 == (y - 1) / 4 + 100;
    assert (y + 399) / 100 == (y - 1) / 100 + 4;
    assert (y + 399) / 400 == (y - 1) / 400 + 1;
  }

  /** Dates and weekdays repeat. */
  lemma CycleDate(n: nat)
    ensures DateAt(n + CYCLE_DAYS) == DateAt(n).(year := DateAt(n).year + 400)
    ensures Weekday(n + CYCLE_DAYS) == Weekday(n)
  {
    hide *;
    DateAtNumber(n);
    var d := DateAt(n);
    CycleNumber(d);
    var e := d.(year := d.year + 400);
    assert DayNumber(e) == n + CYCLE_DAYS;
    DateOfNumber(e);
    CycleWeekday(n);
  }

  lemma CycleWeekday(n: nat)
    ensures Weekday(n + CYCLE_DAYS) == Weekday(n)
  {
    assert CYCLE_DAYS == 7 * 20871;
    assert (n + 1 + 7 * 20871) % 7 == (n + 1) % 7;
  }
}
