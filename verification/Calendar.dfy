/** The proleptic Gregorian calendar, defined one day at a time and one year at a
    time. It does not mention the closed-form arithmetic it is used to check. */
module Calendar {
  datatype Date = Date(year: nat, month: nat, day: nat)

  const EPOCH := Date(1970, 1, 1)

  /** Appendix C of RFC 3339. */
  predicate LeapYear(year: nat) {
    year % 4 == 0 && (year % 100 != 0 || year % 400 == 0)
  }

  function YearLength(year: nat): nat {
    if LeapYear(year) then 366 else 365
  }

  /** Section 5.7 of RFC 3339. */
  function DaysInMonth(year: nat, month: nat): nat {
    if month == 2 then (if LeapYear(year) then 29 else 28)
    else if month == 4 || month == 6 || month == 9 || month == 11 then 30
    else 31
  }

  predicate ValidDate(d: Date) {
    1 <= d.month <= 12 && 1 <= d.day <= DaysInMonth(d.year, d.month)
  }

  function NextDay(d: Date): Date {
    if d.day < DaysInMonth(d.year, d.month) then d.(day := d.day + 1)
    else if d.month < 12 then Date(d.year, d.month + 1, 1)
    else Date(d.year + 1, 1, 1)
  }

  /** The calendar date reached by stepping `n` days from the epoch. */
  function NthDay(n: nat): Date {
    if n == 0 then EPOCH else NextDay(NthDay(n - 1))
  }

  predicate Before(a: Date, b: Date) {
    a.year < b.year
    || (a.year == b.year && (a.month < b.month || (a.month == b.month && a.day < b.day)))
  }

  /** Days from 1 January 1970 to 1 January of `year`. */
  function DaysBeforeYear(year: nat): nat
    requires year >= 1970
  {
    if year == 1970 then 0 else DaysBeforeYear(year - 1) + YearLength(year - 1)
  }

  /** Days from the first of January to the first of `month`. */
  function DaysBeforeMonth(year: nat, month: nat): nat
    requires 1 <= month <= 13
  {
    if month == 1 then 0 else DaysBeforeMonth(year, month - 1) + DaysInMonth(year, month - 1)
  }

  /** Days from the epoch to `d`, by adding up whole years, whole months and days. */
  function DayNumber(d: Date): nat
    requires d.year >= 1970 && ValidDate(d)
  {
    DaysBeforeYear(d.year) + DaysBeforeMonth(d.year, d.month) + d.day - 1
  }

  lemma {:induction false} MonthsFillYear(year: nat)
    ensures DaysBeforeMonth(year, 13) == YearLength(year)
  {
    var feb := DaysBeforeMonth(year, 3);
    assert DaysBeforeMonth(year, 2) == 31;
    assert feb == 31 + DaysInMonth(year, 2);
    assert DaysBeforeMonth(year, 5) == feb + 61;
    assert DaysBeforeMonth(year, 7) == feb + 122;
    assert DaysBeforeMonth(year, 9) == feb + 184;
    assert DaysBeforeMonth(year, 11) == feb + 245;
  }

  lemma {:induction false} MonthsIncrease(year: nat, m: nat, n: nat)
    requires 1 <= m <= n <= 13
    ensures DaysBeforeMonth(year, m) <= DaysBeforeMonth(year, n)
    decreases n - m
  {
    if m < n {
      MonthsIncrease(year, m, n - 1);
    }
  }

  lemma {:induction false} YearsIncrease(m: nat, n: nat)
    requires 1970 <= m <= n
    ensures DaysBeforeYear(m) <= DaysBeforeYear(n)
    decreases n - m
  {
    if m < n {
      YearsIncrease(m, n - 1);
    }
  }

  /** A date lies inside its own year. */
  lemma {:induction false} DayWithinYear(d: Date)
    requires d.year >= 1970 && ValidDate(d)
    ensures DaysBeforeYear(d.year) <= DayNumber(d) < DaysBeforeYear(d.year + 1)
  {
    MonthsIncrease(d.year, d.month + 1, 13);
    MonthsFillYear(d.year);
  }

  /** Counting days by years and months agrees with stepping one day at a time. */
  lemma {:induction false} NextDayCountsOne(d: Date)
    requires d.year >= 1970 && ValidDate(d)
    ensures ValidDate(NextDay(d))
    ensures DayNumber(NextDay(d)) == DayNumber(d) + 1
  {
    MonthsFillYear(d.year);
  }

  lemma {:induction false} DayNumberMonotone(a: Date, b: Date)
    requires a.year >= 1970 && b.year >= 1970 && ValidDate(a) && ValidDate(b) && Before(a, b)
    ensures DayNumber(a) < DayNumber(b)
  {
    if a.year < b.year {
      DayWithinYear(a);
      DayWithinYear(b);
      YearsIncrease(a.year + 1, b.year);
    } else if a.month < b.month {
      MonthsIncrease(a.year, a.month + 1, b.month);
    }
  }

  /** Calendar order and day-number order are the same order, and no two dates share
      a day number. */
  lemma {:induction false} DayNumberOrder(a: Date, b: Date)
    requires a.year >= 1970 && b.year >= 1970 && ValidDate(a) && ValidDate(b)
    ensures Before(a, b) <==> DayNumber(a) < DayNumber(b)
    ensures a == b <==> DayNumber(a) == DayNumber(b)
  {
    if Before(a, b) {
      DayNumberMonotone(a, b);
    } else if Before(b, a) {
      DayNumberMonotone(b, a);
    }
  }

  lemma {:induction false} NthDayNumber(n: nat)
    ensures ValidDate(NthDay(n)) && NthDay(n).year >= 1970
    ensures DayNumber(NthDay(n)) == n
  {
    if n > 0 {
      NthDayNumber(n - 1);
      NextDayCountsOne(NthDay(n - 1));
    }
  }
}
