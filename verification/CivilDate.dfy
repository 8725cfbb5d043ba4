/** The days-to-civil-date arithmetic of `format_rfc3339`, checked against the
    calendar. Years start on 1 March here, as they do inside the algorithm. */
module CivilDate {
  import opened Calendar

  /** Year of the 400-year era that day `doe` of the era falls in. */
  function YearOfEra(doe: nat): nat
    requires doe < 146_097
  {
    (doe - doe / 1460 + doe / 36524 - doe / 146_096) / 365
  }

  /** Days of the era before year `yoe` of it starts. */
  function EraDaysBefore(yoe: nat): nat {
    365 * yoe + yoe / 4 - yoe / 100
  }

  /** Month and day of the month for day `doy` of a year that starts in March. */
  function MonthAndDay(doy: nat): (r: (nat, nat))
    requires doy <= 365
  {
    var mp := (5 * doy + 2) / 153;
    var day := doy - (153 * mp + 2) / 5 + 1;
    var month := if mp < 10 then mp + 3 else mp - 9;
    (month, day)
  }

  lemma CenturyOfEra(century: nat, doe: nat)
    requires century <= 3 && 36524 * century <= doe < 36524 * (century + 1)
    ensures YearOfEra(doe) / 100 == century
  {
  }

  /** Within one century the estimate never falls a year short. */
  lemma YearNotEarly(century: nat, doe: nat)
    requires century <= 3 && 36524 * century <= doe < 36524 * (century + 1)
    ensures doe < EraDaysBefore(YearOfEra(doe) + 1)
  {
    CenturyOfEra(century, doe);
    var q := doe / 1460;
    var y := YearOfEra(doe);
    assert y == (doe - q + century) / 365;
    if y != 100 * century + 99 {
      assert (y + 1) / 100 == century;
      assert doe <= 365 * y + 364 + q - century;
      assert q <= (y + 1) / 4;
    }
  }

  /** Nor does it reach a year too far. */
  lemma YearNotLate(century: nat, doe: nat)
    requires century <= 3 && 36524 * century <= doe < 36524 * (century + 1)
    ensures YearOfEra(doe) <= 399
    ensures EraDaysBefore(YearOfEra(doe)) <= doe
  {
    CenturyOfEra(century, doe);
    var q := doe / 1460;
    var y := YearOfEra(doe);
    assert y == (doe - q + century) / 365;
    assert 365 * y <= doe - q + century;
    assert century <= q;
    assert y / 4 <= q;
  }

  /** The day falls inside the year the estimate names. */
  lemma YearOfEraBounds(doe: nat)
    requires doe < 146_097
    ensures YearOfEra(doe) <= 399
    ensures EraDaysBefore(YearOfEra(doe)) <= doe
    ensures doe < EraDaysBefore(YearOfEra(doe) + 1) || (doe == 146_096 && YearOfEra(doe) == 399)
  {
    if doe < 146_096 {
      var century := doe / 36524;
      assert 36524 * century <= doe < 36524 * (century + 1);
      YearNotEarly(century, doe);
      YearNotLate(century, doe);
    }
  }

  lemma EraDaysIncrease(a: nat, b: nat)
    requires a < b
    ensures EraDaysBefore(a + 1) <= EraDaysBefore(b)
  {
    assert (a + 1) / 100 <= b / 100;
    assert (a + 1) / 4 <= b / 4;
    assert b / 100 <= (a + 1) / 100 + (b - a - 1);
  }

  /** No other year contains the day. */
  lemma YearOfEraUnique(doe: nat, y: nat)
    requires doe < 146_097 && y <= 399
    requires EraDaysBefore(y) <= doe && (doe < EraDaysBefore(y + 1) || y == 399)
    ensures YearOfEra(doe) == y
  {
    YearOfEraBounds(doe);
    var z := YearOfEra(doe);
    if z < y {
      EraDaysIncrease(z, y);
    } else if y < z {
      EraDaysIncrease(y, z);
    }
  }

  /** Length of the March-based year that starts in calendar year `year`. */
  function MarchYearLength(year: nat): nat {
    YearLength(year + 1)
  }

  /** Leap years repeat every 400 years. */
  lemma {:induction false} LeapYearsRepeat(era: nat, year: nat)
    ensures LeapYear(year + era * 400) == LeapYear(year)
  {
    if era > 0 {
      LeapYearsRepeat(era - 1, year);
      LeapYearsShift(year + (era - 1) * 400);
    }
  }

  lemma LeapYearsShift(year: nat)
    ensures LeapYear(year + 400) == LeapYear(year)
  {
    assert (year + 400) % 4 == year % 4;
    assert (year + 400) % 100 == year % 100;
    assert (year + 400) % 400 == year % 400;
  }

  lemma CountOfMultiples(k: nat, step: nat)
    requires step == 4 || step == 100
    ensures (k + 1) / step == k / step + (if (k + 1) % step == 0 then 1 else 0)
  {
  }

  lemma EraYearLength(era: nat, yoe: nat)
    requires yoe <= 399
    ensures yoe < 399 ==> EraDaysBefore(yoe + 1) == EraDaysBefore(yoe) + MarchYearLength(yoe + era * 400)
    ensures yoe == 399 ==> EraDaysBefore(yoe) + MarchYearLength(yoe + era * 400) == 146_097
  {
    LeapYearsRepeat(era, yoe + 1);
    CountOfMultiples(yoe, 4);
    CountOfMultiples(yoe, 100);
    assert yoe < 399 ==> (yoe + 1) % 400 != 0;
  }

  /** The civil date of a day counted from the epoch: the arithmetic of the source,
      whose branch for days before the year 0 an unsigned timestamp never takes. */
  function CivilFromDays(days: nat): Date {
    var z := days + 719_468;
    var era := z / 146_097;
    var doe := z - era * 146_097;
    var yoe := YearOfEra(doe);
    YearOfEraBounds(doe);
    var y := yoe + era * 400;
    EraYearLength(era, yoe);
    var doy := doe - EraDaysBefore(yoe);
    var (month, day) := MonthAndDay(doy);
    Date(if month <= 2 then y + 1 else y, month, day)
  }

  /** The date shown for day `doy` of the March-based year `y`. */
  function ShownDate(y: nat, doy: nat): Date
    requires doy <= 365
  {
    var (month, day) := MonthAndDay(doy);
    Date(if month <= 2 then y + 1 else y, month, day)
  }

  /** Days in a month, 29 for February. */
  function MonthSpan(month: nat): nat {
    if month == 2 then 29 else DaysInMonth(0, month)
  }

  /** The next day of the year is the next day of the month or the first of the next. */
  lemma MonthAndDayStep(doy: nat)
    requires doy < 365
    ensures var (month, day) := MonthAndDay(doy);
            && 1 <= month <= 12 && 1 <= day <= MonthSpan(month)
            && MonthAndDay(doy + 1) ==
               if day < MonthSpan(month) then (month, day + 1) else (if month == 12 then 1 else month + 1, 1)
  {
    var mp := (5 * doy + 2) / 153;
    assert 0 <= mp <= 11;
  }

  lemma LastDaysOfYear(doy: nat)
    requires doy <= 365
    ensures var (month, day) := MonthAndDay(doy);
            && (month == 2 && day == 28 <==> doy == 364)
            && (month == 2 && day == 29 <==> doy == 365)
            && (month == 12 && day == 31 <==> doy == 305)
  {
    var mp := (5 * doy + 2) / 153;
    assert 0 <= mp <= 11;
  }

  lemma ShownDateStep(y: nat, doy: nat)
    requires doy < MarchYearLength(y)
    ensures NextDay(ShownDate(y, doy)) ==
            if doy + 1 < MarchYearLength(y) then ShownDate(y, doy + 1) else ShownDate(y + 1, 0)
  {
    var (month, day) := MonthAndDay(doy);
    LastDaysOfYear(doy);
    if doy < 365 {
      MonthAndDayStep(doy);
      assert month != 2 ==> DaysInMonth(ShownDate(y, doy).year, month) == MonthSpan(month);
    }
    assert MonthAndDay(0) == (3, 1);
  }

  /** Day number `days` is day `doy` of March-based year `yoe` of era `era`. */
  predicate At(days: nat, era: nat, yoe: nat, doy: nat) {
    yoe <= 399 && doy < MarchYearLength(yoe + era * 400)
    && days + 719_468 == era * 146_097 + EraDaysBefore(yoe) + doy
  }

  /** The era and the day of the era of a position. */
  lemma EraOfPosition(days: nat, era: nat, yoe: nat, doy: nat)
    requires At(days, era, yoe, doy)
    ensures (days + 719_468) / 146_097 == era
    ensures days + 719_468 - era * 146_097 == EraDaysBefore(yoe) + doy < 146_097
    ensures EraDaysBefore(yoe) + doy < EraDaysBefore(yoe + 1) || yoe == 399
  {
    EraYearLength(era, yoe);
    if yoe < 399 {
      EraDaysIncrease(yoe, 399);
    }
  }

  /** The closed form shows every day at its position. */
  lemma CivilFromPosition(days: nat, era: nat, yoe: nat, doy: nat)
    requires At(days, era, yoe, doy)
    ensures CivilFromDays(days) == ShownDate(yoe + era * 400, doy)
  {
    EraOfPosition(days, era, yoe, doy);
    YearOfEraUnique(EraDaysBefore(yoe) + doy, yoe);
  }

  /** The position one day later: the next day of the year, or the first day of the
      next year, in the same era or the next. */
  lemma NextPosition(days: nat, era: nat, yoe: nat, doy: nat) returns (era': nat, yoe': nat, doy': nat)
    requires At(days, era, yoe, doy)
    ensures At(days + 1, era', yoe', doy')
    ensures yoe' + era' * 400 == yoe + era * 400 + (if doy' == 0 then 1 else 0)
    ensures doy' == if doy + 1 < MarchYearLength(yoe + era * 400) then doy + 1 else 0
  {
    EraYearLength(era, yoe);
    if doy + 1 < MarchYearLength(yoe + era * 400) {
      era', yoe', doy' := era, yoe, doy + 1;
    } else if yoe < 399 {
      era', yoe', doy' := era, yoe + 1, 0;
    } else {
      era', yoe', doy' := era + 1, 0, 0;
    }
  }

  lemma EpochPosition()
    ensures At(0, 4, 369, 306) && ShownDate(369 + 4 * 400, 306) == EPOCH
  {
  }

  lemma NextShownDate(days: nat, era: nat, yoe: nat, doy: nat) returns (era': nat, yoe': nat, doy': nat)
    requires At(days, era, yoe, doy)
    ensures At(days + 1, era', yoe', doy')
    ensures ShownDate(yoe' + era' * 400, doy') == NextDay(ShownDate(yoe + era * 400, doy))
  {
    era', yoe', doy' := NextPosition(days, era, yoe, doy);
    ShownDateStep(yoe + era * 400, doy);
  }

  /** Any function that shows every day at its position is the calendar stepped from
      the epoch, 1 January 1970 being day 306 of year 369 of era 4. */
  lemma {:induction false} PositionsAreCalendar(dateOf: nat -> Date, days: nat) returns (era: nat, yoe: nat, doy: nat)
    requires forall n: nat, era: nat, yoe: nat, doy: nat ::
               At(n, era, yoe, doy) ==> dateOf(n) == ShownDate(yoe + era * 400, doy)
    ensures At(days, era, yoe, doy) && dateOf(days) == NthDay(days)
  {
    if days == 0 {
      era, yoe, doy := 4, 369, 306;
      EpochPosition();
    } else {
      era, yoe, doy := PositionsAreCalendar(dateOf, days - 1);
      assert dateOf(days - 1) == ShownDate(yoe + era * 400, doy);
      era, yoe, doy := NextShownDate(days - 1, era, yoe, doy);
    }
    assert dateOf(days) == ShownDate(yoe + era * 400, doy);
  }

  /** The closed form is the calendar stepped one day at a time from the epoch. */
  lemma CivilFromDaysIsNthDay(days: nat)
    ensures CivilFromDays(days) == NthDay(days)
  {
    var dateOf: nat -> Date := (n: nat) => CivilFromDays(n);
    forall n: nat, era: nat, yoe: nat, doy: nat | At(n, era, yoe, doy)
      ensures dateOf(n) == ShownDate(yoe + era * 400, doy)
    {
      CivilFromPosition(n, era, yoe, doy);
    }
    var _, _, _ := PositionsAreCalendar(dateOf, days);
  }

  /** And every calendar date from the epoch on is the civil date of its day number. */
  lemma CivilFromDayNumber(d: Date)
    requires d.year >= 1970 && ValidDate(d)
    ensures CivilFromDays(DayNumber(d)) == d
  {
    CivilFromDaysIsNthDay(DayNumber(d));
    NthDayNumber(DayNumber(d));
    DayNumberOrder(NthDay(DayNumber(d)), d);
  }
}
