/** `format_rfc3339` and the date-time strings of section 5.6 of RFC 3339. */
module Rfc3339 {
  import opened Calendar
  import opened CivilDate
  import opened DecimalText
  import opened Division
  import opened Wrappers

  const SECS_PER_DAY := 86_400

  /** The first second of the year 10000, where four digits stop being enough. */
  const YEAR_10000 := 253_402_300_800

  /** The text for a date and a number of seconds into that day. */
  function Render(date: Date, timeSecs: nat): string {
    var hours := timeSecs / 3600;
    var minutes := (timeSecs % 3600) / 60;
    var seconds := timeSecs % 60;
    Layout(Pad(date.year, 4), Pad(date.month, 2), Pad(date.day, 2),
           Pad(hours, 2), Pad(minutes, 2), Pad(seconds, 2))
  }

  function Layout(year: string, month: string, day: string,
                  hours: string, minutes: string, seconds: string): string
  {
    year + "-" + month + "-" + day + "T" + hours + ":" + minutes + ":" + seconds + "Z"
  }

  function FormatRfc3339(epochSecs: nat): string {
    Render(CivilFromDays(epochSecs / SECS_PER_DAY), epochSecs % SECS_PER_DAY)
  }

  /** The grammar of section 5.6 of RFC 3339, for whole seconds and the offset Z, with
      the day in the range section 5.7 gives for its month. */
  predicate DateTimeText(s: string) {
    && |s| == 20
    && s[4] == '-' && s[7] == '-' && s[10] == 'T' && s[13] == ':' && s[16] == ':' && s[19] == 'Z'
    && AllDigits(s[0..4]) && AllDigits(s[5..7]) && AllDigits(s[8..10])
    && AllDigits(s[11..13]) && AllDigits(s[14..16]) && AllDigits(s[17..19])
    && ValidDate(DateOf(s))
    && Value(s[11..13]) <= 23 && Value(s[14..16]) <= 59 && Value(s[17..19]) <= 59
  }

  function DateOf(s: string): Date
    requires |s| >= 10 && AllDigits(s[0..4]) && AllDigits(s[5..7]) && AllDigits(s[8..10])
  {
    Date(Value(s[0..4]), Value(s[5..7]), Value(s[8..10]))
  }

  function TimeOf(s: string): nat
    requires |s| >= 19 && AllDigits(s[11..13]) && AllDigits(s[14..16]) && AllDigits(s[17..19])
  {
    3600 * Value(s[11..13]) + 60 * Value(s[14..16]) + Value(s[17..19])
  }

  /** The second a date-time text names: a calendar day counted by whole years and
      months, and a time of day. Nothing before the epoch is named. */
  function ParseRfc3339(s: string): Option<nat> {
    if DateTimeText(s) && DateOf(s).year >= 1970 then
      Some(SECS_PER_DAY * DayNumber(DateOf(s)) + TimeOf(s))
    else
      None
  }

  lemma FormatUsesCalendar(epochSecs: nat)
    ensures FormatRfc3339(epochSecs) == Render(NthDay(epochSecs / SECS_PER_DAY), epochSecs % SECS_PER_DAY)
  {
    CivilFromDaysIsNthDay(epochSecs / SECS_PER_DAY);
  }

  lemma LastFourDigitPosition()
    ensures At(2_932_896, 24, 399, 305)
    ensures ShownDate(399 + 24 * 400, 305) == Date(9999, 12, 31)
  {
  }

  lemma LastFourDigitDay(last: nat)
    requires last == 2_932_896
    ensures NthDay(last) == Date(9999, 12, 31)
  {
    CivilFromDaysIsNthDay(last);
    LastFourDigitPosition();
    CivilFromPosition(last, 24, 399, 305);
  }

  /** Four-digit years end exactly where day 2932897 begins. */
  lemma FourDigitYears(days: nat, last: nat)
    requires last == 2_932_896
    ensures NthDay(days).year <= 9999 <==> days <= last
  {
    LastFourDigitDay(last);
    NthDayNumber(days);
    NthDayNumber(last);
    DayNumberOrder(NthDay(last), NthDay(days));
  }

  lemma LayoutSlices(year: string, month: string, day: string,
                     hours: string, minutes: string, seconds: string)
    requires |year| == 4 && |month| == |day| == |hours| == |minutes| == |seconds| == 2
    ensures var s := Layout(year, month, day, hours, minutes, seconds);
            && |s| == 20
            && s[0..4] == year && s[5..7] == month && s[8..10] == day
            && s[11..13] == hours && s[14..16] == minutes && s[17..19] == seconds
            && s[4] == '-' && s[7] == '-' && s[10] == 'T' && s[13] == ':' && s[16] == ':' && s[19] == 'Z'
  {
  }

  lemma PaddedField(n: nat, width: nat)
    requires (width == 2 && n < 100) || (width == 4 && n < 10000)
    ensures |Pad(n, width)| == width && AllDigits(Pad(n, width)) && Value(Pad(n, width)) == n
  {
    assert Pow10(4) == 10000 && Pow10(2) == 100;
    PadLength(n, width);
    PadReads(n, width);
  }

  /** Text laid out from six digit fields reads back as those fields. */
  lemma LayoutReads(year: string, month: string, day: string,
                    hours: string, minutes: string, seconds: string)
    requires |year| == 4 && |month| == |day| == |hours| == |minutes| == |seconds| == 2
    requires AllDigits(year) && AllDigits(month) && AllDigits(day)
    requires AllDigits(hours) && AllDigits(minutes) && AllDigits(seconds)
    requires ValidDate(Date(Value(year), Value(month), Value(day)))
    requires Value(hours) <= 23 && Value(minutes) <= 59 && Value(seconds) <= 59
    ensures var s := Layout(year, month, day, hours, minutes, seconds);
            && DateTimeText(s)
            && DateOf(s) == Date(Value(year), Value(month), Value(day))
            && TimeOf(s) == 3600 * Value(hours) + 60 * Value(minutes) + Value(seconds)
  {
    LayoutSlices(year, month, day, hours, minutes, seconds);
  }

  lemma RenderedFields(date: Date, timeSecs: nat)
    requires date.year <= 9999 && ValidDate(date) && timeSecs < SECS_PER_DAY
    ensures var s := Render(date, timeSecs);
            && DateTimeText(s) && DateOf(s) == date && TimeOf(s) == timeSecs
  {
    var hours := timeSecs / 3600;
    var minutes := (timeSecs % 3600) / 60;
    var seconds := timeSecs % 60;
    assert timeSecs == 3600 * hours + 60 * minutes + seconds;
    PaddedField(date.year, 4);
    PaddedField(date.month, 2);
    PaddedField(date.day, 2);
    PaddedField(hours, 2);
    PaddedField(minutes, 2);
    PaddedField(seconds, 2);
    LayoutReads(Pad(date.year, 4), Pad(date.month, 2), Pad(date.day, 2),
                Pad(hours, 2), Pad(minutes, 2), Pad(seconds, 2));
  }

  lemma RenderThenParse(date: Date, timeSecs: nat)
    requires 1970 <= date.year <= 9999 && ValidDate(date) && timeSecs < SECS_PER_DAY
    ensures DateTimeText(Render(date, timeSecs))
    ensures ParseRfc3339(Render(date, timeSecs)) == Some(SECS_PER_DAY * DayNumber(date) + timeSecs)
  {
    RenderedFields(date, timeSecs);
    NamedSecond(Render(date, timeSecs));
  }

  lemma NamedSecond(s: string)
    requires DateTimeText(s) && DateOf(s).year >= 1970
    ensures ParseRfc3339(s) == Some(SECS_PER_DAY * DayNumber(DateOf(s)) + TimeOf(s))
  {
  }

  /** The date shown on a day: that of the calendar, with that day number. */
  lemma ShownOn(day: nat) returns (d: Date)
    ensures d == CivilFromDays(day) && ValidDate(d) && d.year >= 1970 && DayNumber(d) == day
    ensures d.year <= 9999 <==> day <= 2_932_896
  {
    CivilFromDaysIsNthDay(day);
    NthDayNumber(day);
    FourDigitYears(day, 2_932_896);
    d := NthDay(day);
  }

  /** Every second before the year 10000 is written as a valid date-time, and reading
      it back gives the same second. */
  lemma FormatThenParse(epochSecs: nat)
    requires epochSecs < YEAR_10000
    ensures DateTimeText(FormatRfc3339(epochSecs))
    ensures ParseRfc3339(FormatRfc3339(epochSecs)) == Some(epochSecs)
  {
    var d := ShownOn(epochSecs / SECS_PER_DAY);
    RenderThenParse(d, epochSecs % SECS_PER_DAY);
  }

  /** A text that names a second is exactly what the formatter writes for it. */
  lemma ParseThenFormat(s: string)
    requires ParseRfc3339(s).Some?
    ensures ParseRfc3339(s).value < YEAR_10000
    ensures FormatRfc3339(ParseRfc3339(s).value) == s
  {
    var t := ParseRfc3339(s).value;
    var date, time := DateOf(s), TimeOf(s);
    var days := DayNumber(date);
    assert t / SECS_PER_DAY == days && t % SECS_PER_DAY == time;
    CivilFromDayNumber(date);
    ValueBound(s[0..4]);
    assert Pow10(4) == 10000;
    var d := ShownOn(days);
    RenderOfText(s);
  }

  lemma TimeFields(hours: nat, minutes: nat, seconds: nat) returns (time: nat)
    requires minutes <= 59 && seconds <= 59
    ensures time == 3600 * hours + 60 * minutes + seconds
    ensures time / 3600 == hours && (time % 3600) / 60 == minutes && time % 60 == seconds
  {
    time := 3600 * hours + 60 * minutes + seconds;
    DivisionIs(time, 3600, hours, 60 * minutes + seconds);
    DivisionIs(60 * minutes + seconds, 60, minutes, seconds);
    DivisionIs(time, 60, 60 * hours + minutes, seconds);
  }

  /** The text for a time given by its fields, and a date by its own. */
  lemma RenderIs(date: Date, time: nat, year: string, month: string, day: string,
                 hours: string, minutes: string, seconds: string)
    requires year == Pad(date.year, 4) && month == Pad(date.month, 2) && day == Pad(date.day, 2)
    requires hours == Pad(time / 3600, 2) && minutes == Pad((time % 3600) / 60, 2) && seconds == Pad(time % 60, 2)
    ensures Render(date, time) == Layout(year, month, day, hours, minutes, seconds)
  {
  }

  lemma TextSlices(s: string)
    requires DateTimeText(s)
    ensures s == Layout(s[0..4], s[5..7], s[8..10], s[11..13], s[14..16], s[17..19])
  {
  }

  lemma PaddedBack(s: string, width: nat)
    requires |s| == width && width > 0 && AllDigits(s)
    ensures Pad(Value(s), width) == s
  {
    PadOfValue(s);
  }

  lemma RenderOfFields(s: string, date: Date, time: nat, year: string, month: string, day: string,
                       hours: string, minutes: string, seconds: string)
    requires |year| == 4 && AllDigits(year) && date.year == Value(year)
    requires |month| == 2 && AllDigits(month) && date.month == Value(month)
    requires |day| == 2 && AllDigits(day) && date.day == Value(day)
    requires |hours| == 2 && AllDigits(hours) && time / 3600 == Value(hours)
    requires |minutes| == 2 && AllDigits(minutes) && (time % 3600) / 60 == Value(minutes)
    requires |seconds| == 2 && AllDigits(seconds) && time % 60 == Value(seconds)
    requires s == Layout(year, month, day, hours, minutes, seconds)
    ensures Render(date, time) == s
  {
    PaddedBack(year, 4);
    PaddedBack(month, 2);
    PaddedBack(day, 2);
    PaddedBack(hours, 2);
    PaddedBack(minutes, 2);
    PaddedBack(seconds, 2);
    RenderIs(date, time, year, month, day, hours, minutes, seconds);
  }

  lemma RenderOfText(s: string)
    requires DateTimeText(s)
    ensures Render(DateOf(s), TimeOf(s)) == s
  {
    TextSlices(s);
    var time := TimeFields(Value(s[11..13]), Value(s[14..16]), Value(s[17..19]));
    RenderOfFields(s, DateOf(s), TimeOf(s), s[0..4], s[5..7], s[8..10], s[11..13], s[14..16], s[17..19]);
  }

  /** The four-digit layout holds exactly up to the end of the year 9999. */
  lemma FormatWidth(epochSecs: nat)
    ensures |FormatRfc3339(epochSecs)| == 20 <==> epochSecs < YEAR_10000
  {
    if epochSecs < YEAR_10000 {
      FormatThenParse(epochSecs);
    } else {
      var d := ShownOn(epochSecs / SECS_PER_DAY);
      WideYear(d, epochSecs % SECS_PER_DAY);
    }
  }

  lemma WideYear(d: Date, timeSecs: nat)
    requires d.year > 9999
    ensures |Render(d, timeSecs)| > 20
  {
    assert Pow10(4) == 10000;
    PadLength(d.year, 4);
    PadLength(d.month, 2);
    PadLength(d.day, 2);
    PadLength(timeSecs / 3600, 2);
    PadLength((timeSecs % 3600) / 60, 2);
    PadLength(timeSecs % 60, 2);
  }

  // ---------------------------------------------------------------------------
  // Order
  // ---------------------------------------------------------------------------

  /** The year shown for a second. */
  function CivilYear(epochSecs: nat): nat {
    CivilFromDays(epochSecs / SECS_PER_DAY).year
  }

  predicate Digits(s: string, width: nat) {
    |s| == width && AllDigits(s)
  }

  function Clock(hours: string, minutes: string, end: string): string {
    hours + ":" + (minutes + ":" + end)
  }

  /** The text behind the year and its separator. */
  function AfterYear(month: string, day: string, clock: string): string {
    month + "-" + (day + "T" + clock)
  }

  lemma LayoutIsNested(year: string, month: string, day: string, hours: string, minutes: string, seconds: string)
    ensures Layout(year, month, day, hours, minutes, seconds) ==
            year + "-" + AfterYear(month, day, Clock(hours, minutes, seconds + "Z"))
  {
    var clock := Clock(hours, minutes, seconds + "Z");
    assert clock == hours + ":" + minutes + ":" + seconds + "Z";
    assert month + "-" + (day + "T" + clock) == month + "-" + day + "T" + clock;
  }

  /** Two numbers, each followed by a separator, in front of a text. */
  lemma TwoFieldsFirst(f: string, g: string, f': string, g': string, c: char, e: char, u: string, u': string)
    requires Digits(f, 2) && Digits(g, 2) && Digits(f', 2) && Digits(g', 2)
    ensures LexLess(f + [c] + (g + [e] + u), f' + [c] + (g' + [e] + u')) <==>
            || Value(f) < Value(f')
            || (Value(f) == Value(f') && (Value(g) < Value(g') || (Value(g) == Value(g') && LexLess(u, u'))))
  {
    FieldFirst(g, g', e, u, u');
    FieldFirst(f, f', c, g + [e] + u, g' + [e] + u');
  }

  lemma SecondsOrder(s: string, s': string, end: string)
    requires Digits(s, 2) && Digits(s', 2)
    ensures LexLess(s + end, s' + end) <==> Value(s) < Value(s')
  {
    LexLessPrefix(s, s', end, end);
    LexLessIrreflexive(end);
    LexLessIsNumeric(s, s');
  }

  /** Years shown with the same number of digits decide. */
  lemma SameWidthFirst(year: string, rest: string, year': string, rest': string)
    requires |year| == |year'| && AllDigits(year) && AllDigits(year') && Value(year) <= Value(year')
    requires Value(year) == Value(year') ==> LexLess(rest, rest')
    ensures LexLess(year + "-" + rest, year' + "-" + rest')
  {
    FieldFirst(year, year', '-', rest, rest');
  }

  /** Otherwise the separator behind the shorter one does, which sorts before every digit. */
  lemma ShorterYearFirst(year: string, rest: string, year': string, rest': string)
    requires |year| < |year'| && AllDigits(year) && AllDigits(year')
    ensures Pow10(|year'| - |year|) > 0
    ensures LexLess(year + "-" + rest, year' + "-" + rest') <==> Value(year) <= Value(year') / Pow10(|year'| - |year|)
  {
    assert year' + "-" + rest' == year' + ("-" + rest');
    ShorterFirst(year, year', '-', rest, "-" + rest');
  }

  /** How two texts sort, by how many more digits the second year has. */
  predicate YearDecides(before: bool, n: nat, n': nat, more: nat) {
    Pow10(more) > 0 && (before <==> n <= n' / Pow10(more))
  }

  lemma YearFirst(year: string, rest: string, year': string, rest': string, more: nat)
    requires |year| + more == |year'|
    requires AllDigits(year) && AllDigits(year') && Value(year) <= Value(year')
    requires Value(year) == Value(year') ==> LexLess(rest, rest')
    ensures YearDecides(LexLess(year + "-" + rest, year' + "-" + rest'), Value(year), Value(year'), more)
  {
    if more == 0 {
      SameWidthFirst(year, rest, year', rest');
    } else {
      ShorterYearFirst(year, rest, year', rest');
    }
  }

  lemma JoinedFirst(s: string, year: string, rest: string, s': string, year': string, rest': string, more: nat)
    requires s == year + "-" + rest && s' == year' + "-" + rest'
    requires |year| + more == |year'| && |rest| == |rest'|
    requires AllDigits(year) && AllDigits(year') && Value(year) <= Value(year')
    requires Value(year) == Value(year') ==> LexLess(rest, rest')
    ensures |s| + more == |s'| && YearDecides(LexLess(s, s'), Value(year), Value(year'), more)
  {
    YearFirst(year, rest, year', rest', more);
  }

  /** The other way round. */
  lemma OtherWay(s: string, s': string)
    requires LexLess(s, s') || s != s'
    ensures LexLess(s', s) <==> !LexLess(s, s')
  {
    LexLessTotal(s, s');
    if LexLess(s, s') {
      LexLessAsymmetric(s, s');
    }
  }

  function ClockOf(timeSecs: nat): string {
    Clock(Pad(timeSecs / 3600, 2), Pad((timeSecs % 3600) / 60, 2), Pad(timeSecs % 60, 2) + "Z")
  }

  /** Times of day sort as their numbers do. */
  lemma ClockOfOrder(a: nat, b: nat)
    requires a < SECS_PER_DAY && b < SECS_PER_DAY
    ensures |ClockOf(a)| == |ClockOf(b)| == 9
    ensures LexLess(ClockOf(a), ClockOf(b)) <==> a < b
  {
    var h, m, s := ClockFields(a);
    var h', m', s' := ClockFields(b);
    SecondsOrder(s, s', "Z");
    TwoFieldsFirst(h, m, h', m', ':', ':', s + "Z", s' + "Z");
  }

  lemma ClockFields(timeSecs: nat) returns (h: string, m: string, s: string)
    requires timeSecs < SECS_PER_DAY
    ensures ClockOf(timeSecs) == Clock(h, m, s + "Z") && Digits(h, 2) && Digits(m, 2) && Digits(s, 2)
    ensures Value(m) < 60 && Value(s) < 60
    ensures timeSecs == 3600 * Value(h) + 60 * Value(m) + Value(s)
  {
    h, m, s := Pad(timeSecs / 3600, 2), Pad((timeSecs % 3600) / 60, 2), Pad(timeSecs % 60, 2);
    PaddedField(timeSecs / 3600, 2);
    PaddedField((timeSecs % 3600) / 60, 2);
    PaddedField(timeSecs % 60, 2);
  }

  /** The dates and times of day shown for an earlier and a later second. */
  lemma MomentsInOrder(a: nat, b: nat) returns (d: Date, d': Date)
    requires a < b
    ensures FormatRfc3339(a) == Render(d, a % SECS_PER_DAY) && CivilYear(a) == d.year && ValidDate(d)
    ensures FormatRfc3339(b) == Render(d', b % SECS_PER_DAY) && CivilYear(b) == d'.year && ValidDate(d')
    ensures Before(d, d') || (d == d' && a % SECS_PER_DAY < b % SECS_PER_DAY)
  {
    var day, day' := a / SECS_PER_DAY, b / SECS_PER_DAY;
    d := ShownOn(day);
    d' := ShownOn(day');
    DaysInOrder(day, d, day', d');
  }

  lemma DaysInOrder(m: nat, d: Date, n: nat, d': Date)
    requires ValidDate(d) && ValidDate(d') && d.year >= 1970 && d'.year >= 1970
    requires DayNumber(d) == m && DayNumber(d') == n && m <= n
    ensures if m == n then d == d' else Before(d, d')
  {
    DayNumberOrder(d, d');
  }

  /** The texts of a date and time and of a later one: a year and what comes after it. */
  lemma TextParts(d: Date, time: nat, d': Date, time': nat)
    returns (year: string, rest: string, year': string, rest': string)
    requires ValidDate(d) && ValidDate(d') && time < SECS_PER_DAY && time' < SECS_PER_DAY
    requires Before(d, d') || (d == d' && time < time')
    ensures Render(d, time) == year + "-" + rest && Render(d', time') == year' + "-" + rest'
    ensures AllDigits(year) && AllDigits(year') && Value(year) == d.year && Value(year') == d'.year
    ensures |rest| == |rest'| && |year| <= |year'| && (d.year == d'.year ==> LexLess(rest, rest'))
  {
    year, rest := RenderedParts(d, time);
    year', rest' := RenderedParts(d', time');
    PadLengthMonotone(d.year, d'.year, 4);
    RestOrder(d, time, d', time');
  }

  lemma RenderedParts(d: Date, time: nat) returns (year: string, rest: string)
    ensures year == Pad(d.year, 4) && AllDigits(year) && Value(year) == d.year
    ensures rest == AfterYear(Pad(d.month, 2), Pad(d.day, 2), ClockOf(time))
    ensures Render(d, time) == year + "-" + rest
  {
    year, rest := Pad(d.year, 4), AfterYear(Pad(d.month, 2), Pad(d.day, 2), ClockOf(time));
    PadReads(d.year, 4);
    LayoutIsNested(year, Pad(d.month, 2), Pad(d.day, 2),
                   Pad(time / 3600, 2), Pad((time % 3600) / 60, 2), Pad(time % 60, 2));
  }

  /** Within a year the text after it sorts by date, then by time of day. */
  lemma RestOrder(d: Date, time: nat, d': Date, time': nat)
    requires ValidDate(d) && ValidDate(d') && time < SECS_PER_DAY && time' < SECS_PER_DAY
    ensures var rest, rest' := AfterYear(Pad(d.month, 2), Pad(d.day, 2), ClockOf(time)),
                               AfterYear(Pad(d'.month, 2), Pad(d'.day, 2), ClockOf(time'));
            && |rest| == |rest'|
            && (d.year == d'.year && (Before(d, d') || (d == d' && time < time')) ==> LexLess(rest, rest'))
  {
    PaddedField(d.month, 2);
    PaddedField(d.day, 2);
    PaddedField(d'.month, 2);
    PaddedField(d'.day, 2);
    ClockOfOrder(time, time');
    TwoFieldsFirst(Pad(d.month, 2), Pad(d.day, 2), Pad(d'.month, 2), Pad(d'.day, 2), '-', 'T', ClockOf(time), ClockOf(time'));
  }

  /** For every two moments: the text of the earlier one sorts first exactly when its year
      is at most the later year cut down to as many digits. */
  lemma TextOrderExactly(a: nat, b: nat) returns (more: nat)
    requires a < b
    ensures |FormatRfc3339(a)| + more == |FormatRfc3339(b)| && Pow10(more) > 0
    ensures LexLess(FormatRfc3339(a), FormatRfc3339(b)) <==> CivilYear(a) <= CivilYear(b) / Pow10(more)
    ensures CivilYear(a) <= CivilYear(b)
  {
    var d, d' := MomentsInOrder(a, b);
    more := TextOrderOf(FormatRfc3339(a), d, a % SECS_PER_DAY, FormatRfc3339(b), d', b % SECS_PER_DAY);
  }

  lemma TextOrderOf(s: string, d: Date, time: nat, s': string, d': Date, time': nat) returns (more: nat)
    requires ValidDate(d) && ValidDate(d') && time < SECS_PER_DAY && time' < SECS_PER_DAY
    requires Before(d, d') || (d == d' && time < time')
    requires s == Render(d, time) && s' == Render(d', time')
    ensures |s| + more == |s'| && YearDecides(LexLess(s, s'), d.year, d'.year, more)
  {
    var year, rest, year', rest' := TextParts(d, time, d', time');
    more := |year'| - |year|;
    JoinedFirst(s, year, rest, s', year', rest', more);
  }

  /** No two moments have the same text, so if the earlier one does not sort first, the
      later one does. */
  lemma TextsDiffer(a: nat, b: nat)
    requires a < b
    ensures FormatRfc3339(a) != FormatRfc3339(b)
    ensures LexLess(FormatRfc3339(b), FormatRfc3339(a)) <==> !LexLess(FormatRfc3339(a), FormatRfc3339(b))
  {
    var more := TextOrderExactly(a, b);
    Decided(FormatRfc3339(a), FormatRfc3339(b), CivilYear(a), CivilYear(b), more);
  }

  lemma Decided(s: string, s': string, n: nat, n': nat, more: nat)
    requires |s| + more == |s'| && n <= n' && YearDecides(LexLess(s, s'), n, n', more)
    ensures s != s' && (LexLess(s', s) <==> !LexLess(s, s'))
  {
    assert more == 0 ==> LexLess(s, s');
    LexLessIrreflexive(s);
    OtherWay(s, s');
  }

  /** Section 5.1 of RFC 3339: before the year 10000 sorting the texts sorts the times. */
  lemma TextOrderIsTimeOrder(a: nat, b: nat)
    requires a < YEAR_10000 && b < YEAR_10000
    ensures LexLess(FormatRfc3339(a), FormatRfc3339(b)) <==> a < b
  {
    if a < b {
      SameWidthSorts(a, b);
    } else if b < a {
      SameWidthSorts(b, a);
      LexLessAsymmetric(FormatRfc3339(b), FormatRfc3339(a));
    } else {
      LexLessIrreflexive(FormatRfc3339(a));
    }
  }

  lemma SameWidthSorts(a: nat, b: nat)
    requires a < b < YEAR_10000
    ensures LexLess(FormatRfc3339(a), FormatRfc3339(b))
  {
    FormatWidth(a);
    FormatWidth(b);
    var more := TextOrderExactly(a, b);
    NoMoreDigits(LexLess(FormatRfc3339(a), FormatRfc3339(b)), CivilYear(a), CivilYear(b), more);
  }

  lemma NoMoreDigits(before: bool, n: nat, n': nat, more: nat)
    requires more == 0 && n <= n' && YearDecides(before, n, n', more)
    ensures before
  {
  }

  /** The texts of all moments before a bound sort by time. */
  ghost predicate SortsUpTo(bound: nat) {
    forall a: nat, b: nat :: a < b < bound ==> LexLess(FormatRfc3339(a), FormatRfc3339(b))
  }

  /** That holds exactly for bounds up to the year 10000. */
  lemma SortsUpToExactly(bound: nat)
    ensures SortsUpTo(bound) <==> bound <= YEAR_10000
  {
    if bound <= YEAR_10000 {
      forall a: nat, b: nat | a < b < bound
        ensures LexLess(FormatRfc3339(a), FormatRfc3339(b))
      {
        TextOrderIsTimeOrder(a, b);
      }
    } else {
      TextOrderFailsAtYear10000();
      LexLessAsymmetric(FormatRfc3339(YEAR_10000), FormatRfc3339(YEAR_10000 - 1));
      assert YEAR_10000 - 1 < YEAR_10000 < bound;
    }
  }

  /** Past the four-digit years the layout changes and the order is lost: the last
      second of 9999 sorts after the next one. */
  lemma TextOrderFailsAtYear10000()
    ensures LexLess(FormatRfc3339(YEAR_10000), FormatRfc3339(YEAR_10000 - 1))
  {
    var last: nat :| last == 2_932_896;
    DatesAroundYear10000(last);
    FormatUsesCalendar(YEAR_10000 - 1);
    FormatUsesCalendar(YEAR_10000);
    FirstCharacters();
  }

  lemma DatesAroundYear10000(last: nat)
    requires last == 2_932_896
    ensures NthDay((YEAR_10000 - 1) / SECS_PER_DAY) == Date(9999, 12, 31)
    ensures NthDay(YEAR_10000 / SECS_PER_DAY) == Date(10000, 1, 1)
  {
    LastFourDigitDay(last);
    assert (YEAR_10000 - 1) / SECS_PER_DAY == last && YEAR_10000 / SECS_PER_DAY == last + 1;
    assert NthDay(last + 1) == NextDay(NthDay(last));
  }

  lemma FirstCharacters()
    ensures Render(Date(10000, 1, 1), 0)[0] == '1'
    ensures Render(Date(9999, 12, 31), SECS_PER_DAY - 1)[0] == '9'
  {
    FirstDigits();
  }

  lemma FirstDigits()
    ensures Pad(10000, 4) == "10000" && Pad(9999, 4) == "9999"
  {
    assert Pad(100, 2) == "100" && Pad(99, 2) == "99";
  }
}
