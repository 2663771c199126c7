/** The civil calendar behind the date fields a cron expression is matched against, in UTC and for every day,
    before and after the epoch. The year of a day is found as ECMA-262 defines it (Year Number). */
module Calendar {
  datatype Date = Date(year: int, month: int, day: int)

  // ----- the calendar rules -----

  predicate IsLeap(y: int) {
    y % 4 == 0 && (y % 100 != 0 || y % 400 == 0)
  }

  function DaysInMonth(y: int, m: int): int {
    if m == 2 then (if IsLeap(y) then 29 else 28)
    else if m == 4 || m == 6 || m == 9 || m == 11 then 30
    else 31
  }

  predicate ValidDate(d: Date) {
    1 <= d.month <= 12 && 1 <= d.day <= DaysInMonth(d.year, d.month)
  }

  // The day after a date.
  function NextDay(d: Date): Date {
    if d.day < DaysInMonth(d.year, d.month) then d.(day := d.day + 1)
    else if d.month < 12 then Date(d.year, d.month + 1, 1)
    else Date(d.year + 1, 1, 1)
  }

  // ----- days since 1 January 1970 -----

  // The first day of a year.
  function DayFromYear(y: int): int {
    365 * (y - 1970) + (y - 1969) / 4 - (y - 1901) / 100 + (y - 1601) / 400
  }

  function DaysInYear(y: int): int {
    if IsLeap(y) then 366 else 365
  }

  // The days of a year before a month.
  function DaysBefore(y: int, m: int): int {
    var leap := if IsLeap(y) then 1 else 0;
    if m == 1 then 0 else if m == 2 then 31 else if m == 3 then 59 + leap else if m == 4 then 90 + leap
    else if m == 5 then 120 + leap else if m == 6 then 151 + leap else if m == 7 then 181 + leap
    else if m == 8 then 212 + leap else if m == 9 then 243 + leap else if m == 10 then 273 + leap
    else if m == 11 then 304 + leap else if m == 12 then 334 + leap else 365 + leap
  }

  function DayNumber(d: Date): int {
    DayFromYear(d.year) + DaysBefore(d.year, d.month) + d.day - 1
  }

  // The year whose first day is the last one not after the day: an estimate, off by one at most.
  function YearOf(day: int): int {
    var y := 1970 + 400 * day / 146097;
    if DayFromYear(y) > day then y - 1 else if DayFromYear(y + 1) <= day then y + 1 else y
  }

  // The month of the k-th day of a year, counted from zero.
  function MonthOf(y: int, k: int): int {
    if k < DaysBefore(y, 2) then 1 else if k < DaysBefore(y, 3) then 2 else if k < DaysBefore(y, 4) then 3
    else if k < DaysBefore(y, 5) then 4 else if k < DaysBefore(y, 6) then 5 else if k < DaysBefore(y, 7) then 6
    else if k < DaysBefore(y, 8) then 7 else if k < DaysBefore(y, 9) then 8 else if k < DaysBefore(y, 10) then 9
    else if k < DaysBefore(y, 11) then 10 else if k < DaysBefore(y, 12) then 11 else 12
  }

  function DateOf(day: int): Date {
    var y := YearOf(day);
    var k := day - DayFromYear(y);
    var m := MonthOf(y, k);
    Date(y, m, k - DaysBefore(y, m) + 1)
  }

  // 0 is Sunday.
  function WeekdayOf(day: int): (w: int)
    ensures 0 <= w < 7
  {
    (day + 4) % 7
  }

  // ----- the conversion is right -----

  lemma FourthYears(y: int)
    ensures (y - 1968) / 4 - (y - 1969) / 4 == if y % 4 == 0 then 1 else 0
  {
  }

  lemma Centuries(y: int)
    ensures (y - 1900) / 100 - (y - 1901) / 100 == if y % 100 == 0 then 1 else 0
    ensures y % 100 == 0 ==> y % 4 == 0
  {
  }

  lemma FourthCenturies(y: int)
    ensures (y - 1600) / 400 - (y - 1601) / 400 == if y % 400 == 0 then 1 else 0
    ensures y % 400 == 0 ==> y % 100 == 0
  {
  }

  lemma YearLength(y: int)
    ensures DayFromYear(y + 1) == DayFromYear(y) + DaysInYear(y)
  {
    FourthYears(y);
    Centuries(y);
    FourthCenturies(y);
    assert DayFromYear(y + 1) == 365 * (y - 1969) + (y - 1968) / 4 - (y - 1900) / 100 + (y - 1600) / 400;
  }

  lemma YearBounds(y: int)
    ensures 146097 * (y - 1970) - 600 <= 400 * DayFromYear(y) <= 146097 * (y - 1970) + 600
  {
  }

  lemma YearOfIsRight(day: int)
    ensures DayFromYear(YearOf(day)) <= day < DayFromYear(YearOf(day) + 1)
  {
    var y := 1970 + 400 * day / 146097;
    assert 146097 * (y - 1970) <= 400 * day < 146097 * (y - 1969);
    YearBounds(y - 1);
    YearBounds(y + 2);
    assert DayFromYear(y - 1) <= day < DayFromYear(y + 2);
  }

  lemma {:induction false} YearsAscend(y: int, z: int)
    requires y < z
    ensures DayFromYear(y + 1) <= DayFromYear(z)
    decreases z - y
  {
    if y + 1 < z {
      YearsAscend(y + 1, z);
      YearLength(y + 1);
    }
  }

  lemma YearIsUnique(day: int, y: int)
    requires DayFromYear(y) <= day < DayFromYear(y + 1)
    ensures YearOf(day) == y
  {
    YearOfIsRight(day);
    if YearOf(day) < y {
      YearsAscend(YearOf(day), y);
    } else if y < YearOf(day) {
      YearsAscend(y, YearOf(day));
    }
  }

  lemma MonthStarts(y: int, m: int)
    requires 1 <= m <= 12
    ensures DaysBefore(y, m + 1) == DaysBefore(y, m) + DaysInMonth(y, m) && 0 <= DaysBefore(y, m)
    ensures DaysBefore(y, 13) == DaysInYear(y) && DaysBefore(y, m + 1) <= DaysInYear(y)
  {
  }

  lemma MonthOfIsRight(y: int, k: int)
    requires 0 <= k < DaysInYear(y)
    ensures var m := MonthOf(y, k);
            1 <= m <= 12 && DaysBefore(y, m) <= k < DaysBefore(y, m + 1)
  {
  }

  lemma MonthIsUnique(y: int, k: int, m: int)
    requires 1 <= m <= 12 && DaysBefore(y, m) <= k < DaysBefore(y, m + 1)
    ensures MonthOf(y, k) == m
  {
  }

  // Every valid date has one day number, and it leads back to the date.
  lemma DateRoundTrip(d: Date)
    requires ValidDate(d)
    ensures DateOf(DayNumber(d)) == d
    ensures DayFromYear(d.year) <= DayNumber(d) < DayFromYear(d.year + 1)
  {
    MonthStarts(d.year, d.month);
    YearLength(d.year);
    YearIsUnique(DayNumber(d), d.year);
    MonthIsUnique(d.year, DayNumber(d) - DayFromYear(d.year), d.month);
  }

  // Every day has a valid date with that day number.
  lemma DayRoundTrip(day: int)
    ensures ValidDate(DateOf(day)) && DayNumber(DateOf(day)) == day
  {
    var y := YearOf(day);
    YearOfIsRight(day);
    YearLength(y);
    MonthOfIsRight(y, day - DayFromYear(y));
    MonthStarts(y, MonthOf(y, day - DayFromYear(y)));
  }

  lemma NextDayNumber(d: Date)
    requires ValidDate(d)
    ensures ValidDate(NextDay(d)) && DayNumber(NextDay(d)) == DayNumber(d) + 1
  {
    MonthStarts(d.year, d.month);
    if d.day == DaysInMonth(d.year, d.month) && d.month == 12 {
      YearLength(d.year);
      assert DaysBefore(d.year + 1, 1) == 0;
    }
  }

  // Counting days follows the calendar rules: the next day has the next date and the next weekday.
  lemma CalendarStep(d: Date)
    requires ValidDate(d)
    ensures DateOf(DayNumber(d) + 1) == NextDay(d)
    ensures WeekdayOf(DayNumber(d) + 1) == (WeekdayOf(DayNumber(d)) + 1) % 7
  {
    NextDayNumber(d);
    DateRoundTrip(NextDay(d));
    WeekdayStep(DayNumber(d));
  }

  lemma WeekdayStep(day: int)
    ensures WeekdayOf(day + 1) == (WeekdayOf(day) + 1) % 7
  {
  }

  // Day 0 is Thursday, 1 January 1970.
  lemma Epoch()
    ensures DayNumber(Date(1970, 1, 1)) == 0 && WeekdayOf(0) == 4
  {
    assert DayFromYear(1970) == 0;
  }

  // Dates and weekdays counted off by the calendar rules, forwards and backwards, from Thursday, 1 January 1970.
  ghost predicate CountedOff(dates: int -> Date, weekdays: int -> int) {
    && dates(0) == Date(1970, 1, 1) && weekdays(0) == 4
    && forall n :: Follows(dates, weekdays, n)
  }

  ghost predicate Follows(dates: int -> Date, weekdays: int -> int, n: int) {
    && ValidDate(dates(n)) && dates(n + 1) == NextDay(dates(n))
    && 0 <= weekdays(n) < 7 && weekdays(n + 1) == (weekdays(n) + 1) % 7
  }

  lemma {:induction false} CountedDay(dates: int -> Date, weekdays: int -> int, n: int)
    requires CountedOff(dates, weekdays)
    ensures DayNumber(dates(n)) == n && weekdays(n) == WeekdayOf(n)
    decreases if n < 0 then -n else n
  {
    if n == 0 {
      Epoch();
    } else {
      hide DayNumber, NextDay, WeekdayOf, ValidDate;
      var k := if n > 0 then n - 1 else n;
      CountedDay(dates, weekdays, if n > 0 then n - 1 else n + 1);
      assert Follows(dates, weekdays, k);
      NextDayNumber(dates(k));
      WeekdayStep(k);
      SameWeekday(weekdays(k), WeekdayOf(k));
    }
  }

  lemma SameWeekday(a: int, b: int)
    requires 0 <= a < 7 && 0 <= b < 7
    ensures (a + 1) % 7 == (b + 1) % 7 <==> a == b
  {
  }

  // The arithmetic agrees with counting: DateOf and WeekdayOf are the only functions counted off like that.
  lemma CalendarIsCountedOff(dates: int -> Date, weekdays: int -> int, n: int)
    requires CountedOff(dates, weekdays)
    ensures dates(n) == DateOf(n) && weekdays(n) == WeekdayOf(n)
  {
    CountedDay(dates, weekdays, n);
    assert Follows(dates, weekdays, n);
    DateRoundTrip(dates(n));
  }

  // What it is to give every day its date. There is only one such function.
  ghost predicate IsCalendar(dateOf: int -> Date) {
    && (forall d :: ValidDate(d) ==> dateOf(DayNumber(d)) == d)
    && (forall n :: ValidDate(dateOf(n)) && DayNumber(dateOf(n)) == n)
  }

  lemma DateOfIsCalendar()
    ensures IsCalendar(DateOf)
  {
    forall d | ValidDate(d)
      ensures DateOf(DayNumber(d)) == d
    {
      DateRoundTrip(d);
    }
    forall n
      ensures ValidDate(DateOf(n)) && DayNumber(DateOf(n)) == n
    {
      DayRoundTrip(n);
    }
  }
}
