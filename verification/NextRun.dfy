/** getNextRunTime of server/cronScheduler.ts over UTC minutes since the epoch, and exactly when its four-year search
    comes back empty-handed. */
module NextRun {
  import opened Wrappers
  import opened Calendar
  import opened CronExpression
  import CronField

  const DAY := 1440
  // 4 * 365 days of minutes
  const WINDOW := 1460 * DAY
  const MINUTE_MS := 60000

  datatype Failure = Malformed(error: CronField.Error) | NoNextRun

  // The date fields of a minute. The search is the same for any clock.
  type Clock = int -> Civil

  function CivilOn(d: Date, weekday: int, minuteOfDay: int): Civil {
    Civil(minuteOfDay % 60, minuteOfDay / 60, d.day, d.month, weekday)
  }

  // UTC, from the dates of the days.
  function Utc(dateOf: int -> Date): Clock {
    t => CivilOn(dateOf(t / DAY), WeekdayOf(t / DAY), t % DAY)
  }

  // The matcher of a parsed expression, over minutes.
  function Matcher(c: Cron, civil: Clock): int -> bool {
    t => Matches(c, civil(t))
  }

  ghost predicate NoMatch(matches: int -> bool, from: int, to: int) {
    forall t | from <= t < to :: !matches(t)
  }

  // The least matching minute of [t, limit).
  function FirstMatch(matches: int -> bool, t: int, limit: int): (r: Option<int>)
    ensures r.Some? ==> t <= r.value < limit && matches(r.value) && NoMatch(matches, t, r.value)
    ensures r.None? ==> NoMatch(matches, t, limit)
    decreases limit - t
  {
    if t >= limit then None
    else if matches(t) then Some(t)
    else FirstMatch(matches, t + 1, limit)
  }

  // The first minute after an instant in milliseconds.
  function StartMinute(fromMs: int): (start: int)
    ensures fromMs < start * MINUTE_MS <= fromMs + MINUTE_MS
  {
    fromMs / MINUTE_MS + 1
  }

  // The least matching minute strictly after an instant.
  ghost predicate IsNextMatch(c: Cron, civil: Clock, fromMs: int, t: int) {
    t * MINUTE_MS > fromMs && Matches(c, civil(t)) && NoMatch(Matcher(c, civil), StartMinute(fromMs), t)
  }

  function NextRunOf(parsed: Result<Cron, CronField.Error>, fromMs: int, civil: Clock): Result<int, Failure> {
    match parsed
    case Err(e) => Err(Malformed(e))
    case Ok(c) =>
      match FirstMatch(Matcher(c, civil), StartMinute(fromMs), StartMinute(fromMs) + WINDOW)
      case None => Err(NoNextRun)
      case Some(t) => Ok(t * MINUTE_MS)
  }

  function NextRunFrom(expr: string, fromMs: int, civil: Clock): Result<int, Failure> {
    NextRunOf(Parsed(expr), fromMs, civil)
  }

  // The result is the least matching minute strictly after the start, and NoNextRun is thrown exactly when no minute
  // of the window matches.
  lemma NextRunIsExact(parsed: Result<Cron, CronField.Error>, fromMs: int, civil: Clock)
    ensures match NextRunOf(parsed, fromMs, civil)
            case Ok(ms) => parsed.Ok? &&
              exists t: int :: IsNextMatch(parsed.value, civil, fromMs, t) && ms == t * MINUTE_MS
            case Err(Malformed(e)) => parsed == Err(e)
            case Err(NoNextRun) =>
              parsed.Ok? && NoMatch(Matcher(parsed.value, civil), StartMinute(fromMs), StartMinute(fromMs) + WINDOW)
  {
    if parsed.Ok? {
      var t := FirstMatch(Matcher(parsed.value, civil), StartMinute(fromMs), StartMinute(fromMs) + WINDOW);
      if t.Some? {
        assert IsNextMatch(parsed.value, civil, fromMs, t.value);
      }
    }
  }

  method FindMatch(matches: int -> bool, start: int, limit: int) returns (r: Option<int>)
    ensures r == FirstMatch(matches, start, limit)
  {
    var cursor := start;
    while cursor < limit
      invariant start <= cursor
      invariant FirstMatch(matches, start, limit) == FirstMatch(matches, cursor, limit)
    {
      if matches(cursor) {
        return Some(cursor);
      }
      cursor := cursor + 1;
    }
    return None;
  }

  method GetNextRunTime(expr: string, fromMs: int, civil: Clock) returns (r: Result<int, Failure>)
    ensures r == NextRunFrom(expr, fromMs, civil)
  {
    var parsed := ParseCron(expr);
    if parsed.Err? {
      return Err(Malformed(parsed.error));
    }
    var start := fromMs / MINUTE_MS + 1;
    var found := FindMatch(Matcher(parsed.value, civil), start, start + WINDOW);
    return if found.None? then Err(NoNextRun) else Ok(found.value * MINUTE_MS);
  }

  // ----- minutes of a date -----

  function MinuteOn(d: Date, hour: int, minute: int): int {
    DayNumber(d) * DAY + (hour * 60 + minute)
  }

  lemma CivilOfMinute(dateOf: int -> Date, d: Date, hour: int, minute: int)
    requires ValidDate(d) && 0 <= hour <= 23 && 0 <= minute <= 59 && dateOf(DayNumber(d)) == d
    ensures Utc(dateOf)(MinuteOn(d, hour, minute)) == Civil(minute, hour, d.day, d.month, WeekdayOf(DayNumber(d)))
  {
    CivilOfDay(dateOf, DayNumber(d), hour, minute);
  }

  lemma CivilOfDay(dateOf: int -> Date, n: int, hour: int, minute: int)
    requires 0 <= hour <= 23 && 0 <= minute <= 59
    ensures Utc(dateOf)(n * DAY + (hour * 60 + minute)) ==
            Civil(minute, hour, dateOf(n).day, dateOf(n).month, WeekdayOf(n))
  {
    SplitMinute(n, hour * 60 + minute);
    SplitHour(hour, minute);
  }

  lemma SplitMinute(day: int, k: int)
    requires 0 <= k < DAY
    ensures (day * DAY + k) / DAY == day && (day * DAY + k) % DAY == k
  {
  }

  lemma SplitHour(hour: int, minute: int)
    requires 0 <= minute <= 59
    ensures (hour * 60 + minute) / 60 == hour && (hour * 60 + minute) % 60 == minute
  {
  }

  // Every minute is a minute of a valid date.
  lemma MinuteOfDate(dateOf: int -> Date, t: int) returns (d: Date, hour: int, minute: int)
    requires IsCalendar(dateOf)
    ensures ValidDate(d) && 0 <= hour <= 23 && 0 <= minute <= 59 && t == MinuteOn(d, hour, minute)
    ensures d == dateOf(t / DAY)
  {
    d, hour, minute := dateOf(t / DAY), t % DAY / 60, t % DAY % 60;
  }

  // The whole of the next calendar year is inside the window.
  lemma NextYearIsInWindow(start: int, s: Date, d: Date, hour: int, minute: int)
    requires ValidDate(s) && DayNumber(s) == start / DAY
    requires ValidDate(d) && d.year == s.year + 1 && 0 <= hour <= 23 && 0 <= minute <= 59
    ensures start <= MinuteOn(d, hour, minute) < start + WINDOW
  {
    hide DayNumber, DayFromYear, ValidDate;
    DateRoundTrip(s);
    DateRoundTrip(d);
    YearLength(s.year);
    YearLength(d.year);
    assert start / DAY < DayNumber(d) < start / DAY + 732;
  }

  // ----- when the search fails -----

  // The day exists in every year.
  predicate EveryYear(month: int, day: int) {
    1 <= day <= DaysInMonth(1, month)
  }

  ghost predicate HasYearlyDay(c: Cron) {
    exists m, d | m in c.month && d in c.dom :: EveryYear(m, d)
  }

  // One of the minutes the expression names on the leap day of a year is in the window.
  ghost predicate LeapDayInWindow(c: Cron, start: int, y: int) {
    IsLeap(y) && exists h, mi | h in c.hour && mi in c.minute ::
      start <= MinuteOn(Date(y, 2, 29), h, mi) < start + WINDOW
  }

  ghost predicate Found(c: Cron, dateOf: int -> Date, start: int) {
    FirstMatch(Matcher(c, Utc(dateOf)), start, start + WINDOW).Some?
  }

  lemma DateIsFound(c: Cron, dateOf: int -> Date, start: int, d: Date, h: int, mi: int)
    requires Proper(c) && IsCalendar(dateOf) && ValidDate(d) && h in c.hour && mi in c.minute && d.month in c.month
    requires start <= MinuteOn(d, h, mi) < start + WINDOW
    requires DayMatches(c, Civil(mi, h, d.day, d.month, WeekdayOf(DayNumber(d))))
    ensures Found(c, dateOf, start)
  {
    CivilOfMinute(dateOf, d, h, mi);
    assert Matcher(c, Utc(dateOf))(MinuteOn(d, h, mi));
  }

  lemma NextYearIsFound(c: Cron, dateOf: int -> Date, start: int, d: Date)
    requires Proper(c) && IsCalendar(dateOf) && ValidDate(d) && d.month in c.month
    requires d.year == dateOf(start / DAY).year + 1
    requires DayMatches(c, Civil(0, 0, d.day, d.month, WeekdayOf(DayNumber(d))))
    ensures Found(c, dateOf, start)
  {
    EmptyOrNot(c.hour);
    EmptyOrNot(c.minute);
    var h :| h in c.hour;
    var mi :| mi in c.minute;
    NextYearIsInWindow(start, dateOf(start / DAY), d, h, mi);
    DateIsFound(c, dateOf, start, d, h, mi);
  }

  // Some day of the first week of any month has a given weekday.
  lemma FirstWeek(y: int, m: int, w: int) returns (d: Date)
    requires 1 <= m <= 12 && 0 <= w <= 6
    ensures ValidDate(d) && d.year == y && d.month == m && WeekdayOf(DayNumber(d)) == w
  {
    var first := DayNumber(Date(y, m, 1));
    d := Date(y, m, 1 + (w - first - 4) % 7);
    ReachWeekday(first, w);
    assert DayNumber(d) == first + (w - first - 4) % 7;
  }

  lemma ReachWeekday(n: int, w: int)
    requires 0 <= w <= 6
    ensures WeekdayOf(n + (w - n - 4) % 7) == w
  {
  }

  lemma WeekdaysAreFound(c: Cron, dateOf: int -> Date, start: int)
    requires Proper(c) && IsCalendar(dateOf) && !(c.dowIsWildcard && !c.domIsWildcard)
    ensures Found(c, dateOf, start)
  {
    EmptyOrNot(c.month);
    EmptyOrNot(c.dow);
    var m :| m in c.month;
    var w :| w in c.dow;
    var d := FirstWeek(dateOf(start / DAY).year + 1, m, w);
    NextYearIsFound(c, dateOf, start, d);
  }

  lemma YearlyDaysAreFound(c: Cron, dateOf: int -> Date, start: int)
    requires Proper(c) && IsCalendar(dateOf) && c.dowIsWildcard && HasYearlyDay(c)
    ensures Found(c, dateOf, start)
  {
    var m, d :| m in c.month && d in c.dom && EveryYear(m, d);
    NextYearIsFound(c, dateOf, start, Date(dateOf(start / DAY).year + 1, m, d));
  }

  lemma LeapDaysAreFound(c: Cron, dateOf: int -> Date, start: int, y: int)
    requires Proper(c) && IsCalendar(dateOf) && c.dowIsWildcard && 2 in c.month && 29 in c.dom
    requires LeapDayInWindow(c, start, y)
    ensures Found(c, dateOf, start)
  {
    var h, mi :| h in c.hour && mi in c.minute && start <= MinuteOn(Date(y, 2, 29), h, mi) < start + WINDOW;
    DateIsFound(c, dateOf, start, Date(y, 2, 29), h, mi);
  }

  // With only the day of the month to go by and no day of every year, only leap days match.
  lemma OnlyLeapDays(c: Cron, dateOf: int -> Date, t: int) returns (y: int, h: int, mi: int)
    requires Proper(c) && IsCalendar(dateOf) && c.dowIsWildcard && !c.domIsWildcard && !HasYearlyDay(c)
    requires Matches(c, Utc(dateOf)(t))
    ensures IsLeap(y) && 2 in c.month && 29 in c.dom && h in c.hour && mi in c.minute
    ensures t == MinuteOn(Date(y, 2, 29), h, mi)
  {
    var d;
    d, h, mi := MinuteOfDate(dateOf, t);
    CivilOfMinute(dateOf, d, h, mi);
    y := d.year;
    assert !EveryYear(d.month, d.day);
  }

  // The four-year search fails exactly when the day of the week is a bare star, the day of the month is not, no named
  // day exists in every year, and no minute named on 29 February falls in the window.
  lemma SearchFailsExactly(c: Cron, dateOf: int -> Date, start: int)
    requires Proper(c) && IsCalendar(dateOf)
    ensures !Found(c, dateOf, start) <==>
            && c.dowIsWildcard && !c.domIsWildcard && !HasYearlyDay(c)
            && !(2 in c.month && 29 in c.dom && exists y: int :: LeapDayInWindow(c, start, y))
  {
    if !(c.dowIsWildcard && !c.domIsWildcard) {
      WeekdaysAreFound(c, dateOf, start);
    } else if HasYearlyDay(c) {
      YearlyDaysAreFound(c, dateOf, start);
    } else if 2 in c.month && 29 in c.dom && exists y: int :: LeapDayInWindow(c, start, y) {
      var y: int :| LeapDayInWindow(c, start, y);
      LeapDaysAreFound(c, dateOf, start, y);
    } else if Found(c, dateOf, start) {
      var t := FirstMatch(Matcher(c, Utc(dateOf)), start, start + WINDOW).value;
      var y, h, mi := OnlyLeapDays(c, dateOf, t);
      assert LeapDayInWindow(c, start, y);
    }
  }

  // The search from any instant, in the civil calendar, throws exactly under that condition.
  lemma ThrowsExactly(expr: string, fromMs: int)
    requires Parsed(expr).Ok?
    ensures var c := Parsed(expr).value;
            NextRunFrom(expr, fromMs, Utc(DateOf)) == Err(NoNextRun) <==>
              && c.dowIsWildcard && !c.domIsWildcard && !HasYearlyDay(c)
              && !(2 in c.month && 29 in c.dom && exists y: int :: LeapDayInWindow(c, StartMinute(fromMs), y))
  {
    ParsedIsProper(expr);
    DateOfIsCalendar();
    ThrowsWhenNotFound(Parsed(expr).value, DateOf, fromMs);
  }

  lemma ThrowsWhenNotFound(c: Cron, dateOf: int -> Date, fromMs: int)
    requires Proper(c) && IsCalendar(dateOf)
    ensures NextRunOf(Ok(c), fromMs, Utc(dateOf)) == Err(NoNextRun) <==>
              && c.dowIsWildcard && !c.domIsWildcard && !HasYearlyDay(c)
              && !(2 in c.month && 29 in c.dom && exists y: int :: LeapDayInWindow(c, StartMinute(fromMs), y))
  {
    SearchFailsExactly(c, dateOf, StartMinute(fromMs));
  }

  lemma LeapYearsAreFourApart(y: int, z: int)
    requires IsLeap(y) && IsLeap(z) && y < z
    ensures y + 4 <= z && !IsLeap(y + 1) && !IsLeap(y + 2) && !IsLeap(y + 3)
  {
  }

  lemma LeapYearsApart(y: int, z: int)
    requires IsLeap(y) && IsLeap(z) && y < z
    ensures DayFromYear(z) >= DayFromYear(y) + 1461
  {
    LeapYearsAreFourApart(y, z);
    YearLength(y);
    YearLength(y + 1);
    YearLength(y + 2);
    YearLength(y + 3);
    YearsAscend(y + 3, z);
  }

  lemma LeapMinutesApart(y: int, z: int, hour: int, minute: int)
    requires IsLeap(y) && IsLeap(z)
    ensures var t, u := MinuteOn(Date(y, 2, 29), hour, minute), MinuteOn(Date(z, 2, 29), hour, minute);
            t < u ==> t + 1 + WINDOW <= u
  {
    if y < z {
      LeapYearsApart(y, z);
    } else if z < y {
      LeapYearsApart(z, y);
    }
  }

  lemma StartAfterMinute(t: int, ms: int)
    requires t * MINUTE_MS <= ms < (t + 1) * MINUTE_MS
    ensures StartMinute(ms) == t + 1
  {
  }

  // Leap days are at least 1461 days apart and the window has 1460, so a job that runs at one minute of 29 February
  // has no next run whenever it has just run.
  lemma LeapDayRunHasNoNext(c: Cron, dateOf: int -> Date, t: int, ms: int)
    requires Proper(c) && IsCalendar(dateOf) && c.dowIsWildcard && !c.domIsWildcard
    requires |c.minute| == |c.hour| == 1 && c.dom == {29} && c.month == {2}
    requires Matches(c, Utc(dateOf)(t)) && t * MINUTE_MS <= ms < (t + 1) * MINUTE_MS
    ensures NextRunOf(Ok(c), ms, Utc(dateOf)) == Err(NoNextRun)
  {
    StartAfterMinute(t, ms);
    var y, h, mi := OnlyLeapDays(c, dateOf, t);
    if Found(c, dateOf, t + 1) {
      var u := FirstMatch(Matcher(c, Utc(dateOf)), t + 1, t + 1 + WINDOW).value;
      var z, h', mi' := OnlyLeapDays(c, dateOf, u);
      OnlyElement(c.hour, h, h');
      OnlyElement(c.minute, mi, mi');
      LeapMinutesApart(y, z, h, mi);
    }
  }

  lemma OnlyElement(s: set<int>, a: int, b: int)
    requires |s| == 1 && a in s && b in s
    ensures a == b
  {
    assert |s - {a}| == 0;
    assert b !in s - {a};
  }
}
