/** The minute-by-minute cron search: it finds the next matching minute, and exactly when it never gives up. */
module CronSearch {
  import opened Wrappers
  import opened Settings
  import opened Calendar
  import opened CronFields
  import opened CronSpecs

  /** The day rule: when both fields are restricted either one is enough. */
  predicate DayMatches(c: CronSpec, dayOfMonth: int, weekday: int) {
    if !c.dom.wildcard && !c.dow.wildcard then dayOfMonth in c.dom.values || weekday in c.dow.values
    else dayOfMonth in c.dom.values && weekday in c.dow.values
  }

  predicate DateMatches(c: CronSpec, day: int) {
    MonthOf(day) in c.month.values && DayMatches(c, DayOf(day), Weekday(day))
  }

  predicate ClockMatches(c: CronSpec, minuteOfDay: int) {
    minuteOfDay % 60 in c.minute.values && minuteOfDay / 60 in c.hour.values
  }

  predicate Matches(c: CronSpec, loc: Location, t: int) {
    ClockMatches(c, MinuteOfDay(loc, t)) && DateMatches(c, LocalDay(loc, t))
  }

  /** The first matching minute from next on, up to the deadline. */
  function ScanCron(c: CronSpec, loc: Location, next: int, deadline: int): Option<int>
    decreases deadline - next
  {
    if next > deadline then None
    else if Matches(c, loc, next) then Some(next)
    else ScanCron(c, loc, next + MINUTE, deadline)
  }

  /** When the search for the minute after t ends. */
  function CronDeadline(loc: Location, t: int): int {
    AddYears(loc, NextMinute(t), 5)
  }

  function NextMatch(c: CronSpec, loc: Location, after: int): Option<int> {
    ScanCron(c, loc, NextMinute(after), CronDeadline(loc, after))
  }

  /** A minute that the expression selects. */
  predicate Selected(c: CronSpec, loc: Location, t: int) {
    t % MINUTE == 0 && Matches(c, loc, t)
  }

  /** `found` is the first selected minute after t, or there is none up to the deadline. */
  ghost predicate FirstSelected(c: CronSpec, loc: Location, after: int, deadline: int, found: Option<int>) {
    match found
    case Some(n) =>
      after < n <= deadline && Selected(c, loc, n) && forall t :: after < t < n ==> !Selected(c, loc, t)
    case None => forall t :: after < t <= deadline ==> !Selected(c, loc, t)
  }

  lemma NoMarkBetween(mark: int, t: int)
    requires mark % MINUTE == 0 && mark < t < mark + MINUTE
    ensures t % MINUTE != 0
  {
  }

  lemma {:induction false} ScanFindsFirst(c: CronSpec, loc: Location, after: int, next: int, deadline: int)
    requires after < next && next % MINUTE == 0
    requires forall t :: after < t < next ==> !Selected(c, loc, t)
    ensures FirstSelected(c, loc, after, deadline, ScanCron(c, loc, next, deadline))
    decreases deadline - next
  {
    hide Matches;
    if next <= deadline && !Matches(c, loc, next) {
      forall t | after < t < next + MINUTE ensures !Selected(c, loc, t) {
        if t > next {
          NoMarkBetween(next, t);
        }
      }
      ScanFindsFirst(c, loc, after, next + MINUTE, deadline);
    }
  }

  /** The search is exact in every location: the first selected minute strictly after t. */
  lemma NextMatchFirst(c: CronSpec, loc: Location, after: int)
    ensures FirstSelected(c, loc, after, CronDeadline(loc, after), NextMatch(c, loc, after))
  {
    var next, deadline := NextMinute(after), CronDeadline(loc, after);
    hide Matches, CronDeadline;
    forall t | after < t < next ensures !Selected(c, loc, t) {
      NoMarkBetween(next - MINUTE, t);
    }
    ScanFindsFirst(c, loc, after, next, deadline);
  }

  method CronNext(c: CronSpec, loc: Location, after: int) returns (found: Option<int>)
    ensures found == NextMatch(c, loc, after)
    ensures FirstSelected(c, loc, after, CronDeadline(loc, after), found)
  {
    NextMatchFirst(c, loc, after);
    var deadline := CronDeadline(loc, after);
    found := ScanFrom(c, loc, NextMinute(after), deadline);
  }

  /** The loop of the search. */
  method ScanFrom(c: CronSpec, loc: Location, start: int, deadline: int) returns (found: Option<int>)
    ensures found == ScanCron(c, loc, start, deadline)
  {
    var next := start;
    while next <= deadline
      invariant ScanCron(c, loc, start, deadline) == ScanCron(c, loc, next, deadline)
      decreases deadline - next
    {
      if Matches(c, loc, next) {
        return Some(next);
      }
      next := next + MINUTE;
    }
    return None;
  }

  // ----- what an expression selects

  /** The instant, on a whole minute, whose wall clock in `loc` shows this date and time. */
  predicate Shows(loc: Location, t: int, y: int, month: int, d: int, hour: int, minute: int)
    requires 1 <= month <= 12
  {
    t % MINUTE == 0 && t + loc(t / MINUTE) * MINUTE == DayNumber(y, month, d) * DAY + (hour * 60 + minute) * MINUTE
  }

  lemma ShownMinute(loc: Location, t: int, day: int, minuteOfDay: int)
    requires 0 <= minuteOfDay < 1440 && t % MINUTE == 0
    requires t + loc(t / MINUTE) * MINUTE == day * DAY + minuteOfDay * MINUTE
    ensures LocalDay(loc, t) == day && MinuteOfDay(loc, t) == minuteOfDay
  {
    var k := t / MINUTE;
    assert t == k * MINUTE;
    assert (k + loc(k)) * MINUTE == (1440 * day + minuteOfDay) * MINUTE;
    assert LocalMinute(loc, t) == 1440 * day + minuteOfDay;
  }

  /** In every location an expression selects an instant exactly when the date and time that a wall clock shows
      are in its fields, where of two restricted day fields one is enough. */
  lemma SelectedIff(c: CronSpec, loc: Location, t: int, y: int, month: int, d: int, hour: int, minute: int)
    requires ValidDate(y, month, d) && 0 <= hour < 24 && 0 <= minute < 60 && Shows(loc, t, y, month, d, hour, minute)
    ensures Selected(c, loc, t) <==>
      && minute in c.minute.values && hour in c.hour.values && month in c.month.values
      && (d in c.dom.values || (!c.dom.wildcard && !c.dow.wildcard && Weekday(DayNumber(y, month, d)) in c.dow.values))
      && (Weekday(DayNumber(y, month, d)) in c.dow.values || (!c.dom.wildcard && !c.dow.wildcard && d in c.dom.values))
  {
    ShownMinute(loc, t, DayNumber(y, month, d), hour * 60 + minute);
    DateRoundTrip(y, month, d);
    assert (hour * 60 + minute) % 60 == minute && (hour * 60 + minute) / 60 == hour;
    hide LocalDay, MinuteOfDay, DayNumber, Weekday, YearOf, MonthOf, DayOf;
  }

  /** The whole range of a field, as "*" gives it. */
  function Every(lo: int, hi: int): CronField {
    CronField(Range(lo, hi), true)
  }

  function Range(lo: int, hi: int): (values: set<int>)
    ensures forall v :: v in values <==> lo <= v <= hi
    decreases hi - lo
  {
    if lo > hi then {} else {lo} + Range(lo + 1, hi)
  }

  function AnyWeekday(c: CronSpec): CronSpec {
    c.(dow := Every(0, 6))
  }

  function AnyDay(c: CronSpec): CronSpec {
    c.(dom := Every(1, 31))
  }

  lemma DayRuleCombines(c: CronSpec, d: int, weekday: int)
    requires 1 <= d <= 31 && 0 <= weekday <= 6
    ensures DayMatches(AnyWeekday(c), d, weekday) <==> d in c.dom.values
    ensures DayMatches(AnyDay(c), d, weekday) <==> weekday in c.dow.values
  {
    hide Range;
    assert d in Every(1, 31).values && weekday in Every(0, 6).values;
  }

  /** With both day fields restricted an expression selects what it selects without the one or without the
      other; with one of them "*", what it selects without both. */
  lemma DayFieldsCombine(c: CronSpec, loc: Location, t: int)
    ensures !c.dom.wildcard && !c.dow.wildcard ==>
      (Selected(c, loc, t) <==> Selected(AnyWeekday(c), loc, t) || Selected(AnyDay(c), loc, t))
    ensures c.dom.wildcard || c.dow.wildcard ==>
      (Selected(c, loc, t) <==> Selected(AnyWeekday(c), loc, t) && Selected(AnyDay(c), loc, t))
  {
    var day := LocalDay(loc, t);
    DayInRange(day);
    DayRuleCombines(c, DayOf(day), Weekday(day));
    hide LocalDay, MinuteOfDay, Weekday, YearOf, MonthOf, DayOf, Every, Range;
  }

  lemma DayInRange(day: int)
    ensures 1 <= DayOf(day) <= 31 && 0 <= Weekday(day) <= 6
  {
  }

  /** The earlier of two times, if there are any. */
  function Earlier(a: Option<int>, b: Option<int>): Option<int> {
    if a.None? then b else if b.None? then a else if a.value <= b.value then a else b
  }

  /** So the next time of an expression with both day fields restricted is the earlier of the next times
      without the one and without the other. */
  lemma NextMatchCombines(c: CronSpec, loc: Location, after: int)
    requires !c.dom.wildcard && !c.dow.wildcard
    ensures NextMatch(c, loc, after) == Earlier(NextMatch(AnyWeekday(c), loc, after), NextMatch(AnyDay(c), loc, after))
  {
    NextMatchFirst(c, loc, after);
    NextMatchFirst(AnyWeekday(c), loc, after);
    NextMatchFirst(AnyDay(c), loc, after);
    forall t ensures Selected(c, loc, t) <==> Selected(AnyWeekday(c), loc, t) || Selected(AnyDay(c), loc, t) {
      DayFieldsCombine(c, loc, t);
    }
    hide NextMatch, Selected, CronDeadline, AnyWeekday, AnyDay;
    EarlierIsFirst(c, AnyWeekday(c), AnyDay(c), loc, after, CronDeadline(loc, after),
                   NextMatch(c, loc, after), NextMatch(AnyWeekday(c), loc, after), NextMatch(AnyDay(c), loc, after));
  }

  lemma EarlierIsFirst(c: CronSpec, a: CronSpec, b: CronSpec, loc: Location, after: int, deadline: int,
                       nc: Option<int>, na: Option<int>, nb: Option<int>)
    requires forall t :: Selected(c, loc, t) <==> Selected(a, loc, t) || Selected(b, loc, t)
    requires FirstSelected(c, loc, after, deadline, nc)
    requires FirstSelected(a, loc, after, deadline, na) && FirstSelected(b, loc, after, deadline, nb)
    ensures nc == Earlier(na, nb)
  {
    hide Selected;
  }

  // ----- exactly when the search never gives up

  /** Days month m has in every year. */
  function SureLength(m: int): int {
    if m == 2 then 28 else MonthLength(1970, m)
  }

  /** The expression names a weekday, or a day that some of its months have every year. */
  ghost predicate Recurs(c: CronSpec) {
    !c.dow.wildcard ||
    exists m, d :: m in c.month.values && d in c.dom.values && 1 <= m <= 12 && 1 <= d <= SureLength(m)
  }

  /** The instant of a date and a minute of that day, in UTC. */
  function InstantOf(day: int, minuteOfDay: int): int {
    day * DAY + minuteOfDay * MINUTE
  }

  lemma InstantParts(day: int, minuteOfDay: int)
    requires 0 <= minuteOfDay < 1440
    ensures var t := InstantOf(day, minuteOfDay);
      t % MINUTE == 0 && LocalDay(UTC, t) == day && MinuteOfDay(UTC, t) == minuteOfDay
  {
    var t := InstantOf(day, minuteOfDay);
    assert t == (1440 * day + minuteOfDay) * MINUTE;
    assert t / MINUTE == 1440 * day + minuteOfDay;
    LocalUTC(t);
  }

  lemma SureDateValid(y: int, m: int, d: int)
    requires 1 <= m <= 12 && 1 <= d <= SureLength(m)
    ensures ValidDate(y, m, d)
  {
  }

  /** Any seven days in a row have every weekday. */
  lemma WeekdayWithin(first: int, w: int) returns (d: int)
    requires 0 <= w <= 6
    ensures 1 <= d <= 7 && Weekday(first + d - 1) == w
  {
    var k := (first + 4) % 7;
    d := if w >= k then 1 + w - k else 8 + w - k;
  }

  /** Some day among the first seven of a month has a given weekday. */
  lemma WeekdayInMonth(y: int, m: int, w: int) returns (d: int)
    requires 1 <= m <= 12 && 0 <= w <= 6
    ensures 1 <= d <= 7 && Weekday(DayNumber(y, m, d)) == w
  {
    var first := DayNumber(y, m, 1);
    d := WeekdayWithin(first, w);
    assert DayNumber(y, m, d) == first + d - 1;
  }

  /** A recurring expression matches on some day of every year. */
  lemma MatchesEveryYear(c: CronSpec, y: int) returns (m: int, d: int)
    requires WellFormed(c) && Recurs(c)
    ensures ValidDate(y, m, d) && DateMatches(c, DayNumber(y, m, d))
  {
    if !c.dow.wildcard {
      m :| m in c.month.values && 1 <= m <= 12;
      var w :| w in c.dow.values && 0 <= w <= 6;
      d := WeekdayInMonth(y, m, w);
    } else {
      m, d :| m in c.month.values && d in c.dom.values && 1 <= m <= 12 && 1 <= d <= SureLength(m);
      SureDateValid(y, m, d);
    }
    DateRoundTrip(y, m, d);
  }

  lemma {:induction false} MonthStartsLate(y: int, m: int)
    requires 1 <= m <= 12
    ensures MonthStart(y, m) >= 0
  {
    if m > 1 {
      MonthStartsLate(y, m - 1);
    }
  }

  /** A date five years after year y lies beyond every day of year y + 1. */
  lemma FiveYearsCover(y: int, m: int, d: int, later: int)
    requires 1 <= m <= 12 && d >= 1 && later < YearStart(y + 2)
    ensures later < DayNumber(y + 5, m, d)
  {
    YearStartMonotone(y + 2, y + 5);
    MonthStartsLate(y + 5, m);
  }

  /** A recurring expression matches on a day after this one and before the same date five years on. */
  lemma MatchesWithinFiveYears(c: CronSpec, day: int) returns (later: int)
    requires WellFormed(c) && Recurs(c)
    ensures day < later < DayYearsOn(day, 5) && DateMatches(c, later)
  {
    hide DateMatches, MonthStart, WellFormed, Recurs;
    var y := YearOf(day);
    var m, d := MatchesEveryYear(c, y + 1);
    later := DayNumber(y + 1, m, d);
    DateInYear(y + 1, m, d);
    YearsTile(y + 1);
    MonthStartsLate(y + 1, m);
    FiveYearsCover(y, MonthOf(day), DayOf(day), later);
  }

  lemma ClockHits(c: CronSpec) returns (minuteOfDay: int)
    requires WellFormed(c)
    ensures 0 <= minuteOfDay < 1440 && ClockMatches(c, minuteOfDay)
  {
    var minute :| minute in c.minute.values && 0 <= minute <= 59;
    var hour :| hour in c.hour.values && 0 <= hour <= 23;
    minuteOfDay := 60 * hour + minute;
  }

  lemma InstantSelected(c: CronSpec, day: int, minuteOfDay: int)
    requires DateMatches(c, day) && ClockMatches(c, minuteOfDay) && 0 <= minuteOfDay < 1440
    ensures Selected(c, UTC, InstantOf(day, minuteOfDay))
  {
    InstantParts(day, minuteOfDay);
  }

  lemma InstantInDay(day: int, minuteOfDay: int)
    requires 0 <= minuteOfDay < 1440
    ensures day * DAY <= InstantOf(day, minuteOfDay) < day * DAY + DAY
  {
  }

  /** Some minute of a matching day matches. */
  lemma MinuteSelected(c: CronSpec, day: int) returns (t: int)
    requires WellFormed(c) && DateMatches(c, day)
    ensures Selected(c, UTC, t) && day * DAY <= t < day * DAY + DAY
  {
    var minuteOfDay := ClockHits(c);
    InstantSelected(c, day, minuteOfDay);
    InstantInDay(day, minuteOfDay);
    t := InstantOf(day, minuteOfDay);
  }

  lemma LaterDay(next: int, day: int, later: int, t: int, last: int)
    requires day == next / DAY && day < later < last && later * DAY <= t < later * DAY + DAY
    ensures next < t <= next + (last - day) * DAY
  {
    assert next == day * DAY + next % DAY;
    assert (later - day) * DAY >= DAY;
    assert (last - day) * DAY == (later - day) * DAY + (last - later) * DAY;
    assert (last - later) * DAY >= DAY;
  }

  lemma DeadlineOf(after: int)
    ensures var next := NextMinute(after);
      CronDeadline(UTC, after) == next + (DayYearsOn(next / DAY, 5) - next / DAY) * DAY
  {
    hide AddYears, DayYearsOn, NextMinute;
    YearsInUTC(NextMinute(after), 5);
  }

  /** A minute on a day strictly between this one and the same date five years on is within the deadline. */
  lemma WithinDeadline(after: int, later: int, t: int)
    requires NextMinute(after) / DAY < later < DayYearsOn(NextMinute(after) / DAY, 5)
    requires later * DAY <= t < later * DAY + DAY
    ensures after < t <= CronDeadline(UTC, after)
  {
    hide CronDeadline, DayYearsOn;
    var next := NextMinute(after);
    var last := DayYearsOn(next / DAY, 5);
    DeadlineOf(after);
    LaterDay(next, next / DAY, later, t, last);
  }

  lemma SelectedWithinFiveYears(c: CronSpec, day: int) returns (later: int, t: int)
    requires WellFormed(c) && Recurs(c)
    ensures day < later < DayYearsOn(day, 5) && Selected(c, UTC, t) && later * DAY <= t < later * DAY + DAY
  {
    later := MatchesWithinFiveYears(c, day);
    t := MinuteSelected(c, later);
  }

  lemma RecurringFound(c: CronSpec, after: int)
    requires WellFormed(c) && Recurs(c)
    ensures NextMatch(c, UTC, after).Some?
  {
    var later, t := SelectedWithinFiveYears(c, NextMinute(after) / DAY);
    WithinDeadline(after, later, t);
    NextMatchFirst(c, UTC, after);
  }

  // ----- the other expressions

  /** A match of any other expression is on 29 February. */
  lemma OnlyLeapDays(c: CronSpec, day: int)
    requires WellFormed(c) && !Recurs(c) && DateMatches(c, day)
    ensures MonthOf(day) == 2 && DayOf(day) == 29 && IsLeap(YearOf(day))
  {
    assert DayOf(day) in c.dom.values;
    assert !(MonthOf(day) in c.month.values && DayOf(day) in c.dom.values && 1 <= MonthOf(day) <= 12 &&
             1 <= DayOf(day) <= SureLength(MonthOf(day)));
  }

  /** A leap year with no other in the five years after it, such as 2096. */
  predicate LeapGap(y: int) {
    IsLeap(y) && !IsLeap(y + 1) && !IsLeap(y + 2) && !IsLeap(y + 3) && !IsLeap(y + 4) && !IsLeap(y + 5)
  }

  lemma YearBetween(y: int, a: int, b: int)
    requires YearStart(a) <= YearStart(y + 1) - 1 && YearStart(y) < YearStart(b + 1)
    ensures a <= y <= b
  {
    if y + 1 <= a {
      YearStartMonotone(y + 1, a);
    }
    if b + 1 <= y {
      YearStartMonotone(b + 1, y);
    }
  }

  /** From 1 March of such a year there is no leap day for five years. */
  lemma NoLeapDay(y: int, day: int)
    requires LeapGap(y) && DayNumber(y, 3, 1) <= day <= DayNumber(y + 5, 3, 1)
    ensures !(MonthOf(day) == 2 && DayOf(day) == 29)
  {
    hide YearOf, MonthOf, DayOf, YearStart, MonthStart;
    var z := YearOf(day);
    MonthStarts(y);
    MonthStarts(y + 5);
    MonthStarts(z);
    YearsTile(y + 5);
    YearBetween(z, y, y + 5);
  }

  lemma MinuteMarks(first: int, last: int, k: int)
    requires first * 1440 - 1 < k <= last * 1440
    ensures first <= k / 1440 <= last
  {
  }

  lemma DayMarks(first: int, last: int, after: int, t: int)
    requires after == first * DAY - MINUTE && t % MINUTE == 0
    requires after < t <= first * DAY + (last - first) * DAY
    ensures first <= LocalDay(UTC, t) <= last
  {
    var k := t / MINUTE;
    assert t == k * MINUTE;
    assert first * DAY == (first * 1440) * MINUTE;
    assert first * DAY + (last - first) * DAY == (last * 1440) * MINUTE;
    assert (first * 1440 - 1) * MINUTE < k * MINUTE <= (last * 1440) * MINUTE;
    MinuteMarks(first, last, k);
    assert LocalMinute(UTC, t) == k;
  }

  lemma DayAfter(first: int)
    ensures NextMinute(first * DAY - MINUTE) == first * DAY && first * DAY / DAY == first
  {
    assert first * DAY == (first * 1440) * MINUTE;
  }

  lemma DeadlineAfter(first: int, last: int)
    requires DayYearsOn(first, 5) == last
    ensures CronDeadline(UTC, first * DAY - MINUTE) == first * DAY + (last - first) * DAY
  {
    hide CronDeadline, DayYearsOn, NextMinute;
    DayAfter(first);
    DeadlineOf(first * DAY - MINUTE);
  }

  /** No match on the days from first to last means none found from just before first. */
  lemma NoneInDays(c: CronSpec, first: int, last: int, after: int)
    requires after == first * DAY - MINUTE && DayYearsOn(first, 5) == last
    requires forall day :: first <= day <= last ==> !DateMatches(c, day)
    ensures NextMatch(c, UTC, after).None?
  {
    DeadlineAfter(first, last);
    NextMatchFirst(c, UTC, after);
    var found := NextMatch(c, UTC, after);
    if found.Some? {
      DayMarks(first, last, after, found.value);
    }
  }

  lemma GapDay(c: CronSpec, y: int, day: int)
    requires WellFormed(c) && !Recurs(c) && LeapGap(y) && DayNumber(y, 3, 1) <= day <= DayNumber(y + 5, 3, 1)
    ensures !DateMatches(c, day)
  {
    NoLeapDay(y, day);
    if DateMatches(c, day) {
      OnlyLeapDays(c, day);
    }
  }

  /** Five years of days on which a non-recurring expression never matches. */
  lemma GapDays(c: CronSpec, y: int) returns (first: int, last: int)
    requires WellFormed(c) && !Recurs(c) && LeapGap(y)
    ensures DayYearsOn(first, 5) == last
    ensures forall day :: first <= day <= last ==> !DateMatches(c, day)
  {
    first, last := DayNumber(y, 3, 1), DayNumber(y + 5, 3, 1);
    DateYearsOnSame(y, 3, 1, 5);
    forall day | first <= day <= last ensures !DateMatches(c, day) {
      GapDay(c, y, day);
    }
  }

  /** So there is an instant from which it finds nothing. */
  lemma GapNotFound(c: CronSpec) returns (after: int)
    requires WellFormed(c) && !Recurs(c)
    ensures NextMatch(c, UTC, after).None?
  {
    var y := 2096;
    var first, last := GapDays(c, y);
    after := first * DAY - MINUTE;
    NoneInDays(c, first, last, after);
  }

  /** In UTC an accepted expression finds a match within five years of every instant exactly when it names
      a weekday, or a day that one of its months has every year. */
  lemma NeverGivesUpIff(c: CronSpec)
    requires WellFormed(c)
    ensures (forall after :: NextMatch(c, UTC, after).Some?) <==> Recurs(c)
  {
    if Recurs(c) {
      forall after ensures NextMatch(c, UTC, after).Some? {
        RecurringFound(c, after);
      }
    } else {
      var after := GapNotFound(c);
    }
  }
}
