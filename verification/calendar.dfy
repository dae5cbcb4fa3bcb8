/** The proleptic Gregorian calendar, and wall clocks in a location. */
module Calendar {
  import opened Settings

  const DAY: int := 24 * 60 * MINUTE
  const WEEK: int := 7 * DAY

  predicate IsLeap(y: int) {
    y % 4 == 0 && (y % 100 != 0 || y % 400 == 0)
  }

  function YearLength(y: int): int {
    if IsLeap(y) then 366 else 365
  }

  /** Day number of 1 January of year y; day 0 is 1 January 1970. */
  function YearStart(y: int): int
    decreases if y >= 1970 then y - 1970 else 1970 - y
  {
    if y == 1970 then 0
    else if y > 1970 then YearStart(y - 1) + YearLength(y - 1)
    else YearStart(y + 1) - YearLength(y)
  }

  lemma YearsTile(y: int)
    ensures YearStart(y + 1) == YearStart(y) + YearLength(y)
  {
  }

  /** The closed form. */
  lemma {:induction false} YearStartFormula(y: int)
    ensures YearStart(y) == 365 * (y - 1970) + (y - 1) / 4 - (y - 1) / 100 + (y - 1) / 400 - 477
    decreases if y >= 1970 then y - 1970 else 1970 - y
  {
    if y > 1970 {
      YearStartFormula(y - 1);
      LeapDays(y - 1);
    } else if y < 1970 {
      YearStartFormula(y + 1);
      LeapDays(y);
    }
  }

  lemma LeapDays(y: int)
    ensures y / 4 - y / 100 + y / 400 ==
      (y - 1) / 4 - (y - 1) / 100 + (y - 1) / 400 + (if IsLeap(y) then 1 else 0)
  {
    Fourths(y);
    Hundredths(y);
    FourHundredths(y);
  }

  lemma Fourths(y: int)
    ensures y / 4 - (y - 1) / 4 == if y % 4 == 0 then 1 else 0
  {
  }

  lemma Hundredths(y: int)
    ensures y / 100 - (y - 1) / 100 == if y % 100 == 0 then 1 else 0
  {
  }

  lemma FourHundredths(y: int)
    ensures y / 400 - (y - 1) / 400 == if y % 400 == 0 then 1 else 0
    ensures y % 400 == 0 ==> y % 100 == 0
    ensures y % 100 == 0 ==> y % 4 == 0
  {
  }

  function MonthLength(y: int, m: int): int {
    if m == 2 then (if IsLeap(y) then 29 else 28)
    else if m == 4 || m == 6 || m == 9 || m == 11 then 30
    else 31
  }

  /** Days of year y before month m. */
  function MonthStart(y: int, m: int): int
    requires 1 <= m <= 13
    decreases m
  {
    if m == 1 then 0 else MonthStart(y, m - 1) + MonthLength(y, m - 1)
  }

  lemma MonthStarts(y: int)
    ensures var k := if IsLeap(y) then 1 else 0;
      && MonthStart(y, 1) == 0 && MonthStart(y, 2) == 31 && MonthStart(y, 3) == 59 + k && MonthStart(y, 4) == 90 + k
      && MonthStart(y, 5) == 120 + k && MonthStart(y, 6) == 151 + k && MonthStart(y, 7) == 181 + k
      && MonthStart(y, 8) == 212 + k && MonthStart(y, 9) == 243 + k && MonthStart(y, 10) == 273 + k
      && MonthStart(y, 11) == 304 + k && MonthStart(y, 12) == 334 + k && MonthStart(y, 13) == 365 + k
  {
    assert MonthStart(y, 3) == MonthStart(y, 2) + MonthLength(y, 2);
    assert MonthStart(y, 5) == MonthStart(y, 4) + 30 && MonthStart(y, 4) == MonthStart(y, 3) + 31;
    assert MonthStart(y, 7) == MonthStart(y, 6) + 30 && MonthStart(y, 6) == MonthStart(y, 5) + 31;
    assert MonthStart(y, 9) == MonthStart(y, 8) + 31 && MonthStart(y, 8) == MonthStart(y, 7) + 31;
    assert MonthStart(y, 11) == MonthStart(y, 10) + 31 && MonthStart(y, 10) == MonthStart(y, 9) + 30;
    assert MonthStart(y, 13) == MonthStart(y, 12) + 31 && MonthStart(y, 12) == MonthStart(y, 11) + 30;
  }

  /** Day number of a date. The day may run past its month, as the Go library allows. */
  function DayNumber(y: int, m: int, d: int): int
    requires 1 <= m <= 12
  {
    YearStart(y) + MonthStart(y, m) + d - 1
  }

  predicate ValidDate(y: int, m: int, d: int) {
    1 <= m <= 12 && 1 <= d <= MonthLength(y, m)
  }

  function YearFrom(y: int, day: int): (r: int)
    requires YearStart(y) <= day
    ensures r >= y && YearStart(r) <= day < YearStart(r + 1)
    decreases day - YearStart(y)
  {
    YearsTile(y);
    if YearStart(y + 1) <= day then YearFrom(y + 1, day) else y
  }

  lemma EraStart(k: int)
    ensures YearStart(1970 + 400 * k) == 146097 * k
  {
    YearStartFormula(1970 + 400 * k);
    assert (1969 + 400 * k) / 4 == 492 + 100 * k;
    assert (1969 + 400 * k) / 100 == 19 + 4 * k;
    assert (1969 + 400 * k) / 400 == 4 + k;
  }

  function YearOf(day: int): (y: int)
    ensures YearStart(y) <= day < YearStart(y + 1)
  {
    var era := day / 146097;
    EraStart(era);
    YearFrom(1970 + 400 * era, day)
  }

  function MonthFrom(y: int, m: int, d: int): (r: int)
    requires 1 <= m <= 12 && MonthStart(y, m) <= d < MonthStart(y, 13)
    ensures m <= r <= 12 && MonthStart(y, r) <= d < MonthStart(y, r + 1)
    decreases 12 - m
  {
    if m < 12 && MonthStart(y, m + 1) <= d then MonthFrom(y, m + 1, d) else m
  }

  function MonthOf(day: int): (m: int)
    ensures 1 <= m <= 12 && MonthStart(YearOf(day), m) <= day - YearStart(YearOf(day)) < MonthStart(YearOf(day), m + 1)
  {
    YearsTile(YearOf(day));
    MonthStarts(YearOf(day));
    MonthFrom(YearOf(day), 1, day - YearStart(YearOf(day)))
  }

  function DayOf(day: int): (d: int)
    ensures ValidDate(YearOf(day), MonthOf(day), d) && DayNumber(YearOf(day), MonthOf(day), d) == day
  {
    day - YearStart(YearOf(day)) - MonthStart(YearOf(day), MonthOf(day)) + 1
  }

  lemma {:induction false} YearStartMonotone(a: int, b: int)
    requires a <= b
    ensures YearStart(a) + 365 * (b - a) <= YearStart(b)
    decreases b - a
  {
    if a < b {
      YearsTile(b - 1);
      YearStartMonotone(a, b - 1);
    }
  }

  lemma {:induction false} MonthStartMonotone(y: int, a: int, b: int)
    requires 1 <= a < b <= 13
    ensures MonthStart(y, a) + MonthLength(y, a) <= MonthStart(y, b)
    decreases b - a
  {
    if a < b - 1 {
      MonthStartMonotone(y, a, b - 1);
    }
  }

  lemma YearUnique(a: int, b: int, day: int)
    requires YearStart(a) <= day < YearStart(a + 1) && YearStart(b) <= day < YearStart(b + 1)
    ensures a == b
  {
    if a < b {
      YearStartMonotone(a + 1, b);
    } else if b < a {
      YearStartMonotone(b + 1, a);
    }
  }

  lemma MonthUnique(y: int, a: int, b: int, d: int)
    requires 1 <= a <= 12 && 1 <= b <= 12
    requires MonthStart(y, a) <= d < MonthStart(y, a + 1) && MonthStart(y, b) <= d < MonthStart(y, b + 1)
    ensures a == b
  {
    if a < b {
      MonthStartMonotone(y, a, b);
    } else if b < a {
      MonthStartMonotone(y, b, a);
    }
  }

  /** A valid date lies in its year. */
  lemma DateInYear(y: int, m: int, d: int)
    requires ValidDate(y, m, d)
    ensures 0 <= MonthStart(y, m) + d - 1 < YearLength(y) && MonthStart(y, m) + d - 1 < MonthStart(y, m + 1)
  {
    MonthStarts(y);
    MonthStartMonotone(y, m, 13);
  }

  /** A date's day number gives the date back: dates and day numbers correspond one to one. */
  lemma DateRoundTrip(y: int, m: int, d: int)
    requires ValidDate(y, m, d)
    ensures var day := DayNumber(y, m, d); YearOf(day) == y && MonthOf(day) == m && DayOf(day) == d
  {
    var day := DayNumber(y, m, d);
    DateInYear(y, m, d);
    YearsTile(y);
    YearUnique(YearOf(day), y, day);
    MonthUnique(y, MonthOf(day), m, day - YearStart(y));
  }

  /** Sunday is 0; 1 January 1970 was a Thursday. */
  function Weekday(day: int): (w: int)
    ensures 0 <= w <= 6
  {
    (day + 4) % 7
  }

  /** Weekdays follow each other, from Thursday 1 January 1970 on. */
  lemma WeekdaysFollow(day: int)
    ensures Weekday(DayNumber(1970, 1, 1)) == 4
    ensures Weekday(day + 1) == if Weekday(day) == 6 then 0 else Weekday(day) + 1
  {
    assert DayNumber(1970, 1, 1) == 0;
  }

  // ----- wall clocks

  /** A location gives the offset in minutes that holds during each UTC minute. */
  type Location = int -> int

  const UTC: Location := (minute: int) => 0

  /** The first whole minute after t. */
  function NextMinute(t: int): (n: int)
    ensures t < n <= t + MINUTE && n % MINUTE == 0
  {
    (t / MINUTE + 1) * MINUTE
  }

  /** The wall clock, in minutes since 1 January 1970 there. */
  function LocalMinute(loc: Location, t: int): int {
    t / MINUTE + loc(t / MINUTE)
  }

  function LocalDay(loc: Location, t: int): int {
    LocalMinute(loc, t) / 1440
  }

  function MinuteOfDay(loc: Location, t: int): (m: int)
    ensures 0 <= m < 1440
  {
    LocalMinute(loc, t) % 1440
  }

  /** The instant for a wall clock reading; in a gap or overlap the library's own choice. */
  function FromLocal(loc: Location, minute: int): int {
    minute - loc(minute - loc(minute))
  }

  /** The wall clock shows the reading at that instant exactly when the offset there is the one in force at
      the first guess, which takes the reading for an instant. */
  lemma FromLocalShows(loc: Location, minute: int)
    ensures var u := FromLocal(loc, minute); u + loc(u) == minute <==> loc(u) == loc(minute - loc(minute))
  {
  }

  /** The same wall clock n years on; 29 February runs over to 1 March. */
  function AddYears(loc: Location, t: int, n: int): int {
    MINUTE * FromLocal(loc, 1440 * DayYearsOn(LocalDay(loc, t), n) + MinuteOfDay(loc, t)) + t % MINUTE
  }

  /** The start of a month comes at least 365 n days later n years on. */
  lemma MonthYearsOn(y: int, m: int, n: nat)
    requires 1 <= m <= 12
    ensures YearStart(y + n) + MonthStart(y + n, m) >= YearStart(y) + MonthStart(y, m) + 365 * n
  {
    hide MonthStart, YearStart;
    MonthStarts(y);
    MonthStarts(y + n);
    if m <= 2 {
      YearStartMonotone(y, y + n);
    } else {
      YearStartMonotone(y + 1, y + n + 1);
      YearsTile(y);
      YearsTile(y + n);
    }
  }

  /** A day of month m of one year, taken in another, does not run past the year. */
  lemma MonthEnds(y: int, z: int, m: int, d: int)
    requires ValidDate(y, m, d)
    ensures MonthStart(z, m) + d - 1 < YearLength(z)
  {
    MonthStarts(z);
  }

  /** n years on is at least 365 n days later, and no later than the last day of that year. */
  lemma DateYearsOn(y: int, m: int, d: int, n: nat)
    requires ValidDate(y, m, d)
    ensures DayNumber(y, m, d) + 365 * n <= DayNumber(y + n, m, d) < YearStart(y + n) + YearLength(y + n)
  {
    hide YearStart, MonthStart;
    MonthYearsOn(y, m, n);
    MonthEnds(y, y + n, m, d);
  }

  /** The day of the same date n years on. */
  function DayYearsOn(day: int, n: int): int {
    DayNumber(YearOf(day) + n, MonthOf(day), DayOf(day))
  }

  lemma DateYearsOnSame(y: int, m: int, d: int, n: int)
    requires ValidDate(y, m, d)
    ensures DayYearsOn(DayNumber(y, m, d), n) == DayNumber(y + n, m, d)
  {
    DateRoundTrip(y, m, d);
  }

  lemma DayYearsOnSplits(day: int, n: int)
    ensures var y, m, d := YearOf(day), MonthOf(day), DayOf(day);
      ValidDate(y, m, d) && DayNumber(y, m, d) == day && DayYearsOn(day, n) == DayNumber(y + n, m, d)
  {
    hide DayNumber, YearStart, MonthStart, YearLength, YearFrom, MonthFrom;
  }

  lemma DayYearsOnLater(day: int, n: nat)
    ensures day + 365 * n <= DayYearsOn(day, n)
    ensures DayYearsOn(day, n) < YearStart(YearOf(day) + n) + YearLength(YearOf(day) + n)
  {
    var y, m, d := YearOf(day), MonthOf(day), DayOf(day);
    DayYearsOnSplits(day, n);
    hide YearOf, MonthOf, DayOf, DayNumber, DayYearsOn, YearStart, MonthStart, YearLength, ValidDate;
    DateYearsOn(y, m, d, n);
  }

  lemma ClockSplits(t: int)
    ensures t / DAY == t / MINUTE / 1440
    ensures t == (t / DAY) * DAY + (t / MINUTE % 1440) * MINUTE + t % MINUTE
  {
    var minute := t / MINUTE;
    assert t == MINUTE * minute + t % MINUTE;
    assert minute == 1440 * (minute / 1440) + minute % 1440;
  }

  lemma LocalUTC(t: int)
    ensures LocalMinute(UTC, t) == t / MINUTE && LocalDay(UTC, t) == t / DAY && MinuteOfDay(UTC, t) == t / MINUTE % 1440
    ensures forall minute :: FromLocal(UTC, minute) == minute
  {
    ClockSplits(t);
  }

  /** In UTC the wall clock is the instant. */
  lemma YearsInUTC(t: int, n: int)
    ensures AddYears(UTC, t, n) == t + (DayYearsOn(t / DAY, n) - t / DAY) * DAY
  {
    hide DayYearsOn;
    LocalUTC(t);
    ClockSplits(t);
    SameClock(t, DayYearsOn(t / DAY, n));
  }

  lemma SameClock(t: int, later: int)
    ensures MINUTE * (1440 * later + t / MINUTE % 1440) + t % MINUTE == t + (later - t / DAY) * DAY
  {
    ClockSplits(t);
  }

  lemma YearsOnUTC(t: int, n: nat)
    ensures AddYears(UTC, t, n) >= t + 365 * n * DAY
    ensures AddYears(UTC, t, n) % MINUTE == t % MINUTE
  {
    hide AddYears, DayYearsOn;
    YearsInUTC(t, n);
    DayYearsOnLater(t / DAY, n);
    WholeDays(t, DayYearsOn(t / DAY, n) - t / DAY, 365 * n);
  }

  lemma WholeDays(t: int, k: int, n: int)
    requires k >= n
    ensures t + k * DAY >= t + n * DAY && (t + k * DAY) % MINUTE == t % MINUTE
  {
    assert k * DAY == (k * 1440) * MINUTE;
  }
}
