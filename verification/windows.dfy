/** Schedule windows and blackouts: when a target may be queued. */
module Windows {
  import opened Names
  import opened Wrappers
  import opened Settings
  import opened Calendar

  datatype Device = Device(id: Name, grp: Name, site: Name, vendor: Name, role: Name, enabled: bool)

  datatype Window = Window(
    days: seq<int>, start: int, end: int, loc: Location,
    grps: seq<Name>, sites: seq<Name>, vendors: seq<Name>, roles: seq<Name>)

  /** What NewPlanner checks. */
  predicate ValidBounds(w: Window) {
    0 <= w.start < DAY && 0 <= w.end <= DAY
  }

  predicate Selects(values: seq<Name>, got: Name) {
    values == [] || got in values
  }

  predicate AppliesTo(w: Window, d: Device) {
    Selects(w.grps, d.grp) && Selects(w.sites, d.site) && Selects(w.vendors, d.vendor) && Selects(w.roles, d.role)
  }

  function Applicable(ws: seq<Window>, d: Device): (r: seq<Window>)
    ensures forall w :: w in r <==> w in ws && AppliesTo(w, d)
  {
    if ws == [] then []
    else (if AppliesTo(ws[0], d) then [ws[0]] else []) + Applicable(ws[1..], d)
  }

  predicate DayAllowed(w: Window, day: int) {
    w.days == [] || day in w.days
  }

  function PreviousWeekday(day: int): int {
    if day == 0 then 6 else day - 1
  }

  /** Nanoseconds since local midnight. */
  function TimeOfDay(loc: Location, t: int): (tod: int)
    ensures 0 <= tod < DAY
  {
    MinuteOfDay(loc, t) * MINUTE + t % MINUTE
  }

  predicate Contains(w: Window, t: int) {
    var tod := TimeOfDay(w.loc, t);
    var today := Weekday(LocalDay(w.loc, t));
    if w.start == w.end then DayAllowed(w, today)
    else if w.start < w.end then DayAllowed(w, today) && w.start <= tod < w.end
    else if tod >= w.start then DayAllowed(w, today)
    else if tod < w.end then DayAllowed(w, PreviousWeekday(today))
    else false
  }

  // ----- what a window is

  /** The wall clock, in nanoseconds: the offset of the location is added. */
  function LocalTime(loc: Location, t: int): int {
    t + loc(t / MINUTE) * MINUTE
  }

  /** The opening of a window on a day. Equal bounds mean the whole day. */
  function Opening(w: Window, day: int): int {
    day * DAY + if w.start == w.end then 0 else w.start
  }

  /** How long it stays open; past midnight if its end comes before its start. */
  function OpenFor(w: Window): int {
    if w.start == w.end then DAY
    else if w.start < w.end then w.end - w.start
    else DAY - w.start + w.end
  }

  /** The opening of a day is under way, which is any day or one of those listed. */
  predicate UnderWay(w: Window, day: int, t: int) {
    (w.days == [] || Weekday(day) in w.days) && Opening(w, day) <= LocalTime(w.loc, t) < Opening(w, day) + OpenFor(w)
  }

  lemma LocalTimeSplits(loc: Location, t: int)
    ensures LocalTime(loc, t) == LocalDay(loc, t) * DAY + TimeOfDay(loc, t)
  {
    var m := LocalMinute(loc, t);
    assert m == 1440 * (m / 1440) + m % 1440;
    assert t == (t / MINUTE) * MINUTE + t % MINUTE;
    assert m * MINUTE == (t / MINUTE) * MINUTE + loc(t / MINUTE) * MINUTE;
  }

  lemma DayBefore(day: int)
    ensures PreviousWeekday(Weekday(day)) == Weekday(day - 1)
  {
  }

  /** A window holds exactly the instants at which an opening on one of its days is under way: a window past
      midnight counts by the day on which it opens. */
  lemma ContainsMeans(w: Window, t: int)
    requires ValidBounds(w)
    ensures Contains(w, t) <==> exists day :: UnderWay(w, day, t)
  {
    hide LocalTime, TimeOfDay, LocalDay, Weekday, PreviousWeekday;
    var today := LocalDay(w.loc, t);
    LocalTimeSplits(w.loc, t);
    DayBefore(today);
    if Contains(w, t) {
      assert UnderWay(w, today, t) || UnderWay(w, today - 1, t);
    }
    if day :| UnderWay(w, day, t) {
      assert day == today || day == today - 1;
    }
  }

  predicate InSome(ws: seq<Window>, t: int) {
    exists i :: 0 <= i < |ws| && Contains(ws[i], t)
  }

  /** Windows and blackouts that apply to a target. */
  datatype Rules = Rules(windows: seq<Window>, blackouts: seq<Window>)

  predicate WindowBlocks(rules: Rules, t: int) {
    rules.windows != [] && !InSome(rules.windows, t)
  }

  predicate BlackoutBlocks(rules: Rules, t: int) {
    !WindowBlocks(rules, t) && InSome(rules.blackouts, t)
  }

  predicate Allowed(rules: Rules, t: int) {
    !WindowBlocks(rules, t) && !InSome(rules.blackouts, t)
  }

  method AllowedAt(rules: Rules, t: int) returns (ok: bool, windowBlocked: bool, blackoutBlocked: bool)
    ensures ok == Allowed(rules, t)
    ensures windowBlocked == WindowBlocks(rules, t) && blackoutBlocked == BlackoutBlocks(rules, t)
  {
    if |rules.windows| > 0 {
      var inWindow := false;
      for i := 0 to |rules.windows|
        invariant !inWindow && forall j :: 0 <= j < i ==> !Contains(rules.windows[j], t)
      {
        if Contains(rules.windows[i], t) {
          inWindow := true;
          break;
        }
      }
      if !inWindow {
        return false, true, false;
      }
    }
    for i := 0 to |rules.blackouts|
      invariant forall j :: 0 <= j < i ==> !Contains(rules.blackouts[j], t)
    {
      if Contains(rules.blackouts[i], t) {
        return false, false, true;
      }
    }
    return true, false, false;
  }

  function Deadline(candidate: int): int {
    AddYears(UTC, candidate, 1)
  }

  /** What a search yields: the instant, if any, and what blocked on the way there. */
  datatype Found = Found(at: Option<int>, byWindow: bool, byBlackout: bool)

  /** The search from mark `next` on, up to the deadline. */
  function Scan(rules: Rules, next: int, deadline: int, byWindow: bool, byBlackout: bool): Found
    decreases deadline - next
  {
    if next > deadline then Found(None, byWindow, byBlackout)
    else if Allowed(rules, next) then Found(Some(next), byWindow, byBlackout)
    else
      Scan(rules, next + MINUTE, deadline,
           byWindow || WindowBlocks(rules, next), byBlackout || BlackoutBlocks(rules, next))
  }

  function Search(rules: Rules, candidate: int, deadline: int): Found {
    if Allowed(rules, candidate) then Found(Some(candidate), false, false)
    else
      Scan(rules, NextMinute(candidate), deadline, WindowBlocks(rules, candidate), BlackoutBlocks(rules, candidate))
  }

  /** The instants the search looks at: the candidate and the marks after it. */
  predicate Examined(candidate: int, t: int) {
    t == candidate || (t > candidate && t % MINUTE == 0)
  }

  /** What the search has seen before `bound`. */
  ghost predicate NoneAllowed(rules: Rules, candidate: int, bound: int) {
    forall t :: Examined(candidate, t) && t < bound ==> !Allowed(rules, t)
  }

  ghost predicate WindowMet(rules: Rules, candidate: int, bound: int) {
    exists t :: Examined(candidate, t) && t < bound && WindowBlocks(rules, t)
  }

  ghost predicate BlackoutMet(rules: Rules, candidate: int, bound: int) {
    exists t :: Examined(candidate, t) && t < bound && BlackoutBlocks(rules, t)
  }

  /** Nothing is examined between a mark and the next one, nor between two bounds that enclose no mark. */
  lemma BoundMoves(rules: Rules, candidate: int, next: int)
    requires next % MINUTE == 0 && next > candidate
    ensures NoneAllowed(rules, candidate, next + MINUTE) <==> NoneAllowed(rules, candidate, next) && !Allowed(rules, next)
    ensures WindowMet(rules, candidate, next + MINUTE) <==> WindowMet(rules, candidate, next) || WindowBlocks(rules, next)
    ensures BlackoutMet(rules, candidate, next + MINUTE) <==>
            BlackoutMet(rules, candidate, next) || BlackoutBlocks(rules, next)
  {
    assert Examined(candidate, next);
    assert forall t :: Examined(candidate, t) ==> (t < next + MINUTE <==> t < next || t == next);
  }

  lemma BoundSettles(rules: Rules, candidate: int, next: int, deadline: int)
    requires next % MINUTE == 0 && candidate <= deadline < next <= deadline + MINUTE
    ensures NoneAllowed(rules, candidate, next) <==> NoneAllowed(rules, candidate, deadline + 1)
    ensures WindowMet(rules, candidate, next) <==> WindowMet(rules, candidate, deadline + 1)
    ensures BlackoutMet(rules, candidate, next) <==> BlackoutMet(rules, candidate, deadline + 1)
  {
    assert forall t :: Examined(candidate, t) ==> (t < next <==> t < deadline + 1);
  }

  lemma BoundStarts(rules: Rules, candidate: int)
    ensures var next := NextMinute(candidate);
      && (NoneAllowed(rules, candidate, next) <==> !Allowed(rules, candidate))
      && (WindowMet(rules, candidate, next) <==> WindowBlocks(rules, candidate))
      && (BlackoutMet(rules, candidate, next) <==> BlackoutBlocks(rules, candidate))
  {
    assert Examined(candidate, candidate);
    assert forall t :: Examined(candidate, t) ==> (t < NextMinute(candidate) <==> t == candidate);
  }

  lemma DeadlineIsLater(candidate: int)
    ensures Deadline(candidate) >= candidate + 365 * DAY
  {
    YearsOnUTC(candidate, 1);
  }

  /** The outcome is the first examined instant that is allowed, or None if there is none by the
      deadline; the flags say exactly what was met before it. */
  ghost predicate FirstExamined(rules: Rules, candidate: int, deadline: int, f: Found) {
    var bound := if f.at.Some? then f.at.value else deadline + 1;
    && (f.at.Some? ==> Examined(candidate, bound) && Allowed(rules, bound) && candidate <= bound <= deadline)
    && NoneAllowed(rules, candidate, bound)
    && f.byWindow == WindowMet(rules, candidate, bound)
    && f.byBlackout == BlackoutMet(rules, candidate, bound)
  }

  lemma {:induction false} ScanFinds(rules: Rules, candidate: int, next: int, deadline: int, w: bool, b: bool)
    requires candidate < next <= deadline + MINUTE && next % MINUTE == 0 && candidate <= deadline
    requires NoneAllowed(rules, candidate, next)
    requires w == WindowMet(rules, candidate, next) && b == BlackoutMet(rules, candidate, next)
    ensures FirstExamined(rules, candidate, deadline, Scan(rules, next, deadline, w, b))
    decreases deadline - next
  {
    if next > deadline {
      BoundSettles(rules, candidate, next, deadline);
    } else if !Allowed(rules, next) {
      BoundMoves(rules, candidate, next);
      ScanFinds(rules, candidate, next + MINUTE, deadline,
                w || WindowBlocks(rules, next), b || BlackoutBlocks(rules, next));
    }
  }

  lemma SearchFinds(rules: Rules, candidate: int, deadline: int)
    requires candidate <= deadline
    ensures FirstExamined(rules, candidate, deadline, Search(rules, candidate, deadline))
  {
    BoundStarts(rules, candidate);
    if !Allowed(rules, candidate) {
      ScanFinds(rules, candidate, NextMinute(candidate), deadline,
                WindowBlocks(rules, candidate), BlackoutBlocks(rules, candidate));
    }
  }

  method NextAllowed(rules: Rules, candidate: int) returns (f: Found)
    ensures f == Search(rules, candidate, Deadline(candidate))
    ensures FirstExamined(rules, candidate, Deadline(candidate), f)
  {
    var deadline := Deadline(candidate);
    DeadlineIsLater(candidate);
    SearchFinds(rules, candidate, deadline);
    f := SearchUntil(rules, candidate, deadline);
  }

  /** The loop of the search. */
  method SearchUntil(rules: Rules, candidate: int, deadline: int) returns (f: Found)
    ensures f == Search(rules, candidate, deadline)
  {
    var ok, windowBlocked, blackoutBlocked := AllowedAt(rules, candidate);
    if ok {
      return Found(Some(candidate), false, false);
    }
    var byWindow, byBlackout := windowBlocked, blackoutBlocked;
    var next := candidate - candidate % MINUTE;
    if !(next > candidate) {
      next := next + MINUTE;
    }
    assert next == NextMinute(candidate);
    while next <= deadline
      invariant Search(rules, candidate, deadline) == Scan(rules, next, deadline, byWindow, byBlackout)
      decreases deadline - next
    {
      ok, windowBlocked, blackoutBlocked := AllowedAt(rules, next);
      byWindow := byWindow || windowBlocked;
      byBlackout := byBlackout || blackoutBlocked;
      if ok {
        return Found(Some(next), byWindow, byBlackout);
      }
      next := next + MINUTE;
    }
    return Found(None, byWindow, byBlackout);
  }
}
