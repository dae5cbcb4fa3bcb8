/** The minute-by-minute search against all instants: when it is exact, and when its cutoff is complete. */
module WindowSearch {
  import opened Wrappers
  import opened Settings
  import opened Calendar
  import opened Windows

  /** r is the least allowed instant from c on. */
  ghost predicate LeastAllowed(rules: Rules, c: int, r: int) {
    c <= r && Allowed(rules, r) && forall t :: c <= t < r ==> !Allowed(rules, t)
  }

  function AllowedFrom(rules: Rules, c: int): Option<int> {
    Search(rules, c, Deadline(c)).at
  }

  /** The search from c answers for all instants, not just for the marks it looks at. */
  ghost predicate ExactAt(rules: Rules, c: int) {
    match AllowedFrom(rules, c)
    case Some(r) => LeastAllowed(rules, c, r) && r <= Deadline(c)
    case None => forall t :: c <= t <= Deadline(c) ==> !Allowed(rules, t)
  }

  /** The schedule opens only on whole minutes. */
  ghost predicate OpensOnMinutes(rules: Rules) {
    forall t :: Allowed(rules, t) && !Allowed(rules, t - 1) ==> t % MINUTE == 0
  }

  /** Between a forbidden instant and an allowed one, the schedule opens. */
  lemma {:induction false} OpensBetween(rules: Rules, c: int, t: int) returns (o: int)
    requires c < t && !Allowed(rules, c) && Allowed(rules, t)
    ensures c < o <= t && Allowed(rules, o) && !Allowed(rules, o - 1)
    decreases t - c
  {
    if Allowed(rules, t - 1) {
      o := OpensBetween(rules, c, t - 1);
    } else {
      o := t;
    }
  }

  lemma NoneBetween(rules: Rules, c: int, bound: int, t: int)
    requires OpensOnMinutes(rules) && !Allowed(rules, c) && NoneAllowed(rules, c, bound) && c <= t < bound
    ensures !Allowed(rules, t)
  {
    if Allowed(rules, t) {
      var o := OpensBetween(rules, c, t);
      assert Examined(c, o);
    }
  }

  lemma OpensMeansExact(rules: Rules, c: int)
    requires OpensOnMinutes(rules)
    ensures ExactAt(rules, c)
  {
    hide Deadline, Allowed;
    DeadlineIsLater(c);
    SearchFinds(rules, c, Deadline(c));
    var f := Search(rules, c, Deadline(c));
    var bound := if f.at.Some? then f.at.value else Deadline(c) + 1;
    if !Allowed(rules, c) {
      forall t | c <= t < bound ensures !Allowed(rules, t) {
        NoneBetween(rules, c, bound, t);
      }
    }
  }

  /** Just before an opening, an exact search ends on it, so on a mark. */
  lemma ExactMeansOpens(rules: Rules, t: int)
    requires ExactAt(rules, t - 1) && Allowed(rules, t) && !Allowed(rules, t - 1)
    ensures t % MINUTE == 0
  {
    hide Deadline, Allowed, FirstExamined;
    var deadline := Deadline(t - 1);
    DeadlineIsLater(t - 1);
    SearchFinds(rules, t - 1, deadline);
    OnMark(rules, t, deadline);
  }

  lemma OnMark(rules: Rules, t: int, deadline: int)
    requires t <= deadline && Allowed(rules, t) && !Allowed(rules, t - 1)
    requires FirstExamined(rules, t - 1, deadline, Search(rules, t - 1, deadline))
    requires match Search(rules, t - 1, deadline).at
      case Some(r) => LeastAllowed(rules, t - 1, r)
      case None => forall u :: t - 1 <= u <= deadline ==> !Allowed(rules, u)
    ensures t % MINUTE == 0
  {
  }

  /** The search is exact from every candidate exactly when the schedule opens on whole minutes. */
  lemma SearchExactIff(rules: Rules)
    ensures (forall c :: ExactAt(rules, c)) <==> OpensOnMinutes(rules)
  {
    if OpensOnMinutes(rules) {
      forall c ensures ExactAt(rules, c) {
        OpensMeansExact(rules, c);
      }
    } else {
      var t :| Allowed(rules, t) && !Allowed(rules, t - 1) && t % MINUTE != 0;
      if ExactAt(rules, t - 1) {
        ExactMeansOpens(rules, t);
      }
    }
  }

  // ----- openings on whole minutes

  /** The window opens on a whole minute; with equal bounds it is the whole day. */
  predicate OpensAligned(w: Window) {
    w.start == w.end || w.start % MINUTE == 0
  }

  predicate ClosesAligned(w: Window) {
    w.start == w.end || w.end % MINUTE == 0
  }

  /** Windows open, and blackouts close, on whole minutes. */
  predicate OpeningsAligned(rules: Rules) {
    (forall i :: 0 <= i < |rules.windows| ==> OpensAligned(rules.windows[i])) &&
    (forall i :: 0 <= i < |rules.blackouts| ==> ClosesAligned(rules.blackouts[i]))
  }

  /** Within a minute the wall clock only moves on by the time that passes. */
  lemma WithinMinute(loc: Location, t: int)
    requires t % MINUTE != 0
    ensures LocalDay(loc, t - 1) == LocalDay(loc, t) && TimeOfDay(loc, t - 1) == TimeOfDay(loc, t) - 1
    ensures TimeOfDay(loc, t) % MINUTE != 0
  {
    assert (t - 1) / MINUTE == t / MINUTE && (t - 1) % MINUTE == t % MINUTE - 1;
    assert TimeOfDay(loc, t) % MINUTE == t % MINUTE;
  }

  /** Within a minute an aligned window does not open and an aligned blackout does not close. */
  lemma StaysWithinMinute(w: Window, t: int)
    requires t % MINUTE != 0
    ensures OpensAligned(w) && Contains(w, t) ==> Contains(w, t - 1)
    ensures ClosesAligned(w) && Contains(w, t - 1) ==> Contains(w, t)
  {
    WithinMinute(w.loc, t);
    hide LocalDay, TimeOfDay, Weekday, DayAllowed;
  }

  lemma AlignedOpensOnMinutes(rules: Rules)
    requires OpeningsAligned(rules)
    ensures OpensOnMinutes(rules)
  {
    forall t | Allowed(rules, t) && t % MINUTE != 0 ensures Allowed(rules, t - 1) {
      forall i | 0 <= i < |rules.windows| && Contains(rules.windows[i], t)
        ensures Contains(rules.windows[i], t - 1)
      {
        StaysWithinMinute(rules.windows[i], t);
      }
      forall i | 0 <= i < |rules.blackouts| && Contains(rules.blackouts[i], t - 1)
        ensures Contains(rules.blackouts[i], t)
      {
        StaysWithinMinute(rules.blackouts[i], t);
      }
      hide Contains;
    }
  }

  /** With windows that open, and blackouts that close, on whole minutes, in any locations, the result is the
      least allowed instant. */
  lemma AlignedSearchExact(rules: Rules, c: int)
    requires OpeningsAligned(rules)
    ensures ExactAt(rules, c)
  {
    AlignedOpensOnMinutes(rules);
    OpensMeansExact(rules, c);
  }

  /** Extensive, monotone and idempotent. */
  lemma SearchIsClosure(rules: Rules, c: int, d: int)
    requires OpensOnMinutes(rules) && c <= d
    requires AllowedFrom(rules, c).Some? && AllowedFrom(rules, d).Some?
    ensures c <= AllowedFrom(rules, c).value <= AllowedFrom(rules, d).value
    ensures AllowedFrom(rules, AllowedFrom(rules, c).value) == AllowedFrom(rules, c)
  {
    OpensMeansExact(rules, c);
    OpensMeansExact(rules, d);
  }

  /** A window with seconds in its bounds: open from 00:00:30 to 00:00:45 every day. */
  const HALF_MINUTE := Window([], 30 * SECOND, 45 * SECOND, UTC, [], [], [], [])

  lemma HalfMinuteHolds(t: int)
    ensures Contains(HALF_MINUTE, t) <==> 30 * SECOND <= TimeOfDay(UTC, t) < 45 * SECOND
    ensures t % MINUTE == 0 ==> !Contains(HALF_MINUTE, t)
  {
    assert TimeOfDay(UTC, t) % MINUTE == t % MINUTE;
  }

  lemma HalfMinuteAllows(t: int)
    ensures Allowed(Rules([HALF_MINUTE], []), t) <==> Contains(HALF_MINUTE, t)
  {
    assert Rules([HALF_MINUTE], []).windows[0] == HALF_MINUTE;
  }

  lemma HalfMinuteNotFound(c: int, deadline: int)
    requires c <= deadline && !Allowed(Rules([HALF_MINUTE], []), c)
    ensures Search(Rules([HALF_MINUTE], []), c, deadline).at == None
  {
    var rules := Rules([HALF_MINUTE], []);
    SearchFinds(rules, c, deadline);
    var at := Search(rules, c, deadline).at;
    if at.Some? {
      HalfMinuteAllows(at.value);
      HalfMinuteHolds(at.value);
    }
  }

  lemma HalfMinuteOpens()
    ensures ValidBounds(HALF_MINUTE) && Allowed(Rules([HALF_MINUTE], []), 30 * SECOND)
  {
    HalfMinuteHolds(30 * SECOND);
    HalfMinuteAllows(30 * SECOND);
  }

  /** Clock values may have seconds, and then the search can miss a window altogether: from outside the one
      above, which opens every day, it never finds it. */
  lemma SecondsAreMissed(c: int)
    requires !Allowed(Rules([HALF_MINUTE], []), c)
    ensures Allowed(Rules([HALF_MINUTE], []), 30 * SECOND)
    ensures AllowedFrom(Rules([HALF_MINUTE], []), c) == None
  {
    var deadline := Deadline(c);
    DeadlineIsLater(c);
    HalfMinuteOpens();
    HalfMinuteNotFound(c, deadline);
  }

  // ----- the one-year cutoff

  ghost predicate FixedOffset(w: Window, offset: int) {
    forall minute :: w.loc(minute) == offset
  }

  ghost predicate AllFixed(rules: Rules) {
    (forall i :: 0 <= i < |rules.windows| ==> exists o :: FixedOffset(rules.windows[i], o)) &&
    (forall i :: 0 <= i < |rules.blackouts| ==> exists o :: FixedOffset(rules.blackouts[i], o))
  }

  lemma WeekOn(w: Window, t: int)
    requires exists o :: FixedOffset(w, o)
    ensures Contains(w, t + WEEK) == Contains(w, t)
  {
    var o :| FixedOffset(w, o);
    assert (t + WEEK) / MINUTE == t / MINUTE + 10080 && (t + WEEK) % MINUTE == t % MINUTE;
    var m := t / MINUTE + w.loc(t / MINUTE);
    assert LocalMinute(w.loc, t + WEEK) == m + 10080;
    assert (m + 10080) % 1440 == m % 1440 && (m + 10080) / 1440 == m / 1440 + 7;
  }

  lemma AllowedWeekOn(rules: Rules, t: int)
    requires AllFixed(rules)
    ensures Allowed(rules, t + WEEK) == Allowed(rules, t)
  {
    forall i | 0 <= i < |rules.windows| ensures Contains(rules.windows[i], t + WEEK) == Contains(rules.windows[i], t) {
      WeekOn(rules.windows[i], t);
    }
    forall i | 0 <= i < |rules.blackouts| ensures Contains(rules.blackouts[i], t + WEEK) == Contains(rules.blackouts[i], t) {
      WeekOn(rules.blackouts[i], t);
    }
  }

  lemma {:induction false} AllowedWeeksOn(rules: Rules, t: int, k: nat)
    requires AllFixed(rules)
    ensures Allowed(rules, t + k * WEEK) == Allowed(rules, t)
  {
    if k > 0 {
      AllowedWeeksOn(rules, t, k - 1);
      AllowedWeekOn(rules, t + (k - 1) * WEEK);
      assert t + (k - 1) * WEEK + WEEK == t + k * WEEK;
    }
  }

  /** Every week has an instant allowed like t. */
  lemma AllowedThisWeek(rules: Rules, c: int, t: int) returns (u: int)
    requires AllFixed(rules) && Allowed(rules, t)
    ensures c <= u < c + WEEK && Allowed(rules, u)
  {
    var k := (t - c) / WEEK;
    u := t - k * WEEK;
    assert (t - c) % WEEK == (t - c) - k * WEEK;
    if k >= 0 {
      AllowedWeeksOn(rules, u, k);
    } else {
      AllowedWeeksOn(rules, t, -k);
      assert t + (-k) * WEEK == u;
    }
  }

  /** With fixed offsets, giving up after a year is right: the error is returned only when no instant
      is ever allowed, before or after. */
  lemma CutoffComplete(rules: Rules, c: int)
    requires AllFixed(rules) && OpensOnMinutes(rules)
    ensures AllowedFrom(rules, c).None? <==> forall t :: !Allowed(rules, t)
  {
    OpensMeansExact(rules, c);
    DeadlineIsLater(c);
    if AllowedFrom(rules, c).None? {
      forall t ensures !Allowed(rules, t) {
        if Allowed(rules, t) {
          var u := AllowedThisWeek(rules, c, t);
        }
      }
    }
  }

  /** So with fixed offsets a target never waits a week or more. */
  lemma WaitsLessThanAWeek(rules: Rules, c: int)
    requires AllFixed(rules) && OpensOnMinutes(rules) && AllowedFrom(rules, c).Some?
    ensures AllowedFrom(rules, c).value < c + WEEK
  {
    OpensMeansExact(rules, c);
    var u := AllowedThisWeek(rules, c, AllowedFrom(rules, c).value);
  }
}
