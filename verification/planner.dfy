/** The planner and the sweep loop that it drives. */
module Planners {
  import opened Names
  import opened Wrappers
  import opened Integers
  import opened Settings
  import opened Calendar
  import opened Windows
  import opened WindowSearch
  import opened CronFields
  import opened CronSpecs
  import opened Text

  datatype PlanError = BadCron(e: CronError) | BadWindow | NoSchedule | NoWindow | NoMatch

  /** A planner: `cron` is the parsed expression, if there is one. */
  datatype Planner = Planner(
    interval: int, cron: Option<CronSpec>, loc: Location,
    jitterPercent: int, jitterMax: int, jitter: (Name, int) -> int,
    windows: seq<Window>, blackouts: seq<Window>)

  /** What construction guarantees. */
  ghost predicate Checked(p: Planner) {
    && (p.cron.Some? ==> WellFormed(p.cron.value))
    && (forall w :: w in p.windows || w in p.blackouts ==> ValidBounds(w))
  }

  /** Builds a planner: the cron text is parsed unless it is blank, and every window is checked. */
  method NewPlanner(draft: Planner, cronText: string) returns (r: Result<Planner, PlanError>)
    ensures r.Ok? <==>
      && (TrimSpace(cronText) != "" ==> SpecOf(Fields(cronText)).Ok?)
      && (forall w :: w in draft.windows || w in draft.blackouts ==> ValidBounds(w))
    ensures r.Ok? ==>
      && Checked(r.value)
      && r.value == draft.(cron := if TrimSpace(cronText) == "" then None else Some(SpecOf(Fields(cronText)).value))
  {
    var p := draft.(cron := None);
    if TrimSpace(cronText) != "" {
      var spec := ParseCron(cronText);
      if spec.Err? {
        return Err(BadCron(spec.error));
      }
      p := p.(cron := Some(spec.value));
    }
    var all := draft.windows + draft.blackouts;
    for i := 0 to |all|
      invariant forall j :: 0 <= j < i ==> ValidBounds(all[j])
    {
      var w := all[i];
      if w.start < 0 || w.start >= DAY || w.end < 0 || w.end > DAY {
        assert w in draft.windows || w in draft.blackouts;
        return Err(BadWindow);
      }
    }
    assert forall w :: w in draft.windows || w in draft.blackouts ==> w in all;
    return Ok(p);
  }

  // ----- queue times

  /** The largest jitter, in 64-bit arithmetic. */
  function MaxJitter(p: Planner): int {
    if p.jitterPercent <= 0 then 0
    else if p.jitterMax > 0 then p.jitterMax
    else if p.interval > 0 then Hundredth(Wrap64(p.interval * p.jitterPercent))
    else 0
  }

  /** Without an explicit maximum it is the given percentage of the interval, rounded down, exactly when the
      product fits in 64 bits. */
  lemma MaxJitterExactIff(p: Planner)
    requires 0 < p.jitterPercent && p.jitterMax <= 0 && 0 < p.interval
    ensures MaxJitter(p) == p.interval * p.jitterPercent / 100 <==> p.interval * p.jitterPercent <= MAX64
  {
    assert p.interval * p.jitterPercent > 0;
    QuotientExactIff(p.interval * p.jitterPercent);
  }

  lemma QuotientExactIff(product: int)
    requires product > 0
    ensures Hundredth(Wrap64(product)) == product / 100 <==> product <= MAX64
  {
  }

  /** There is jitter only with a percentage, and an explicit maximum stands as it is. */
  lemma MaxJitterSettings(p: Planner)
    ensures p.jitterPercent <= 0 ==> MaxJitter(p) == 0
    ensures p.jitterPercent > 0 && p.jitterMax > 0 ==> MaxJitter(p) == p.jitterMax
    ensures p.jitterMax <= 0 && p.interval <= 0 ==> MaxJitter(p) == 0
  {
  }

  /** The configuration allows 100 percent of any interval. From 1068 days on the bound overflows, and there is
      no jitter at all. */
  lemma JitterVanishes(p: Planner, d: Device)
    requires p.jitterPercent == 100 && p.jitterMax <= 0 && p.interval == 1068 * DAY
    ensures MaxJitter(p) < 0 && JitterFor(p, d) == 0
  {
  }

  datatype Decision = Decision(base: int, jittered: int, queueAt: int, jitter: int, byWindow: bool, byBlackout: bool)

  function RulesFor(p: Planner, d: Device): Rules {
    Rules(Applicable(p.windows, d), Applicable(p.blackouts, d))
  }

  function JitterFor(p: Planner, d: Device): (j: int)
    ensures 0 <= j && (j == 0 || j <= MaxJitter(p))
  {
    var max := MaxJitter(p);
    if max <= 0 then 0
    else
      var j := p.jitter(d.id, max);
      if j < 0 then 0 else if j > max then max else j
  }

  /** The decision that a search for the jittered time leads to. */
  function DecisionOf(base: int, jitter: int, jittered: int, f: Found): Option<Decision> {
    match f.at
    case None => None
    case Some(at) => Some(Decision(base, jittered, at, jitter, f.byWindow, f.byBlackout))
  }

  /** The search for the first allowed instant from t on. */
  function Wait(rules: Rules, t: int): Found {
    Search(rules, t, Deadline(t))
  }

  /** The decision for a base time and a jitter. */
  function DecideFrom(rules: Rules, base: int, jitter: int, jittered: int): Option<Decision> {
    DecisionOf(base, jitter, jittered, Wait(rules, jittered))
  }

  /** The decision for a target: jitter first, then the wait for an allowed instant. */
  function Decide(p: Planner, base: int, d: Device): Option<Decision> {
    DecideFrom(RulesFor(p, d), base, JitterFor(p, d), base + JitterFor(p, d))
  }

  /** A wait ends on an allowed instant, and at once exactly when the candidate is allowed; the flags name
      what forbade an instant on the way. */
  lemma WaitSound(rules: Rules, t: int, deadline: int, f: Found)
    requires f == Search(rules, t, deadline) && t <= deadline && f.at.Some?
    ensures t <= f.at.value && Allowed(rules, f.at.value)
    ensures f.at.value == t <==> Allowed(rules, t)
    ensures f.byWindow || f.byBlackout <==> !Allowed(rules, t)
    ensures f.byWindow == WindowMet(rules, t, f.at.value) && f.byBlackout == BlackoutMet(rules, t, f.at.value)
  {
    SearchFinds(rules, t, deadline);
    if !Allowed(rules, t) {
      assert Examined(t, t);
    }
  }

  lemma WaitExact(rules: Rules, t: int)
    requires Wait(rules, t).at.Some?
    ensures OpeningsAligned(rules) ==> LeastAllowed(rules, t, Wait(rules, t).at.value)
  {
    if OpeningsAligned(rules) {
      AlignedSearchExact(rules, t);
    }
  }

  /** A target is never queued before its base time, by more than its jitter without cause, or at a forbidden
      instant; with minute-aligned windows it is queued at the first allowed instant after its jitter. */
  lemma QueuedWhenAllowed(rules: Rules, base: int, jitter: int, jittered: int)
    requires 0 <= jitter && jittered == base + jitter && DecideFrom(rules, base, jitter, jittered).Some?
    ensures var q := DecideFrom(rules, base, jitter, jittered).value;
      && base <= q.jittered <= q.queueAt && Allowed(rules, q.queueAt)
      && (q.queueAt == q.jittered <==> Allowed(rules, q.jittered))
      && (q.byWindow || q.byBlackout <==> q.queueAt != q.jittered)
      && q.byWindow == WindowMet(rules, jittered, q.queueAt) && q.byBlackout == BlackoutMet(rules, jittered, q.queueAt)
      && (OpeningsAligned(rules) ==> LeastAllowed(rules, q.jittered, q.queueAt))
  {
    WaitMeans(rules, jittered);
  }

  lemma WaitMeans(rules: Rules, t: int)
    requires Wait(rules, t).at.Some?
    ensures var f := Wait(rules, t);
      && t <= f.at.value && Allowed(rules, f.at.value)
      && (f.at.value == t <==> Allowed(rules, t))
      && (f.byWindow || f.byBlackout <==> f.at.value != t)
      && f.byWindow == WindowMet(rules, t, f.at.value) && f.byBlackout == BlackoutMet(rules, t, f.at.value)
      && (OpeningsAligned(rules) ==> LeastAllowed(rules, t, f.at.value))
  {
    DeadlineIsLater(t);
    WaitSound(rules, t, Deadline(t), Wait(rules, t));
    WaitExact(rules, t);
  }

  // ----- queue times in the terms of the policy

  /** The window names the target: each of its selectors is empty or lists what the target has. */
  predicate Concerns(w: Window, d: Device) {
    && (w.grps == [] || d.grp in w.grps)
    && (w.sites == [] || d.site in w.sites)
    && (w.vendors == [] || d.vendor in w.vendors)
    && (w.roles == [] || d.role in w.roles)
  }

  /** There are windows for the target, and none of them holds the instant. */
  ghost predicate ShutAt(p: Planner, d: Device, t: int) {
    && (exists w :: w in p.windows && Concerns(w, d))
    && forall w :: w in p.windows && Concerns(w, d) ==> !Contains(w, t)
  }

  /** Some blackout for the target holds the instant. */
  ghost predicate DarkAt(p: Planner, d: Device, t: int) {
    exists b :: b in p.blackouts && Concerns(b, d) && Contains(b, t)
  }

  /** The instant is in no blackout for the target, and in some window for it if there is one. */
  ghost predicate Permitted(p: Planner, d: Device, t: int) {
    !ShutAt(p, d, t) && !DarkAt(p, d, t)
  }

  /** The candidate, or a whole minute between it and the queue time. */
  predicate OnTheWay(q: Decision, t: int) {
    t == q.jittered < q.queueAt || (q.jittered < t < q.queueAt && t % MINUTE == 0)
  }

  /** Windows for the target open, and blackouts for it close, on whole minutes or have equal bounds. */
  ghost predicate PolicyAligned(p: Planner, d: Device) {
    && (forall w :: w in p.windows && Concerns(w, d) ==> OpensAligned(w))
    && (forall b :: b in p.blackouts && Concerns(b, d) ==> ClosesAligned(b))
  }

  lemma RulesMean(p: Planner, d: Device, t: int)
    ensures WindowBlocks(RulesFor(p, d), t) <==> ShutAt(p, d, t)
    ensures InSome(RulesFor(p, d).blackouts, t) <==> DarkAt(p, d, t)
    ensures Allowed(RulesFor(p, d), t) <==> Permitted(p, d, t)
    ensures BlackoutBlocks(RulesFor(p, d), t) <==> !ShutAt(p, d, t) && DarkAt(p, d, t)
    ensures PolicyAligned(p, d) ==> OpeningsAligned(RulesFor(p, d))
  {
    var ws, bs := Applicable(p.windows, d), Applicable(p.blackouts, d);
    assert forall w :: AppliesTo(w, d) <==> Concerns(w, d);
    hide Contains, Applicable, AppliesTo, Concerns;
    InSomeMeans(ws, t);
    InSomeMeans(bs, t);
    assert ws != [] ==> ws[0] in ws;
    hide InSome;
  }

  lemma InSomeMeans(ws: seq<Window>, t: int)
    ensures InSome(ws, t) <==> exists w :: w in ws && Contains(w, t)
  {
    hide Contains;
    if w :| w in ws && Contains(w, t) {
      var i :| 0 <= i < |ws| && ws[i] == w;
    }
  }

  /** What the jitter function answers, kept between 0 and the maximum; 0 if there is no maximum. */
  ghost predicate Jittered(p: Planner, d: Device, jitter: int) {
    var max := MaxJitter(p);
    && 0 <= jitter && (jitter == 0 || jitter <= max)
    && (0 <= p.jitter(d.id, max) <= max ==> jitter == p.jitter(d.id, max))
    && (p.jitter(d.id, max) > max > 0 ==> jitter == max)
    && (p.jitter(d.id, max) < 0 ==> jitter == 0)
  }

  /** A queue time is right: jittered from the base, permitted, delayed only with cause, and least. */
  ghost predicate QueuedRight(p: Planner, base: int, d: Device, q: Decision) {
    && q.base == base && q.jittered == base + q.jitter && Jittered(p, d, q.jitter)
    && q.jittered <= q.queueAt && Permitted(p, d, q.queueAt)
    && (q.queueAt == q.jittered <==> Permitted(p, d, q.jittered))
    && (q.byWindow <==> exists t :: OnTheWay(q, t) && ShutAt(p, d, t))
    && (q.byBlackout <==> exists t :: OnTheWay(q, t) && !ShutAt(p, d, t) && DarkAt(p, d, t))
    && (PolicyAligned(p, d) ==> forall t :: q.jittered <= t < q.queueAt ==> !Permitted(p, d, t))
  }

  /** There is no permitted instant in the year after the jittered time. */
  ghost predicate NoneInYear(p: Planner, d: Device, jittered: int) {
    forall t :: jittered <= t <= jittered + 365 * DAY ==> !Permitted(p, d, t)
  }

  lemma DecisionRight(p: Planner, base: int, d: Device, q: Decision)
    requires Decide(p, base, d) == Some(q)
    ensures QueuedRight(p, base, d, q)
  {
    JitterClamped(p, d);
    var jitter := JitterFor(p, d);
    hide JitterFor, MaxJitter, Wait, RulesFor, Permitted, PolicyAligned, Allowed, OpeningsAligned;
    hide ShutAt, DarkAt, WindowBlocks, BlackoutBlocks;
    QueuedWhenAllowed(RulesFor(p, d), base, jitter, base + jitter);
    forall t
      ensures Allowed(RulesFor(p, d), t) <==> Permitted(p, d, t)
      ensures WindowBlocks(RulesFor(p, d), t) <==> ShutAt(p, d, t)
      ensures BlackoutBlocks(RulesFor(p, d), t) <==> !ShutAt(p, d, t) && DarkAt(p, d, t)
    {
      RulesMean(p, d, t);
    }
    RulesMean(p, d, 0);
    assert forall t :: OnTheWay(q, t) <==> Examined(q.jittered, t) && t < q.queueAt;
  }

  lemma JitterClamped(p: Planner, d: Device)
    ensures Jittered(p, d, JitterFor(p, d))
  {
    hide MaxJitter;
  }

  lemma NoDecisionRight(p: Planner, base: int, d: Device)
    requires Decide(p, base, d) == None && PolicyAligned(p, d)
    ensures NoneInYear(p, d, base + JitterFor(p, d))
  {
    hide JitterFor, RulesFor, Permitted, PolicyAligned, Wait, Allowed;
    var t := base + JitterFor(p, d);
    RulesMean(p, d, t);
    NoneAllowedInYear(RulesFor(p, d), t);
    forall u ensures Allowed(RulesFor(p, d), u) <==> Permitted(p, d, u) {
      RulesMean(p, d, u);
    }
  }

  lemma NoneAllowedInYear(rules: Rules, t: int)
    requires OpeningsAligned(rules) && Wait(rules, t).at.None?
    ensures forall u :: t <= u <= t + 365 * DAY ==> !Allowed(rules, u)
  {
    AlignedSearchExact(rules, t);
    DeadlineIsLater(t);
    hide Deadline, Allowed;
  }

  method ClampedJitter(p: Planner, d: Device) returns (jitter: int)
    ensures jitter == JitterFor(p, d)
  {
    var maxJitter := MaxJitter(p);
    jitter := 0;
    if maxJitter > 0 {
      jitter := p.jitter(d.id, maxJitter);
      if jitter < 0 {
        jitter := 0;
      }
      if jitter > maxJitter {
        jitter := maxJitter;
      }
    }
  }

  method AwaitAllowed(rules: Rules, base: int, jitter: int, jittered: int) returns (decision: Option<Decision>)
    ensures decision == DecideFrom(rules, base, jitter, jittered)
  {
    var f := NextAllowed(rules, jittered);
    match f.at {
      case None => return None;
      case Some(at) => return Some(Decision(base, jittered, at, jitter, f.byWindow, f.byBlackout));
    }
  }

  /** The queue time of a target. */
  method QueueTime(p: Planner, base: int, d: Device) returns (decision: Option<Decision>)
    ensures decision == Decide(p, base, d)
    ensures decision.Some? ==> QueuedRight(p, base, d, decision.value)
    ensures decision.None? && PolicyAligned(p, d) ==>
      exists jitter :: Jittered(p, d, jitter) && NoneInYear(p, d, base + jitter)
  {
    hide Wait, MaxJitter, QueuedRight, PolicyAligned, NoneInYear;
    var jitter := ClampedJitter(p, d);
    JitterClamped(p, d);
    hide Jittered;
    decision := AwaitAllowed(RulesFor(p, d), base, jitter, base + jitter);
    if decision.Some? {
      DecisionRight(p, base, d, decision.value);
    } else if PolicyAligned(p, d) {
      NoDecisionRight(p, base, d);
    }
  }
}
