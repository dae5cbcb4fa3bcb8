/** What handlers returned, against what the breaker and the retries make of it. */
module Outcomes {
  import opened Names
  import opened Wrappers
  import opened Leases
  import opened Settings
  import opened ManagerModel
  import opened SingleFlight
  import opened History

  /** The outcome that the handler for t returned last. */
  ghost function LastReturn(log: seq<Event>, t: Name): Option<bool> {
    if log == [] then None
    else
      match log[|log| - 1]
      case Returned(u, ok) => if u == t then Some(ok) else LastReturn(log[..|log| - 1], t)
      case _ => LastReturn(log[..|log| - 1], t)
  }

  /** Failures that handlers for t returned since the last success they returned. */
  ghost function FailuresReturned(log: seq<Event>, t: Name): nat {
    if log == [] then 0
    else
      match log[|log| - 1]
      case Returned(u, ok) =>
        if u != t then FailuresReturned(log[..|log| - 1], t)
        else if ok then 0
        else FailuresReturned(log[..|log| - 1], t) + 1
      case _ => FailuresReturned(log[..|log| - 1], t)
  }

  /** The outcome for t that is returned but not yet recorded. */
  ghost function Pending(m: Manager, t: Name): Option<bool> {
    if t in m.active && m.active[t] in m.procs && m.procs[m.active[t]].Reporting?
    then Some(m.procs[m.active[t]].ok) else None
  }

  /** Failures returned, given those recorded and the outcome still to be recorded. */
  function WithPending(recorded: nat, pending: Option<bool>): nat {
    match pending
    case None => recorded
    case Some(ok) => if ok then 0 else recorded + 1
  }

  ghost predicate ReturnsCounted(m: Manager) {
    forall t: Name :: FailuresReturned(m.log, t) == WithPending(Streak(m.log, t), Pending(m, t))
  }

  ghost predicate ReportsReturned(m: Manager) {
    forall p :: p in m.procs && m.procs[p].Reporting? ==>
      LastReturn(m.log, m.procs[p].req.target.id) == Some(m.procs[p].ok)
  }

  /** An entry after `log`: an outcome recorded is the outcome returned, and none is outstanding at a
      reservation. */
  ghost predicate EntryRight(log: seq<Event>, e: Event) {
    && (e.Succeeded? ==> LastReturn(log, e.target) == Some(true))
    && (e.Failed? ==> LastReturn(log, e.target) == Some(false))
    && (e.Reserved? ==> FailuresReturned(log, e.target) == Streak(log, e.target))
  }

  ghost predicate RecordedAsReturned(log: seq<Event>) {
    forall i :: 0 <= i < |log| ==> EntryRight(log[..i], log[i])
  }

  ghost predicate OutcomesSound(m: Manager) {
    Flight(m) && ReturnsCounted(m) && ReportsReturned(m) && RecordedAsReturned(m.log)
  }

  lemma OutcomesInit(cfg: Config, worker: Name, hasStore: bool)
    ensures OutcomesSound(Init(cfg, worker, hasStore))
  {
    FlightInit(cfg, worker, hasStore);
  }

  lemma RecordedAppend(log: seq<Event>, e: Event)
    requires RecordedAsReturned(log) && EntryRight(log, e)
    ensures RecordedAsReturned(log + [e])
  {
    hide EntryRight;
    var more := log + [e];
    forall i | 0 <= i < |more| ensures EntryRight(more[..i], more[i]) {
      assert more[..i] == if i < |log| then log[..i] else log;
    }
  }

  lemma CountsAppend(log: seq<Event>, e: Event, t: Name)
    ensures LastReturn(log + [e], t) == if e.Returned? && e.target == t then Some(e.ok) else LastReturn(log, t)
    ensures FailuresReturned(log + [e], t) ==
      if !(e.Returned? && e.target == t) then FailuresReturned(log, t)
      else if e.ok then 0 else FailuresReturned(log, t) + 1
    ensures Streak(log + [e], t) ==
      if e == Succeeded(t) then 0 else if e.Failed? && e.target == t then Streak(log, t) + 1 else Streak(log, t)
  {
    Appended(log, e);
  }

  /** What a step means for the outcomes: the handler returns, its outcome is recorded, or neither. */
  lemma OutcomeOfStep(m: Manager, clock: int, p: nat, s: Step)
    requires Flight(m) && Enabled(m, Proceed(p, s))
    ensures var n, x, t := NextProceed(m, clock, p, s), m.procs[p], m.procs[p].req.target.id;
      if s.Return? then
        && n.log == m.log + [Returned(t, s.ok)] && x.Handling? && n.active == m.active && n.procs[p].Reporting?
        && n.procs[p].ok == s.ok && n.procs[p].req == x.req
      else if s.Report? then
        && n.log == m.log + [if x.ok then Succeeded(t) else Failed(t, clock)] && x.Reporting? && n.active == m.active
        && p in n.procs && !n.procs[p].Reporting?
      else
        && !x.Reporting? && (p in n.procs ==> !n.procs[p].Reporting?)
        && (n.log == m.log || (n.log == m.log + [n.log[|m.log|]] && !n.log[|m.log|].Returned? &&
                               !n.log[|m.log|].Succeeded? && !n.log[|m.log|].Failed? &&
                               (n.log[|m.log|].Reserved? ==> n.log[|m.log|].target == t && t !in m.active)))
  {
    EventOfStep(m, clock, p, s);
  }

  /** A step that neither returns nor records an outcome. */
  lemma OutcomesQuiet(m: Manager, n: Manager, p: nat, y: Option<Proc>, e: Option<Event>)
    requires OutcomesSound(m) && Flight(n) && ProcsMoved(m, n, p, y)
    requires !m.procs[p].Reporting? && (y.Some? ==> !y.value.Reporting?)
    requires n.log == if e.Some? then m.log + [e.value] else m.log
    requires e.Some? ==> !e.value.Returned? && !e.value.Succeeded? && !e.value.Failed?
    requires e.Some? && e.value.Reserved? ==> e.value.target !in m.active
    ensures OutcomesSound(n)
  {
    PendingQuiet(m, n, p, y);
    hide Flight, ProcsMoved, LastReturn, FailuresReturned, Streak, Pending;
    if e.Some? {
      forall t: Name
        ensures LastReturn(n.log, t) == LastReturn(m.log, t)
        ensures FailuresReturned(n.log, t) == FailuresReturned(m.log, t) && Streak(n.log, t) == Streak(m.log, t)
      {
        CountsAppend(m.log, e.value, t);
      }
      if e.value.Reserved? {
        NotActive(m, e.value.target);
      }
      RecordedAppend(m.log, e.value);
    }
  }

  lemma NotActive(m: Manager, t: Name)
    requires ReturnsCounted(m) && t !in m.active
    ensures FailuresReturned(m.log, t) == Streak(m.log, t)
  {
  }

  lemma PendingQuiet(m: Manager, n: Manager, p: nat, y: Option<Proc>)
    requires Flight(m) && Flight(n) && ProcsMoved(m, n, p, y)
    requires !m.procs[p].Reporting? && (y.Some? ==> !y.value.Reporting?)
    ensures forall t: Name :: Pending(n, t) == Pending(m, t)
    ensures forall q :: q in n.procs && n.procs[q].Reporting? ==> q in m.procs && m.procs[q] == n.procs[q]
  {
  }

  /** The process in flight for t is the one that t is active for. */
  lemma PendingOf(m: Manager, p: nat, t: Name)
    requires Flight(m) && p in m.procs && InFlight(m.procs[p])
    ensures Pending(m, t) ==
      if t == m.procs[p].req.target.id then (if m.procs[p].Reporting? then Some(m.procs[p].ok) else None)
      else Pending(m, t)
  {
  }

  lemma PendingElsewhere(m: Manager, n: Manager, p: nat, y: Proc, t: Name)
    requires Flight(m) && Flight(n) && ProcsMoved(m, n, p, Some(y)) && InFlight(m.procs[p]) && InFlight(y)
    requires n.active == m.active && y.req == m.procs[p].req && t != y.req.target.id
    ensures Pending(n, t) == Pending(m, t)
  {
  }

  /** The handler returns, or its outcome is recorded. */
  lemma OutcomesMoved(m: Manager, n: Manager, p: nat, y: Proc, e: Event)
    requires OutcomesSound(m) && Flight(n) && ProcsMoved(m, n, p, Some(y)) && InFlight(m.procs[p]) && InFlight(y)
    requires n.active == m.active && y.req == m.procs[p].req && n.log == m.log + [e]
    requires var x := m.procs[p];
      || (x.Handling? && y.Reporting? && e == Returned(x.req.target.id, y.ok))
      || (x.Reporting? && !y.Reporting? && x.ok && e == Succeeded(x.req.target.id))
      || (x.Reporting? && !y.Reporting? && !x.ok && e.Failed? && e.target == x.req.target.id)
    ensures OutcomesSound(n)
  {
    var u := y.req.target.id;
    forall t: Name ensures FailuresReturned(n.log, t) == WithPending(Streak(n.log, t), Pending(n, t)) {
      CountsAppend(m.log, e, t);
      PendingOf(m, p, t);
      PendingOf(n, p, t);
      if t != u {
        PendingElsewhere(m, n, p, y, t);
      }
      assert FailuresReturned(m.log, t) == WithPending(Streak(m.log, t), Pending(m, t));
      hide LastReturn, FailuresReturned, Streak, Pending, Flight, ProcsMoved;
    }
    OthersReported(m, n, p, y);
    forall q | q in n.procs && n.procs[q].Reporting?
      ensures LastReturn(n.log, n.procs[q].req.target.id) == Some(n.procs[q].ok)
    {
      CountsAppend(m.log, e, n.procs[q].req.target.id);
      hide LastReturn, FailuresReturned, Streak, Pending, Flight, ProcsMoved;
    }
    assert m.procs[p].Reporting? ==> LastReturn(m.log, u) == Some(m.procs[p].ok);
    RecordedAppend(m.log, e);
  }

  lemma OthersReported(m: Manager, n: Manager, p: nat, y: Proc)
    requires Flight(m) && Flight(n) && ProcsMoved(m, n, p, Some(y)) && InFlight(y)
    ensures forall q :: q in n.procs && n.procs[q].Reporting? && q != p ==>
      q in m.procs && m.procs[q] == n.procs[q] && n.procs[q].req.target.id != y.req.target.id
  {
  }

  lemma OutcomesProceed(m: Manager, clock: int, p: nat, s: Step)
    requires OutcomesSound(m) && Enabled(m, Proceed(p, s))
    ensures OutcomesSound(NextProceed(m, clock, p, s))
  {
    var n, x := NextProceed(m, clock, p, s), m.procs[p];
    var y := After(m, clock, x, s);
    FlightProceed(m, clock, p, s);
    ProceedMoves(m, clock, p, s);
    OutcomeOfStep(m, clock, p, s);
    hide NextProceed, OutcomesSound, Flight;
    if s.Return? || s.Report? {
      OutcomesMoved(m, n, p, y.value, n.log[|m.log|]);
    } else {
      OutcomesQuiet(m, n, p, y, if n.log == m.log then None else Some(n.log[|m.log|]));
    }
  }

  lemma OutcomesKept(m: Manager, clock: int, a: Action)
    requires OutcomesSound(m) && Enabled(m, a)
    ensures OutcomesSound(Next(m, clock, a))
  {
    FlightKept(m, clock, a);
    match a
    case Proceed(p, s) => OutcomesProceed(m, clock, p, s);
    case Submit(t, attempt, job, delayed) =>
    case Renew(r) =>
  }

  // ----- what follows a run of the handler

  /** The handler returns: nothing changes yet but the phase of its process. */
  lemma AfterReturn(m: Manager, p: nat, ok: bool, clock: int) returns (n: Manager)
    requires p in m.procs && m.procs[p].Handling?
    ensures Enabled(m, Proceed(p, Return(ok))) && n == Next(m, clock, Proceed(p, Return(ok)))
    ensures n == m.(procs := m.procs[p := Reporting(m.procs[p].req, ok)],
                    log := m.log + [Returned(m.procs[p].req.target.id, ok)])
  {
    n := Next(m, clock, Proceed(p, Return(ok)));
  }

  /** The outcome is recorded, and a failure below the last attempt leaves a request waiting. */
  lemma AfterReport(m: Manager, p: nat, clock: int) returns (n: Manager)
    requires p in m.procs && m.procs[p].Reporting?
    ensures Enabled(m, Proceed(p, Report)) && n == Next(m, clock, Proceed(p, Report))
    ensures var req, ok := m.procs[p].req, m.procs[p].ok; var t := req.target.id;
      var before, after := CircuitOf(m, t), CircuitOf(n, t);
      && n.procs == (if !ok && req.attempt < m.cfg.maxAttempts
                     then m.procs[p := Releasing(req, LAYERS)]
                          [m.next := Waiting(Request(EMPTY, req.attempt + 1, req.target, req.chain, req.first))]
                     else m.procs[p := Releasing(req, LAYERS)])
      && after.failures == (if ok then 0 else before.failures + 1)
      && after.openUntil == (if ok then ZERO_TIME
                             else if before.failures + 1 >= m.cfg.circuitThreshold then clock + m.cfg.circuitOpenFor
                             else before.openUntil)
  {
    n := Next(m, clock, Proceed(p, Report));
  }

  /** The history says what happens: a request becomes active, is released, has its handler called, and the
      handler returns. */
  lemma LogMeans(m: Manager, clock: int, p: nat, s: Step)
    requires Flight(m) && Enabled(m, Proceed(p, s))
    ensures var n, x, t := NextProceed(m, clock, p, s), m.procs[p], m.procs[p].req.target.id;
      && (t !in m.active && t in n.active ==> n.log == m.log + [Reserved(t, clock)])
      && (t in m.active && t !in n.active ==> n.log == m.log + [Left(t)])
      && (!x.Handling? && p in n.procs && n.procs[p].Handling? ==> n.log == m.log + [Called(x.req.chain, x.req.first)])
      && (x.Handling? ==> p in n.procs && n.procs[p].Reporting? && n.log == m.log + [Returned(t, n.procs[p].ok)])
  {
    EventOfStep(m, clock, p, s);
    PhaseOfFlight(m, clock, m.procs[p], s);
  }
}
