/** What one manager's history says: reservations are released once, and the circuit breaker
    remembers exactly the failures since the last success. */
module History {
  import opened Names
  import opened Leases
  import opened Settings
  import opened ManagerModel
  import opened SingleFlight

  /** What one event adds to the open reservations of t. */
  function OpenBy(e: Event, t: Name): int {
    match e
    case Reserved(u, _) => if u == t then 1 else 0
    case Left(u) => if u == t then -1 else 0
    case _ => 0
  }

  /** Reservations of t minus releases of t. */
  ghost function Open(log: seq<Event>, t: Name): int {
    if log == [] then 0
    else
      Open(log[..|log| - 1], t) + OpenBy(log[|log| - 1], t)
  }

  /** Failures of t since its last success. */
  ghost function Streak(log: seq<Event>, t: Name): nat {
    if log == [] then 0
    else
      match log[|log| - 1]
      case Succeeded(u) => if u == t then 0 else Streak(log[..|log| - 1], t)
      case Failed(u, _) => Streak(log[..|log| - 1], t) + (if u == t then 1 else 0)
      case _ => Streak(log[..|log| - 1], t)
  }

  /** When t last failed. */
  ghost function LastFailure(log: seq<Event>, t: Name): int
    requires Streak(log, t) > 0
  {
    match log[|log| - 1]
    case Failed(u, at) => if u == t then at else LastFailure(log[..|log| - 1], t)
    case _ => LastFailure(log[..|log| - 1], t)
  }

  lemma Appended(log: seq<Event>, e: Event)
    ensures (log + [e])[..|log + [e]| - 1] == log && (log + [e])[|log + [e]| - 1] == e
  {
  }

  /** The circuit entry that a history calls for. */
  ghost function CircuitFor(cfg: Config, log: seq<Event>, t: Name): Circuit {
    var n := Streak(log, t);
    Circuit(n, if n > 0 && n >= cfg.circuitThreshold then LastFailure(log, t) + cfg.circuitOpenFor else ZERO_TIME)
  }

  /** The breaker is a function of the history. */
  ghost predicate BreakerExact(m: Manager) {
    forall t: Name :: CircuitOf(m, t) == CircuitFor(m.cfg, m.log, t)
  }

  /** No reservation while the circuit is open: once the failures since the last success reach the
      threshold, the next reservation is no earlier than the last failure plus the open duration. */
  ghost predicate Gated(cfg: Config, log: seq<Event>) {
    forall i :: 0 <= i < |log| && log[i].Reserved? && Streak(log[..i], log[i].target) >= cfg.circuitThreshold >= 1 ==>
      log[i].at >= LastFailure(log[..i], log[i].target) + cfg.circuitOpenFor
  }

  /** Reservations and releases balance: a target is active exactly while one is open. */
  ghost predicate ReleasedOnce(m: Manager) {
    forall t: Name :: Open(m.log, t) == if t in m.active then 1 else 0
  }

  /** A clock reading taken before the mutex section is not in the future. */
  ghost predicate ChecksPast(clock: int, m: Manager) {
    forall p :: p in m.procs && m.procs[p].Checking? ==> m.procs[p].now <= clock
  }

  ghost predicate HistorySound(clock: int, m: Manager) {
    Normal(m.cfg) && BreakerExact(m) && Gated(m.cfg, m.log) && ReleasedOnce(m) && ChecksPast(clock, m)
  }

  lemma HistoryInit(cfg: Config, worker: Name, hasStore: bool, clock: int)
    requires Normal(cfg)
    ensures HistorySound(clock, Init(cfg, worker, hasStore))
  {
  }

  lemma EventOfStep(m: Manager, clock: int, p: nat, s: Step)
    requires Flight(m) && Enabled(m, Proceed(p, s))
    ensures var n, x, t := NextProceed(m, clock, p, s), m.procs[p], m.procs[p].req.target.id;
      if s.Enter? && !TurnedAway(m, x)
      then n.log == m.log + [Reserved(t, clock)] && t !in m.active && n.active.Keys == m.active.Keys + {t}
      else if s.ClearRefused? || s.Clear?
      then n.log == m.log + [Left(t)] && t in m.active && n.active.Keys == m.active.Keys - {t}
      else n.active == m.active &&
           (n.log == m.log || n.log == m.log + [Called(x.req.chain, x.req.first)] ||
            (s.Return? && n.log == m.log + [Returned(t, s.ok)]) ||
            (s.Report? && n.log == m.log + [if x.ok then Succeeded(t) else Failed(t, clock)]))
  {
  }

  lemma OpenAppend(log: seq<Event>, e: Event, t: Name)
    ensures Open(log + [e], t) == Open(log, t) + OpenBy(e, t)
  {
    Appended(log, e);
  }

  /** An event that says what happened to the active targets keeps the balance. */
  lemma OpenLogged(m: Manager, n: Manager, e: Event)
    requires ReleasedOnce(m) && n.log == m.log + [e]
    requires match e
      case Reserved(t, _) => t !in m.active && n.active.Keys == m.active.Keys + {t}
      case Left(t) => t in m.active && n.active.Keys == m.active.Keys - {t}
      case _ => n.active == m.active
    ensures ReleasedOnce(n)
  {
    hide Open;
    forall t: Name ensures Open(n.log, t) == if t in n.active then 1 else 0 {
      assert Open(m.log, t) == if t in m.active then 1 else 0;
      assert (t in n.active <==> t in n.active.Keys) && (t in m.active <==> t in m.active.Keys);
      OpenAppend(m.log, e, t);
    }
  }

  lemma OpenKept(m: Manager, clock: int, p: nat, s: Step)
    requires Flight(m) && ReleasedOnce(m) && Enabled(m, Proceed(p, s))
    ensures ReleasedOnce(NextProceed(m, clock, p, s))
  {
    var n := NextProceed(m, clock, p, s);
    EventOfStep(m, clock, p, s);
    hide NextProceed, TurnedAway, Flight, ReleasedOnce, Open, Enabled;
    if n.log == m.log {
      SameBalance(m, n);
    } else {
      OpenLogged(m, n, n.log[|m.log|]);
    }
  }

  lemma SameBalance(m: Manager, n: Manager)
    requires ReleasedOnce(m) && n.log == m.log && n.active == m.active
    ensures ReleasedOnce(n)
  {
  }

  /** What one more event does to the circuit that a history calls for. */
  lemma CircuitForMore(cfg: Config, log: seq<Event>, e: Event, t: Name)
    requires cfg.circuitThreshold >= 1
    ensures CircuitFor(cfg, log + [e], t) ==
      if e == Succeeded(t) then CLOSED
      else if e.Failed? && e.target == t then Tripped(CircuitFor(cfg, log, t), cfg, e.at)
      else CircuitFor(cfg, log, t)
  {
    Appended(log, e);
  }

  lemma BreakerKept(m: Manager, clock: int, p: nat, s: Step)
    requires Normal(m.cfg) && BreakerExact(m) && Enabled(m, Proceed(p, s))
    ensures BreakerExact(NextProceed(m, clock, p, s))
  {
    hide CircuitFor;
    var n, x := NextProceed(m, clock, p, s), m.procs[p];
    forall t: Name ensures CircuitOf(n, t) == CircuitFor(n.cfg, n.log, t) {
      assert CircuitOf(m, t) == CircuitFor(m.cfg, m.log, t);
      if EventsOf(m, clock, x, s) != [] {
        CircuitForMore(m.cfg, m.log, EventsOf(m, clock, x, s)[0], t);
        assert n.log == m.log + [EventsOf(m, clock, x, s)[0]];
      } else {
        assert n.log == m.log;
      }
    }
  }

  lemma GatedKept(m: Manager, clock: int, p: nat, s: Step)
    requires Normal(m.cfg) && BreakerExact(m) && Gated(m.cfg, m.log) && ChecksPast(clock, m)
    requires Enabled(m, Proceed(p, s))
    ensures Gated(m.cfg, NextProceed(m, clock, p, s).log)
  {
    var n, x := NextProceed(m, clock, p, s), m.procs[p];
    forall i | 0 <= i < |n.log| && n.log[i].Reserved? &&
               Streak(n.log[..i], n.log[i].target) >= m.cfg.circuitThreshold >= 1
      ensures n.log[i].at >= LastFailure(n.log[..i], n.log[i].target) + m.cfg.circuitOpenFor
    {
      if i < |m.log| {
        assert n.log[..i] == m.log[..i];
      } else {
        assert n.log[..i] == m.log;
        assert CircuitOf(m, n.log[i].target) == CircuitFor(m.cfg, m.log, n.log[i].target);
      }
    }
  }

  lemma HistoryKept(m: Manager, now: int, clock: int, a: Action)
    requires Flight(m) && HistorySound(now, m) && now <= clock && Enabled(m, a)
    ensures HistorySound(clock, Next(m, clock, a))
  {
    if a.Proceed? {
      OpenKept(m, clock, a.p, a.s);
      BreakerKept(m, clock, a.p, a.s);
      GatedKept(m, clock, a.p, a.s);
      ChecksKept(m, now, clock, a.p, a.s);
    }
  }

  lemma ChecksKept(m: Manager, now: int, clock: int, p: nat, s: Step)
    requires PidsBelow(m) && ChecksPast(now, m) && now <= clock && Enabled(m, Proceed(p, s))
    ensures ChecksPast(clock, NextProceed(m, clock, p, s))
  {
    ProceedMoves(m, clock, p, s);
  }
}
