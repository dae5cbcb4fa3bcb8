/** Single flight inside one manager: `active` is exactly the set of targets with a request between
    reserve and releaseReservation, and each such target has one request. */
module SingleFlight {
  import opened Names
  import opened Wrappers
  import opened Settings
  import opened ManagerModel

  /** From the insertion into `active` to its removal. */
  predicate InFlight(x: Proc) {
    !x.Waiting? && !x.Entering? && !x.Checking?
  }

  /** Between recording the lease and taking it back. */
  predicate Reserving(x: Proc) {
    x.Offering? || x.Queued? || x.Taking? || x.Undoing? || x.Limiting? || x.Handling? || x.Reporting? ||
    x.Releasing? || x.Finishing?
  }

  ghost predicate PidsBelow(m: Manager) {
    forall p :: p in m.procs ==> p < m.next
  }

  /** A request in flight is the one its target is mapped to. */
  ghost predicate FlightsMarked(m: Manager) {
    forall p :: p in m.procs && InFlight(m.procs[p]) ==>
      m.procs[p].req.target.id in m.active && m.active[m.procs[p].req.target.id] == p
  }

  /** A marked target has its request in flight. */
  ghost predicate MarksFly(m: Manager) {
    forall t :: t in m.active ==>
      m.active[t] in m.procs && InFlight(m.procs[m.active[t]]) && m.procs[m.active[t]].req.target.id == t
  }

  ghost predicate Flight(m: Manager) {
    PidsBelow(m) && FlightsMarked(m) && MarksFly(m)
  }

  lemma FlightInit(cfg: Config, worker: Name, hasStore: bool)
    ensures Flight(Init(cfg, worker, hasStore))
  {
  }

  /** Only Enter takes off, only the clearing steps land, and a request keeps its target. */
  lemma PhaseOfFlight(m: Manager, clock: int, x: Proc, s: Step)
    requires CanStep(m, x, s)
    ensures After(m, clock, x, s).Some? ==> After(m, clock, x, s).value.req.target == x.req.target
    ensures s.Enter? && !TurnedAway(m, x) ==>
      !InFlight(x) && After(m, clock, x, s).Some? && InFlight(After(m, clock, x, s).value)
    ensures s.ClearRefused? || s.Clear? ==> InFlight(x) && After(m, clock, x, s).None?
    ensures !(s.Enter? && !TurnedAway(m, x)) && !s.ClearRefused? && !s.Clear? ==>
      if After(m, clock, x, s).Some? then InFlight(After(m, clock, x, s).value) == InFlight(x) else !InFlight(x)
  {
  }

  /** Process p goes from x to y (None: it ends), and a grounded process may appear at m.next. */
  ghost predicate ProcsMoved(m: Manager, n: Manager, p: nat, y: Option<Proc>) {
    && p in m.procs
    && n.next >= m.next
    && (forall q :: q in n.procs ==> q in m.procs || (q == m.next && n.next > m.next && n.procs[q].Waiting?))
    && (forall q :: q in m.procs && q != p ==> q in n.procs && n.procs[q] == m.procs[q])
    && (if y.Some? then p in n.procs && n.procs[p] == y.value else p !in n.procs)
  }

  lemma ProceedMoves(m: Manager, clock: int, p: nat, s: Step)
    requires PidsBelow(m) && Enabled(m, Proceed(p, s))
    ensures ProcsMoved(m, NextProceed(m, clock, p, s), p, After(m, clock, m.procs[p], s))
  {
  }

  lemma FlightMoved(m: Manager, n: Manager, p: nat, y: Option<Proc>)
    requires Flight(m) && ProcsMoved(m, n, p, y) && n.active == m.active
    requires if y.Some? then y.value.req.target == m.procs[p].req.target && InFlight(y.value) == InFlight(m.procs[p])
             else !InFlight(m.procs[p])
    ensures Flight(n)
  {
  }

  lemma FlightJoined(m: Manager, n: Manager, p: nat, y: Proc)
    requires Flight(m) && ProcsMoved(m, n, p, Some(y)) && !InFlight(m.procs[p]) && InFlight(y)
    requires y.req.target.id !in m.active && n.active == m.active[y.req.target.id := p]
    ensures Flight(n)
  {
  }

  lemma FlightLeft(m: Manager, n: Manager, p: nat)
    requires Flight(m) && ProcsMoved(m, n, p, None) && InFlight(m.procs[p])
    requires n.active == m.active - {m.procs[p].req.target.id}
    ensures Flight(n)
  {
  }

  lemma FlightProceed(m: Manager, clock: int, p: nat, s: Step)
    requires Flight(m) && Enabled(m, Proceed(p, s))
    ensures Flight(NextProceed(m, clock, p, s))
  {
    var n, x := NextProceed(m, clock, p, s), m.procs[p];
    var y := After(m, clock, x, s);
    PhaseOfFlight(m, clock, x, s);
    ProceedMoves(m, clock, p, s);
    if s.Enter? && !TurnedAway(m, x) {
      FlightJoined(m, n, p, y.value);
    } else if s.ClearRefused? || s.Clear? {
      FlightLeft(m, n, p);
    } else {
      FlightMoved(m, n, p, y);
    }
  }

  lemma FlightKept(m: Manager, clock: int, a: Action)
    requires Flight(m) && Enabled(m, a)
    ensures Flight(Next(m, clock, a))
  {
    if a.Proceed? {
      FlightProceed(m, clock, a.p, a.s);
    }
  }
}
