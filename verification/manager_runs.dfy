/** Every run of one manager, whatever its goroutines, the store and the clock do. */
module ManagerRuns {
  import opened Names
  import opened Wrappers
  import opened Leases
  import opened Settings
  import opened ManagerModel
  import opened SingleFlight
  import opened LeaseBook
  import opened Semaphores
  import opened Progress
  import opened History
  import opened Outcomes
  import opened RetryChains
  import opened FleetModel

  /** A run: actions with the clock at which they happen, which does not go back. */
  ghost predicate RunsOf(m: Manager, clock: int, steps: seq<(int, Action)>, n: Manager)
    decreases |steps|
  {
    if steps == [] then n == m
    else
      && clock <= steps[0].0 && Enabled(m, steps[0].1)
      && RunsOf(Next(m, steps[0].0, steps[0].1), steps[0].0, steps[1..], n)
  }

  ghost predicate Sound(clock: int, m: Manager) {
    Flight(m) && Book(m) && Balanced(m) && HistorySound(clock, m) && ChainsSound(m) && OutcomesSound(m)
  }

  lemma StepSound(m: Manager, now: int, clock: int, a: Action)
    requires Sound(now, m) && now <= clock && Enabled(m, a)
    ensures Sound(clock, Next(m, clock, a))
  {
    FlightKept(m, clock, a);
    BookKept(m, clock, a);
    BalancedKept(m, clock, a);
    HistoryKept(m, now, clock, a);
    ChainsKept(m, clock, a);
    OutcomesKept(m, clock, a);
  }

  lemma {:induction false} RunKeepsSound(m: Manager, now: int, steps: seq<(int, Action)>, n: Manager)
    returns (clock: int)
    requires Sound(now, m) && RunsOf(m, now, steps, n)
    ensures Sound(clock, n)
    decreases |steps|
  {
    if steps == [] {
      clock := now;
    } else {
      StepSound(m, now, steps[0].0, steps[0].1);
      clock := RunKeepsSound(Next(m, steps[0].0, steps[0].1), steps[0].0, steps[1..], n);
    }
  }

  /** A state some run of a manager with a normal configuration leads to. */
  ghost predicate Reachable(n: Manager) {
    exists cfg, worker, hasStore, clock, steps ::
      Normal(cfg) && RunsOf(Init(cfg, worker, hasStore), clock, steps, n)
  }

  lemma ReachableIsSound(n: Manager) returns (clock: int)
    requires Reachable(n)
    ensures Sound(clock, n)
  {
    var cfg, worker, hasStore, start, steps :|
      Normal(cfg) && RunsOf(Init(cfg, worker, hasStore), start, steps, n);
    FlightInit(cfg, worker, hasStore);
    BookInit(cfg, worker, hasStore);
    BalancedInit(cfg, worker, hasStore);
    HistoryInit(cfg, worker, hasStore, start);
    ChainsInit(cfg, worker, hasStore);
    OutcomesInit(cfg, worker, hasStore);
    clock := RunKeepsSound(Init(cfg, worker, hasStore), start, steps, n);
  }

  // ----- the theorems

  /** Single flight: active is exactly the set of targets with a request in flight, one request each;
      a reservation is released at most once; a lease entry belongs to the job in flight. */
  lemma SingleFlightHolds(m: Manager)
    requires Reachable(m)
    ensures m.active.Keys == set p | p in m.procs && InFlight(m.procs[p]) :: m.procs[p].req.target.id
    ensures forall p, q :: (p in m.procs && q in m.procs && InFlight(m.procs[p]) && InFlight(m.procs[q]) &&
                            m.procs[p].req.target.id == m.procs[q].req.target.id) ==> p == q
    ensures forall t: Name :: Open(m.log, t) == if t in m.active then 1 else 0
    ensures forall t :: t in m.leased ==>
      exists p :: p in m.procs && Reserving(m.procs[p]) && m.procs[p].req.target.id == t &&
                  m.procs[p].req.job == m.leased[t].job
  {
    var clock := ReachableIsSound(m);
    forall t | t in m.leased
      ensures exists p :: p in m.procs && Reserving(m.procs[p]) && m.procs[p].req.target.id == t &&
                          m.procs[p].req.job == m.leased[t].job
    {
      assert Works(m, m.active[t]);
    }
  }

  /** Tokens are conserved and caps hold; nothing is ever received from an empty channel. */
  lemma TokensHold(m: Manager)
    requires Reachable(m)
    ensures forall k: Sem :: Tok(m, k) == |Holders(m.procs, k)| && |Holders(m.procs, k)| <= Cap(m.cfg, k)
    ensures forall p :: p in m.procs && m.procs[p].Releasing? && m.procs[p].held > 0 ==>
      m.procs[p].held <= LAYERS && Tok(m, SemAt(m.procs[p].req.target, m.procs[p].held - 1)) > 0
    ensures forall p :: p in m.procs && m.procs[p].Undoing? ==> Enabled(m, Proceed(p, UndoSem))
  {
    var clock := ReachableIsSound(m);
    forall p | p in m.procs && m.procs[p].Releasing? && m.procs[p].held > 0
      ensures m.procs[p].held <= LAYERS && Tok(m, SemAt(m.procs[p].req.target, m.procs[p].held - 1)) > 0
    {
      ReleaseFindsToken(m, p);
    }
    forall p | p in m.procs && m.procs[p].Undoing? ensures Enabled(m, Proceed(p, UndoSem)) {
      UndoNeverBlocks(m, p);
    }
  }

  /** No reachable state is deadlocked: while a dequeued request is unfinished, one of them can step,
      and the busy requests finish in some run; no run of theirs is longer than the work there is. */
  lemma BusyRequestsFinish(m: Manager, clock: int)
    requires Reachable(m)
    ensures (exists p :: Busy(m, p)) ==> exists q :: Busy(m, q) && Enabled(m, Proceed(q, WorkerStep(m.procs[q])))
    ensures exists acts, n :: BusyRun(m, clock, acts, n) && forall p :: !Busy(n, p)
    ensures forall acts, n :: BusyRun(m, clock, acts, n) ==> |acts| <= TotalWork(m)
  {
    var c := ReachableIsSound(m);
    if p :| Busy(m, p) {
      NoDeadlock(m, p);
    }
    var acts, n := BatchCompletes(m, clock);
    forall acts, n | BusyRun(m, clock, acts, n) ensures |acts| <= TotalWork(m) {
      BusyRunsEnd(m, clock, acts, n);
    }
  }

  /** Handlers never run beyond the settings: in all, for one vendor, for one group and at one site. */
  lemma CapsHold(m: Manager, v: Name)
    requires Reachable(m)
    ensures |Handlers(m)| <= m.cfg.maxGlobal && |VendorHandlers(m, v)| <= m.cfg.maxPerVendor
    ensures |GroupHandlers(m, v)| <= m.cfg.maxPerGroup && |SiteHandlers(m, v)| <= m.cfg.maxPerSite
  {
    var clock := ReachableIsSound(m);
    hide Reachable, Balanced;
    HandlersCapped(m, v);
  }

  /** A request that holds the first layers takes the next one exactly when fewer requests than the setting
      of that layer hold it: first in all, then for the vendor, for the group and at the site. */
  lemma TakesInOrder(m: Manager, p: nat)
    requires Reachable(m) && p in m.procs && m.procs[p].Taking?
    ensures m.procs[p].held < 4
    ensures Enabled(m, Proceed(p, TakeSem)) <==> RoomAfter(m, m.procs[p].req.target, m.procs[p].held)
  {
    var clock := ReachableIsSound(m);
    hide Reachable, RoomAfter;
    TakesWithRoom(m, p);
  }

  /** The circuit breaker is the history of what handlers returned: the stored count is the number of
      failures returned since the last success returned, up to an outcome still to be recorded; and past the
      threshold no reservation came before the open duration was over. */
  lemma BreakerHolds(m: Manager)
    requires Reachable(m)
    ensures forall t: Name :: CircuitOf(m, t).failures == Streak(m.log, t)
    ensures forall t: Name ::
      FailuresReturned(m.log, t) == WithPending(CircuitOf(m, t).failures, Pending(m, t))
    ensures forall i :: (0 <= i < |m.log| && m.log[i].Reserved? &&
                         FailuresReturned(m.log[..i], m.log[i].target) >= m.cfg.circuitThreshold >= 1) ==>
      && Streak(m.log[..i], m.log[i].target) > 0
      && m.log[i].at >= LastFailure(m.log[..i], m.log[i].target) + m.cfg.circuitOpenFor
  {
    var clock := ReachableIsSound(m);
    forall t: Name ensures CircuitOf(m, t).failures == Streak(m.log, t) {
      assert CircuitOf(m, t) == CircuitFor(m.cfg, m.log, t);
    }
    forall i | 0 <= i < |m.log| && m.log[i].Reserved?
      ensures FailuresReturned(m.log[..i], m.log[i].target) == Streak(m.log[..i], m.log[i].target)
    {
      assert EntryRight(m.log[..i], m.log[i]);
    }
  }

  /** Every outcome in the history is the one that the handler had returned. */
  lemma OutcomesRecorded(m: Manager, i: nat)
    requires Reachable(m) && i < |m.log|
    ensures m.log[i].Succeeded? ==> LastReturn(m.log[..i], m.log[i].target) == Some(true)
    ensures m.log[i].Failed? ==> LastReturn(m.log[..i], m.log[i].target) == Some(false)
  {
    var clock := ReachableIsSound(m);
    assert EntryRight(m.log[..i], m.log[i]);
  }

  /** A request is admitted exactly when none for its target is in flight and the circuit is not open: there
      are fewer failures than the threshold, or the open duration after the last one is over. */
  lemma AdmittedIff(m: Manager, p: nat, clock: int)
    requires Reachable(m) && p in m.procs && m.procs[p].Checking? && m.procs[p].now >= ZERO_TIME
    ensures var x := m.procs[p]; var t := x.req.target.id;
      p in Next(m, clock, Proceed(p, Enter)).procs <==>
        && (forall q :: q in m.procs && InFlight(m.procs[q]) ==> m.procs[q].req.target.id != t)
        && (Streak(m.log, t) > 0 && Streak(m.log, t) >= m.cfg.circuitThreshold ==>
            x.now >= LastFailure(m.log, t) + m.cfg.circuitOpenFor)
  {
    var c := ReachableIsSound(m);
    SingleFlightHolds(m);
    var t := m.procs[p].req.target.id;
    assert t in m.active <==> t in m.active.Keys;
    assert CircuitOf(m, t) == CircuitFor(m.cfg, m.log, t);
    assert Normal(m.cfg);
    hide Reachable, Sound;
  }

  /** What follows a run of the handler, step by step: a success closes the circuit, a failure counts in it,
      and exactly a failure below the last attempt leaves a request waiting for the next one. */
  lemma FailedRunRetries(m: Manager, p: nat, ok: bool, c1: int, c2: int)
    requires Reachable(m) && p in m.procs && m.procs[p].Handling?
    ensures var req := m.procs[p].req; var t := req.target.id;
      var n := Next(m, c1, Proceed(p, Return(ok)));
      && Enabled(n, Proceed(p, Report))
      && var l := Next(n, c2, Proceed(p, Report)); var before, after := CircuitOf(m, t), CircuitOf(l, t);
        && l.procs.Keys == m.procs.Keys + (if !ok && req.attempt < m.cfg.maxAttempts then {m.next} else {})
        && (!ok && req.attempt < m.cfg.maxAttempts ==>
              l.procs[m.next] == Waiting(Request(EMPTY, req.attempt + 1, req.target, req.chain, req.first)))
        && after.failures == (if ok then 0 else before.failures + 1)
        && after.openUntil == (if ok then ZERO_TIME
                               else if before.failures + 1 >= m.cfg.circuitThreshold then c2 + m.cfg.circuitOpenFor
                               else before.openUntil)
  {
    NextIsNew(m);
    hide Reachable, Next, Enabled, CircuitOf;
    var n := AfterReturn(m, p, ok, c1);
    var l := AfterReport(n, p, c2);
    OnlyLogged(m, n, m.procs[p].req.target.id);
  }

  lemma NextIsNew(m: Manager)
    requires Reachable(m)
    ensures m.next !in m.procs
  {
    var c := ReachableIsSound(m);
  }

  lemma OnlyLogged(m: Manager, n: Manager, t: Name)
    requires n.cb == m.cb
    ensures CircuitOf(n, t) == CircuitOf(m, t)
  {
  }

  /** Retry chains are bounded: a submission with attempt `first` calls the handler at most
      max(1, maxAttempts - first + 1) times, so at most maxAttempts times when it starts at 0 or 1. */
  lemma RetriesBounded(m: Manager, i: int)
    requires Reachable(m) && 0 <= i < |m.log| && m.log[i].Called?
    ensures Calls(m.log, m.log[i].chain) <= Budget(m.cfg, m.log[i].first)
    ensures m.log[i].first == 1 ==> Calls(m.log, m.log[i].chain) <= m.cfg.maxAttempts
  {
    var clock := ReachableIsSound(m);
  }

  /** Each manager of a fleet runs as a manager alone: the store's answers and the clock are all it sees. */
  lemma {:induction false} FleetProjects(f: Fleet, acts: seq<FleetAction>, g: Fleet, w: Name)
    returns (steps: seq<(int, Action)>)
    requires Runs(f, acts, g) && w in f.mgrs
    ensures w in g.mgrs && RunsOf(f.mgrs[w], f.clock, steps, g.mgrs[w])
    decreases |acts|
  {
    if acts == [] {
      steps := [];
    } else {
      var h := FleetNext(f, acts[0]);
      var rest := FleetProjects(h, acts[1..], g, w);
      if acts[0].Act? && acts[0].w == w {
        steps := [(f.clock, acts[0].a)] + rest;
        assert steps[1..] == rest;
      } else {
        LaterStart(f.mgrs[w], f.clock, h.clock, rest, g.mgrs[w]);
        steps := rest;
      }
    }
  }

  lemma LaterStart(m: Manager, now: int, clock: int, steps: seq<(int, Action)>, n: Manager)
    requires now <= clock && RunsOf(m, clock, steps, n)
    ensures RunsOf(m, now, steps, n)
  {
  }
}
