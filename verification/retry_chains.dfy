/** Retry chains: one submission leads to a bounded number of handler calls. */
module RetryChains {
  import opened Names
  import opened Wrappers
  import opened Settings
  import opened ManagerModel
  import opened SingleFlight

  /** Handler calls made for submission c. */
  ghost function Calls(log: seq<Event>, c: nat): nat {
    if log == [] then 0
    else Calls(log[..|log| - 1], c) + if log[|log| - 1].Called? && log[|log| - 1].chain == c then 1 else 0
  }

  /** What a submission that starts at attempt `first` may use. */
  function Budget(cfg: Config, first: int): int {
    if cfg.maxAttempts - first + 1 > 1 then cfg.maxAttempts - first + 1 else 1
  }

  /** The handler has not been called yet for this attempt, but may be. */
  predicate Ahead(x: Proc) {
    x.Waiting? || x.Entering? || x.Checking? || x.Acquiring? || x.Recording? || x.Offering? || x.Queued? ||
    x.Taking? || x.Limiting?
  }

  /** The handler has been called for this attempt, and a retry may follow. */
  predicate Ran(x: Proc) {
    x.Handling? || x.Reporting?
  }

  predicate Live(x: Proc) {
    Ahead(x) || Ran(x)
  }

  ghost predicate ChainTally(m: Manager, x: Proc) {
    && x.req.chain < m.next
    && x.req.first <= x.req.attempt
    && (x.req.attempt == x.req.first || x.req.attempt <= m.cfg.maxAttempts)
    && Calls(m.log, x.req.chain) == x.req.attempt - x.req.first + (if Ran(x) then 1 else 0)
  }

  /** A submission has at most one live process, whose attempt number counts the calls so far. */
  ghost predicate ChainsTallied(m: Manager) {
    && (forall p :: p in m.procs && Live(m.procs[p]) ==> ChainTally(m, m.procs[p]))
    && (forall p, q :: (p in m.procs && q in m.procs && Live(m.procs[p]) && Live(m.procs[q]) &&
                       m.procs[p].req.chain == m.procs[q].req.chain) ==> p == q)
    && (forall c: nat :: c >= m.next ==> Calls(m.log, c) == 0)
  }

  /** Calls of one submission carry one first attempt, and stay within its budget. */
  ghost predicate CallsBounded(m: Manager) {
    forall i :: 0 <= i < |m.log| && m.log[i].Called? ==>
      && m.log[i].chain < m.next
      && Calls(m.log, m.log[i].chain) <= Budget(m.cfg, m.log[i].first)
      && (forall p :: p in m.procs && Live(m.procs[p]) && m.procs[p].req.chain == m.log[i].chain ==>
          m.procs[p].req.first == m.log[i].first)
  }

  ghost predicate ChainsSound(m: Manager) {
    PidsBelow(m) && ChainsTallied(m) && CallsBounded(m)
  }

  lemma ChainsInit(cfg: Config, worker: Name, hasStore: bool)
    ensures ChainsSound(Init(cfg, worker, hasStore))
  {
  }

  lemma CallsAppend(log: seq<Event>, e: Event, c: nat)
    ensures Calls(log + [e], c) == Calls(log, c) + if e.Called? && e.chain == c then 1 else 0
  {
    assert (log + [e])[..|log + [e]| - 1] == log;
  }

  /** A step keeps the request of a live process, and its first attempt always. */
  lemma PhaseOfChain(m: Manager, clock: int, x: Proc, s: Step)
    requires CanStep(m, x, s)
    ensures var y := After(m, clock, x, s);
      && (y.Some? ==> y.value.req.chain == x.req.chain && y.value.req.first == x.req.first &&
                      y.value.req.attempt == x.req.attempt)
      && (y.Some? && Live(y.value) ==> Live(x))
      && (y.Some? && Ran(y.value) ==> if s.Grant? then Ahead(x) else Ran(x))
      && (y.Some? && Ahead(y.value) ==> Ahead(x) && !s.Grant?)
      && (s.Grant? ==> Ahead(x) && y.Some? && Ran(y.value))
      && (s.Report? ==> Ran(x) && y.Some? && !Live(y.value))
  {
  }

  /** A step that neither calls the handler nor starts a retry. */
  lemma ChainsMoved(m: Manager, n: Manager, p: nat, y: Option<Proc>)
    requires ChainsSound(m) && ProcsMoved(m, n, p, y) && n.next == m.next && n.cfg == m.cfg
    requires forall c: nat :: Calls(n.log, c) == Calls(m.log, c)
    requires forall i :: 0 <= i < |n.log| && n.log[i].Called? ==> i < |m.log| && m.log[i] == n.log[i]
    requires y.Some? && Live(y.value) ==>
      Live(m.procs[p]) && Ran(y.value) == Ran(m.procs[p]) && y.value.req.chain == m.procs[p].req.chain &&
      y.value.req.first == m.procs[p].req.first && y.value.req.attempt == m.procs[p].req.attempt
    ensures ChainsSound(n)
  {
  }

  lemma ChainsCalled(m: Manager, clock: int, p: nat)
    requires ChainsSound(m) && Normal(m.cfg) && Enabled(m, Proceed(p, Grant))
    ensures ChainsSound(NextProceed(m, clock, p, Grant))
  {
    var n, x := NextProceed(m, clock, p, Grant), m.procs[p];
    var e := Called(x.req.chain, x.req.first);
    ProceedMoves(m, clock, p, Grant);
    assert n.log == m.log + [e];
    assert Live(x) && ChainTally(m, x);
    forall c: nat ensures Calls(n.log, c) == Calls(m.log, c) + if c == x.req.chain then 1 else 0 {
      CallsAppend(m.log, e, c);
    }
    CalledTally(m, n, p);
    CalledBound(m, n, p);
  }

  lemma CalledTally(m: Manager, n: Manager, p: nat)
    requires ChainsSound(m) && p in m.procs && m.procs[p].Limiting?
    requires ProcsMoved(m, n, p, Some(Handling(m.procs[p].req))) && n.next == m.next && n.cfg == m.cfg
    requires forall c: nat :: Calls(n.log, c) == Calls(m.log, c) + if c == m.procs[p].req.chain then 1 else 0
    ensures ChainsTallied(n) && PidsBelow(n)
  {
    assert Live(m.procs[p]);
  }

  lemma CalledBound(m: Manager, n: Manager, p: nat)
    requires ChainsSound(m) && Normal(m.cfg) && p in m.procs && m.procs[p].Limiting?
    requires ProcsMoved(m, n, p, Some(Handling(m.procs[p].req))) && n.next == m.next && n.cfg == m.cfg
    requires n.log == m.log + [Called(m.procs[p].req.chain, m.procs[p].req.first)]
    requires forall c: nat :: Calls(n.log, c) == Calls(m.log, c) + if c == m.procs[p].req.chain then 1 else 0
    ensures CallsBounded(n)
  {
    assert Live(m.procs[p]) && ChainTally(m, m.procs[p]);
  }

  lemma ChainsReported(m: Manager, clock: int, p: nat)
    requires ChainsSound(m) && Enabled(m, Proceed(p, Report))
    ensures ChainsSound(NextProceed(m, clock, p, Report))
  {
    var n, x := NextProceed(m, clock, p, Report), m.procs[p];
    ProceedMoves(m, clock, p, Report);
    var e := EventsOf(m, clock, x, Report)[0];
    assert n.log == m.log + [e] && !e.Called? && n.cfg == m.cfg;
    assert Retries(m, x) ==> n.next == m.next + 1 && m.next in n.procs && n.procs[m.next] == Waiting(Retry(x.req));
    hide NextProceed, ChainsSound, Calls;
    forall c: nat ensures Calls(n.log, c) == Calls(m.log, c) {
      CallsAppend(m.log, e, c);
    }
    if Retries(m, x) {
      RetryTally(m, n, p);
    } else {
      ChainsMoved(m, n, p, Some(Releasing(x.req, LAYERS)));
    }
  }

  /** The retry takes over the chain from the run that failed. */
  lemma RetryTally(m: Manager, n: Manager, p: nat)
    requires ChainsSound(m) && p in m.procs && Retries(m, m.procs[p])
    requires ProcsMoved(m, n, p, Some(Releasing(m.procs[p].req, LAYERS))) && n.next == m.next + 1 && n.cfg == m.cfg
    requires m.next in n.procs && n.procs[m.next] == Waiting(Retry(m.procs[p].req))
    requires forall c: nat :: Calls(n.log, c) == Calls(m.log, c)
    requires forall i :: 0 <= i < |n.log| && n.log[i].Called? ==> i < |m.log| && m.log[i] == n.log[i]
    ensures ChainsSound(n)
  {
    assert Live(m.procs[p]) && ChainTally(m, m.procs[p]);
  }

  lemma ChainsProceed(m: Manager, clock: int, p: nat, s: Step)
    requires ChainsSound(m) && Normal(m.cfg) && Enabled(m, Proceed(p, s))
    ensures ChainsSound(NextProceed(m, clock, p, s))
  {
    if s.Grant? {
      ChainsCalled(m, clock, p);
    } else if s.Report? {
      ChainsReported(m, clock, p);
    } else {
      var n, x := NextProceed(m, clock, p, s), m.procs[p];
      PhaseOfChain(m, clock, x, s);
      ProceedMoves(m, clock, p, s);
      LogUncalled(m, clock, p, s);
      ChainsMoved(m, n, p, After(m, clock, x, s));
    }
  }

  lemma LogUncalled(m: Manager, clock: int, p: nat, s: Step)
    requires Enabled(m, Proceed(p, s)) && !s.Grant?
    ensures var n := NextProceed(m, clock, p, s);
      && (forall c: nat :: Calls(n.log, c) == Calls(m.log, c))
      && (forall i :: 0 <= i < |n.log| && n.log[i].Called? ==> i < |m.log| && m.log[i] == n.log[i])
  {
    var events := EventsOf(m, clock, m.procs[p], s);
    if events == [] {
      assert m.log + events == m.log;
    } else {
      assert m.log + events == m.log + [events[0]];
      forall c: nat ensures Calls(m.log + events, c) == Calls(m.log, c) {
        CallsAppend(m.log, events[0], c);
      }
    }
  }

  lemma ChainsSubmit(m: Manager, t: Target, attempt: int, job: Name, delayed: bool)
    requires ChainsSound(m)
    ensures ChainsSound(NextSubmit(m, t, attempt, job, delayed))
  {
  }

  lemma ChainsKept(m: Manager, clock: int, a: Action)
    requires ChainsSound(m) && Normal(m.cfg) && Enabled(m, a)
    ensures ChainsSound(Next(m, clock, a))
  {
    match a
    case Submit(t, attempt, job, delayed) => ChainsSubmit(m, t, attempt, job, delayed);
    case Proceed(p, s) => ChainsProceed(m, clock, p, s);
    case Renew(_) =>
  }
}
