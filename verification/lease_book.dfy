/** The local lease book: `leased` holds exactly the leases of the requests in flight. */
module LeaseBook {
  import opened Names
  import opened Wrappers
  import opened Leases
  import opened Settings
  import opened ManagerModel
  import opened SingleFlight

  /** A working request: between recording the lease and taking it back. */
  ghost predicate Works(m: Manager, p: nat) {
    p in m.procs && Reserving(m.procs[p])
  }

  ghost predicate LeaseShape(m: Manager, l: Lease) {
    l.worker == m.worker && l.expires == l.now + m.cfg.leaseTTL
  }

  /** Every entry belongs to the job in flight for its target. */
  ghost predicate EntriesOwned(m: Manager) {
    forall t :: t in m.leased ==>
      && LeaseShape(m, m.leased[t]) && m.leased[t].target == t
      && t in m.active && Works(m, m.active[t])
      && m.procs[m.active[t]].req.target.id == t && m.procs[m.active[t]].req.job == m.leased[t].job
  }

  /** Every working request has its entry, when a store is configured. */
  ghost predicate WorkersBooked(m: Manager) {
    if m.hasStore
    then forall p :: Works(m, p) ==>
      m.procs[p].req.target.id in m.leased && m.leased[m.procs[p].req.target.id].job == m.procs[p].req.job
    else m.leased == map[]
  }

  /** Leases carried by a process are its own. */
  ghost predicate CarriedOwn(m: Manager) {
    forall p :: p in m.procs && (m.procs[p].Acquiring? || m.procs[p].Recording? || m.procs[p].Deleting?) ==>
      && m.hasStore
      && LeaseShape(m, m.procs[p].lease)
      && m.procs[p].lease.target == m.procs[p].req.target.id
      && m.procs[p].lease.job == m.procs[p].req.job
  }

  ghost predicate TodoShape(m: Manager, todo: map<Name, Lease>) {
    forall t :: t in todo ==> LeaseShape(m, todo[t]) && todo[t].target == t
  }

  ghost predicate RenewerShape(m: Manager) {
    match m.renewer
    case Renewing(_, todo) => TodoShape(m, todo)
    case WritingBack(now, l, todo) => TodoShape(m, todo) && LeaseShape(m, l) && l.now == now
    case _ => true
  }

  ghost predicate Book(m: Manager) {
    EntriesOwned(m) && WorkersBooked(m) && CarriedOwn(m) && RenewerShape(m)
  }

  lemma BookInit(cfg: Config, worker: Name, hasStore: bool)
    ensures Book(Init(cfg, worker, hasStore))
  {
  }

  ghost predicate Carries(x: Proc) {
    x.Acquiring? || x.Recording? || x.Deleting?
  }

  ghost predicate CarriesOwn(m: Manager, x: Proc) {
    Carries(x) ==>
      m.hasStore && LeaseShape(m, x.lease) && x.lease.target == x.req.target.id && x.lease.job == x.req.job
  }

  /** Recording starts the work, taking the lease ends it, entering starts it when there is no store;
      a working request keeps its job, and no other step changes the book. */
  lemma PhaseOfBook(m: Manager, clock: int, x: Proc, s: Step)
    requires CanStep(m, x, s) && CarriesOwn(m, x)
    ensures s.Record? ==>
      Carries(x) && After(m, clock, x, s).Some? && Reserving(After(m, clock, x, s).value) &&
      After(m, clock, x, s).value.req == x.req
    ensures s.TakeLease? ==>
      Reserving(x) && After(m, clock, x, s).Some? && !Reserving(After(m, clock, x, s).value) &&
      After(m, clock, x, s).value.req == x.req
    ensures Reserving(x) && !s.TakeLease? ==>
      After(m, clock, x, s).Some? && Reserving(After(m, clock, x, s).value) && After(m, clock, x, s).value.req == x.req
    ensures !Reserving(x) && !s.Record? && After(m, clock, x, s).Some? && Reserving(After(m, clock, x, s).value) ==>
      s.Enter? && !m.hasStore
    ensures !s.TakeLease? && After(m, clock, x, s).Some? ==> CarriesOwn(m, After(m, clock, x, s).value)
    ensures !s.TakeLease? && !s.Record? ==> LeasedAfter(m, x, s) == m.leased
  {
  }

  ghost predicate SameBook(m: Manager, n: Manager) {
    n.worker == m.worker && n.cfg == m.cfg && n.hasStore == m.hasStore && n.renewer == m.renewer
  }

  /** Marks of working requests survive a step of process p. */
  ghost predicate MarksKept(m: Manager, n: Manager, p: nat) {
    forall t :: t in m.active && m.active[t] != p ==> t in n.active && n.active[t] == m.active[t]
  }

  lemma MarksSurvive(m: Manager, clock: int, p: nat, s: Step)
    requires Flight(m) && Enabled(m, Proceed(p, s))
    ensures MarksKept(m, NextProceed(m, clock, p, s), p)
    ensures !s.Clear? && !s.ClearRefused? && InFlight(m.procs[p]) ==> NextProceed(m, clock, p, s).active == m.active
  {
  }

  /** What a step that leaves `leased` alone does to the working request, if there is one. */
  ghost predicate KeepsWorking(m: Manager, n: Manager, p: nat, y: Option<Proc>) {
    && ProcsMoved(m, n, p, y) && SameBook(m, n) && n.leased == m.leased && MarksKept(m, n, p)
    && (Reserving(m.procs[p]) ==>
        y.Some? && Reserving(y.value) && y.value.req == m.procs[p].req && n.active == m.active)
    && (y.Some? && Reserving(y.value) && m.hasStore ==> Reserving(m.procs[p]))
  }

  lemma EntriesMoved(m: Manager, n: Manager, p: nat, y: Option<Proc>)
    requires EntriesOwned(m) && KeepsWorking(m, n, p, y)
    ensures EntriesOwned(n)
  {
    hide Reserving;
    forall t | t in n.leased
      ensures t in n.active && n.active[t] == m.active[t] && Works(n, m.active[t])
      ensures n.procs[m.active[t]].req == m.procs[m.active[t]].req
    {
      assert Works(m, m.active[t]);
    }
  }

  lemma WorkersMoved(m: Manager, n: Manager, p: nat, y: Option<Proc>)
    requires PidsBelow(m) && WorkersBooked(m) && KeepsWorking(m, n, p, y)
    ensures WorkersBooked(n)
  {
    if n.hasStore {
      forall q | Works(n, q) ensures Works(m, q) && n.procs[q].req == m.procs[q].req {
      }
    }
  }

  lemma CarriedMoved(m: Manager, n: Manager, p: nat, y: Option<Proc>)
    requires CarriedOwn(m) && RenewerShape(m) && ProcsMoved(m, n, p, y) && SameBook(m, n)
    requires y.Some? ==> CarriesOwn(m, y.value)
    ensures CarriedOwn(n) && RenewerShape(n)
  {
  }

  /** A step that leaves `leased` alone. */
  lemma BookMoved(m: Manager, n: Manager, p: nat, y: Option<Proc>)
    requires Flight(m) && Book(m) && KeepsWorking(m, n, p, y)
    requires y.Some? ==> CarriesOwn(m, y.value)
    ensures Book(n)
  {
    hide Reserving, EntriesOwned, WorkersBooked, CarriedOwn, RenewerShape, CarriesOwn;
    EntriesMoved(m, n, p, y);
    WorkersMoved(m, n, p, y);
    CarriedMoved(m, n, p, y);
  }

  ghost predicate RecordsLease(m: Manager, n: Manager, p: nat, y: Proc) {
    && ProcsMoved(m, n, p, Some(y)) && SameBook(m, n) && n.active == m.active
    && m.procs[p].Recording? && Reserving(y) && y.req == m.procs[p].req
    && n.leased == m.leased[y.req.target.id := m.procs[p].lease]
  }

  lemma EntriesRecorded(m: Manager, n: Manager, p: nat, y: Proc)
    requires FlightsMarked(m) && EntriesOwned(m) && RecordsLease(m, n, p, y) && CarriesOwn(m, m.procs[p])
    ensures EntriesOwned(n)
  {
    hide Reserving;
    assert m.active[y.req.target.id] == p;
  }

  lemma WorkersRecorded(m: Manager, n: Manager, p: nat, y: Proc)
    requires FlightsMarked(m) && WorkersBooked(m) && RecordsLease(m, n, p, y) && CarriesOwn(m, m.procs[p])
    ensures WorkersBooked(n)
  {
    forall q | Works(n, q) && q != p ensures Works(m, q) && n.procs[q].req.target.id != y.req.target.id {
    }
  }

  ghost predicate Taken(m: Manager, n: Manager, p: nat, y: Proc) {
    && ProcsMoved(m, n, p, Some(y)) && SameBook(m, n) && n.active == m.active
    && Reserving(m.procs[p]) && !Reserving(y) && y.req == m.procs[p].req
    && n.leased == if m.hasStore then m.leased - {y.req.target.id} else m.leased
  }

  lemma EntriesTaken(m: Manager, n: Manager, p: nat, y: Proc)
    requires EntriesOwned(m) && WorkersBooked(m) && Taken(m, n, p, y)
    ensures EntriesOwned(n)
  {
    hide Reserving;
    forall t | t in n.leased
      ensures t in n.active && n.active[t] != p && n.procs[n.active[t]] == m.procs[m.active[t]]
    {
      assert t in m.leased && t != y.req.target.id;
    }
  }

  lemma WorkersTaken(m: Manager, n: Manager, p: nat, y: Proc)
    requires FlightsMarked(m) && WorkersBooked(m) && Taken(m, n, p, y)
    ensures WorkersBooked(n)
  {
    forall q | Works(n, q) ensures Works(m, q) && n.procs[q].req.target.id != y.req.target.id {
    }
  }

  lemma CarriedKept(m: Manager, n: Manager, p: nat, y: Proc)
    requires CarriedOwn(m) && RenewerShape(m) && ProcsMoved(m, n, p, Some(y)) && SameBook(m, n) && CarriesOwn(m, y)
    ensures CarriedOwn(n) && RenewerShape(n)
  {
  }

  lemma BookRecords(m: Manager, clock: int, p: nat)
    requires Flight(m) && Book(m) && Enabled(m, Proceed(p, Record))
    ensures Book(NextProceed(m, clock, p, Record))
  {
    hide EntriesOwned, WorkersBooked, RenewerShape, MarksFly;
    var n, y := NextProceed(m, clock, p, Record), After(m, clock, m.procs[p], Record).value;
    ProceedMoves(m, clock, p, Record);
    EntriesRecorded(m, n, p, y);
    WorkersRecorded(m, n, p, y);
    CarriedKept(m, n, p, y);
  }

  /** The lease that is taken is the job's own. */
  lemma TakenIsOwn(m: Manager, clock: int, p: nat)
    requires Flight(m) && Book(m) && Enabled(m, Proceed(p, TakeLease))
    ensures CarriesOwn(m, After(m, clock, m.procs[p], TakeLease).value)
  {
    assert Works(m, p);
  }

  lemma TakeLeaseTakes(m: Manager, clock: int, p: nat)
    requires PidsBelow(m) && Enabled(m, Proceed(p, TakeLease))
    ensures After(m, clock, m.procs[p], TakeLease).Some?
    ensures Taken(m, NextProceed(m, clock, p, TakeLease), p, After(m, clock, m.procs[p], TakeLease).value)
  {
    ProceedMoves(m, clock, p, TakeLease);
  }

  lemma BookTakes(m: Manager, clock: int, p: nat)
    requires Flight(m) && Book(m) && Enabled(m, Proceed(p, TakeLease))
    ensures Book(NextProceed(m, clock, p, TakeLease))
  {
    TakenIsOwn(m, clock, p);
    hide EntriesOwned, WorkersBooked, RenewerShape, FlightsMarked, MarksFly, CarriesOwn;
    TakeLeaseTakes(m, clock, p);
    var n, y := NextProceed(m, clock, p, TakeLease), After(m, clock, m.procs[p], TakeLease).value;
    hide NextProceed, After, Taken;
    EntriesTaken(m, n, p, y);
    WorkersTaken(m, n, p, y);
    CarriedKept(m, n, p, y);
  }

  lemma BookSteps(m: Manager, clock: int, p: nat, s: Step)
    requires Flight(m) && Book(m) && Enabled(m, Proceed(p, s)) && !s.Record? && !s.TakeLease?
    ensures Book(NextProceed(m, clock, p, s))
  {
    hide EntriesOwned, WorkersBooked, RenewerShape, FlightsMarked, MarksFly;
    PhaseOfBook(m, clock, m.procs[p], s);
    ProceedMoves(m, clock, p, s);
    MarksSurvive(m, clock, p, s);
    BookMoved(m, NextProceed(m, clock, p, s), p, After(m, clock, m.procs[p], s));
  }

  lemma BookProceed(m: Manager, clock: int, p: nat, s: Step)
    requires Flight(m) && Book(m) && Enabled(m, Proceed(p, s))
    ensures Book(NextProceed(m, clock, p, s))
  {
    hide Flight, Book, NextProceed;
    if s.Record? {
      BookRecords(m, clock, p);
    } else if s.TakeLease? {
      BookTakes(m, clock, p);
    } else {
      BookSteps(m, clock, p, s);
    }
  }

  lemma BookSubmit(m: Manager, t: Target, attempt: int, job: Name, delayed: bool)
    requires Flight(m) && Book(m)
    ensures Book(NextSubmit(m, t, attempt, job, delayed))
  {
  }

  lemma EntriesRenewed(m: Manager, clock: int, r: RenewStep)
    requires EntriesOwned(m) && RenewerShape(m) && Enabled(m, Renew(r))
    ensures EntriesOwned(NextRenew(m, clock, r))
  {
    hide Reserving;
  }

  lemma WorkersRenewed(m: Manager, clock: int, r: RenewStep)
    requires WorkersBooked(m) && Enabled(m, Renew(r))
    ensures WorkersBooked(NextRenew(m, clock, r))
  {
    var n := NextRenew(m, clock, r);
    forall p | Works(n, p) ensures Works(m, p) {
    }
  }

  lemma RenewerMoved(m: Manager, clock: int, r: RenewStep)
    requires EntriesOwned(m) && CarriedOwn(m) && RenewerShape(m) && Enabled(m, Renew(r))
    ensures CarriedOwn(NextRenew(m, clock, r)) && RenewerShape(NextRenew(m, clock, r))
  {
  }

  lemma BookRenew(m: Manager, clock: int, r: RenewStep)
    requires Book(m) && Enabled(m, Renew(r))
    ensures Book(NextRenew(m, clock, r))
  {
    hide EntriesOwned, WorkersBooked, CarriedOwn, RenewerShape;
    EntriesRenewed(m, clock, r);
    WorkersRenewed(m, clock, r);
    RenewerMoved(m, clock, r);
  }

  lemma BookKept(m: Manager, clock: int, a: Action)
    requires Flight(m) && Book(m) && Enabled(m, a)
    ensures Book(Next(m, clock, a))
  {
    match a
    case Submit(t, attempt, job, delayed) => BookSubmit(m, t, attempt, job, delayed);
    case Proceed(p, s) => BookProceed(m, clock, p, s);
    case Renew(r) => BookRenew(m, clock, r);
  }
}
