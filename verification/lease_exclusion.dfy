/** Fleet-wide exclusion: at most one manager holds an unexpired lease for a target. */
module LeaseExclusion {
  import opened Names
  import opened Wrappers
  import opened Leases
  import opened ManagerModel
  import opened SingleFlight
  import opened LeaseBook
  import opened FleetModel

  /** The lease is expired, or the table has a row with its worker and job and an expiry no earlier. */
  predicate Covered(clock: int, rows: Table, l: Lease) {
    clock < l.expires ==> Owns(rows, l) && rows[l.target].expires >= l.expires
  }

  /** Phases in which a job's lease has not been recorded yet. */
  predicate Unrecorded(x: Proc) {
    x.Waiting? || x.Entering? || x.Checking? || x.Acquiring? || x.Recording?
  }

  /** Phases in which a job has not asked the table yet. */
  predicate Unasked(x: Proc) {
    x.Waiting? || x.Entering? || x.Checking? || x.Acquiring?
  }

  /** No clock reading lies in the future. */
  ghost predicate ReadsPast(clock: int, m: Manager) {
    && (forall p :: p in m.procs ==>
        && (m.procs[p].Checking? ==> m.procs[p].now <= clock)
        && (m.procs[p].Acquiring? || m.procs[p].Recording? ==> m.procs[p].lease.now <= clock))
    && (forall t :: t in m.leased ==> m.leased[t].now <= clock)
    && (!m.renewer.Idle? ==> m.renewer.now <= clock)
  }

  /** A job belongs to one process of one manager; only timers have no job yet. */
  ghost predicate JobsOwned(owners: map<Name, Owner>, m: Manager) {
    forall p :: p in m.procs ==>
      && (m.procs[p].req.job == EMPTY ==> m.procs[p].Waiting?)
      && (m.procs[p].req.job != EMPTY ==>
          m.procs[p].req.job in owners && owners[m.procs[p].req.job] == Owner(m.worker, p))
  }

  /** The lease belongs to a job of this manager that was recorded before. */
  ghost predicate JobRecorded(owners: map<Name, Owner>, m: Manager, l: Lease) {
    && l.job in owners && owners[l.job].worker == m.worker && owners[l.job].p < m.next
    && (owners[l.job].p in m.procs ==> !Unrecorded(m.procs[owners[l.job].p]))
  }

  ghost predicate RenewerRecorded(owners: map<Name, Owner>, m: Manager) {
    && (m.renewer.Renewing? || m.renewer.WritingBack? ==>
        forall t :: t in m.renewer.todo ==> JobRecorded(owners, m, m.renewer.todo[t]))
    && (m.renewer.WritingBack? ==> JobRecorded(owners, m, m.renewer.lease))
  }

  /** Every lease held locally, or about to be, is covered. */
  ghost predicate AllCovered(clock: int, rows: Table, m: Manager) {
    && (forall t :: t in m.leased ==> Covered(clock, rows, m.leased[t]))
    && (forall p :: p in m.procs && m.procs[p].Recording? ==> Covered(clock, rows, m.procs[p].lease))
    && (m.renewer.WritingBack? && StillHeld(m, m.renewer.lease) ==> Covered(clock, rows, m.renewer.lease))
  }

  /** An unexpired lease still to be renewed is not younger than the renewal. */
  ghost predicate TodoOlder(clock: int, m: Manager) {
    m.renewer.Renewing? || m.renewer.WritingBack? ==>
      forall t :: (t in m.renewer.todo && t in m.leased && m.leased[t].job == m.renewer.todo[t].job &&
                   clock < m.leased[t].expires) ==>
        m.leased[t].now <= m.renewer.now
  }

  ghost predicate ManagerSound(clock: int, rows: Table, owners: map<Name, Owner>, m: Manager) {
    && m.worker != EMPTY
    && Flight(m) && Book(m)
    && ReadsPast(clock, m)
    && JobsOwned(owners, m)
    && RenewerRecorded(owners, m)
    && AllCovered(clock, rows, m)
    && TodoOlder(clock, m)
  }

  /** Every row was written for a job that has asked for it. */
  ghost predicate RowSound(f: Fleet, r: Row) {
    && r.job in f.owners && f.owners[r.job].worker == r.worker && r.worker in f.mgrs
    && f.owners[r.job].p < f.mgrs[r.worker].next
    && (f.owners[r.job].p in f.mgrs[r.worker].procs ==> !Unasked(f.mgrs[r.worker].procs[f.owners[r.job].p]))
  }

  ghost predicate RowsSound(f: Fleet) {
    forall t :: t in f.rows ==> t != EMPTY && RowSound(f, f.rows[t])
  }

  ghost predicate FleetSound(f: Fleet) {
    && (forall w :: w in f.mgrs ==> f.mgrs[w].worker == w && ManagerSound(f.clock, f.rows, f.owners, f.mgrs[w]))
    && RowsSound(f)
  }

  lemma InitSound(f: Fleet)
    requires FleetInit(f)
    ensures FleetSound(f)
  {
  }

  // ----- the acting manager

  /** What a step does to one process, as far as leases are concerned. */
  lemma PhaseOfLease(m: Manager, clock: int, x: Proc, s: Step)
    requires CanStep(m, x, s)
    ensures After(m, clock, x, s).Some? ==>
      var y := After(m, clock, x, s).value;
      && (if s.Fire? then y.req.job == s.job && s.job != EMPTY else y.req == x.req)
      && (Unrecorded(y) ==> Unrecorded(x)) && (Unasked(y) ==> Unasked(x))
      && (y.Waiting? || y.Entering? ==> s.Fire?)
      && (y.Checking? ==> y.now == clock)
      && (y.Acquiring? ==> x.Checking? && y.lease.now == x.now)
      && (y.Recording? ==> s.StoreAcquire? && s.granted && s.applied && x.Acquiring? && y.lease == x.lease)
  {
  }

  lemma ReadsProceed(m: Manager, clock: int, p: nat, s: Step)
    requires ReadsPast(clock, m) && PidsBelow(m) && Enabled(m, Proceed(p, s))
    ensures ReadsPast(clock, NextProceed(m, clock, p, s))
  {
    PhaseOfLease(m, clock, m.procs[p], s);
    ProceedMoves(m, clock, p, s);
  }

  lemma JobsProceed(owners: map<Name, Owner>, m: Manager, clock: int, p: nat, s: Step)
    requires JobsOwned(owners, m) && PidsBelow(m) && Enabled(m, Proceed(p, s))
    requires CreatesJob(m, Proceed(p, s)) ==> s.job !in owners
    ensures JobsOwned(OwnersAfter(owners, m, Proceed(p, s)), NextProceed(m, clock, p, s))
  {
    PhaseOfLease(m, clock, m.procs[p], s);
    ProceedMoves(m, clock, p, s);
  }

  /** Once recorded, always recorded: process IDs are not reused and phases do not go back. */
  lemma RecordedProceed(owners: map<Name, Owner>, m: Manager, clock: int, p: nat, s: Step, l: Lease)
    requires JobRecorded(owners, m, l) && PidsBelow(m) && Enabled(m, Proceed(p, s))
    requires CreatesJob(m, Proceed(p, s)) ==> s.job !in owners
    ensures JobRecorded(OwnersAfter(owners, m, Proceed(p, s)), NextProceed(m, clock, p, s), l)
  {
    PhaseOfLease(m, clock, m.procs[p], s);
    ProceedMoves(m, clock, p, s);
  }

  lemma RenewerProceed(owners: map<Name, Owner>, m: Manager, clock: int, p: nat, s: Step)
    requires RenewerRecorded(owners, m) && PidsBelow(m) && Enabled(m, Proceed(p, s))
    requires CreatesJob(m, Proceed(p, s)) ==> s.job !in owners
    ensures RenewerRecorded(OwnersAfter(owners, m, Proceed(p, s)), NextProceed(m, clock, p, s))
  {
    var n := NextProceed(m, clock, p, s);
    var owners' := OwnersAfter(owners, m, Proceed(p, s));
    if n.renewer.Renewing? || n.renewer.WritingBack? {
      forall t | t in n.renewer.todo ensures JobRecorded(owners', n, n.renewer.todo[t]) {
        RecordedProceed(owners, m, clock, p, s, n.renewer.todo[t]);
      }
    }
    if n.renewer.WritingBack? {
      RecordedProceed(owners, m, clock, p, s, n.renewer.lease);
    }
  }

  /** No lease of m other than the one p carries names p's target. */
  ghost predicate Alone(m: Manager, p: nat) {
    && p in m.procs
    && m.procs[p].req.target.id !in m.leased
    && (forall q :: q in m.procs && m.procs[q].Recording? && q != p ==>
        m.procs[q].lease.target != m.procs[p].req.target.id)
    && (forall t :: t in m.leased ==> m.leased[t].target == t)
    && (Carries(m.procs[p]) ==> m.procs[p].lease.target == m.procs[p].req.target.id)
  }

  /** So it is while p is in flight for its target without working. */
  lemma AloneOnTarget(m: Manager, p: nat)
    requires Flight(m) && Book(m) && p in m.procs && InFlight(m.procs[p]) && !Reserving(m.procs[p])
    ensures Alone(m, p)
  {
    assert m.active[m.procs[p].req.target.id] == p;
    forall q | q in m.procs && m.procs[q].Recording? && q != p
      ensures m.procs[q].lease.target != m.procs[p].req.target.id
    {
      assert m.active[m.procs[q].req.target.id] == q;
    }
  }

  /** A statement for p's target leaves every other lease of the manager covered. */
  lemma CoverApart(clock: int, rows: Table, rows': Table, m: Manager, n: Manager, p: nat, y: Proc)
    requires AllCovered(clock, rows, m) && ProcsMoved(m, n, p, Some(y)) && n.leased == m.leased && n.renewer == m.renewer
    requires Alone(m, p)
    requires forall u :: u != m.procs[p].req.target.id ==>
      (u in rows <==> u in rows') && (u in rows ==> rows'[u] == rows[u])
    requires y.Recording? ==> Covered(clock, rows', y.lease)
    ensures AllCovered(clock, rows', n)
  {
  }

  /** Each statement touches only the row of its target, and a granted lease has its row. */
  lemma StatementIsLocal(rows: Table, l: Lease)
    ensures forall u :: u != l.target ==> (u in rows <==> u in AfterAcquire(rows, l)) &&
                                          (u in rows ==> AfterAcquire(rows, l)[u] == rows[u])
    ensures forall u :: u != l.target ==> (u in rows <==> u in AfterRelease(rows, l)) &&
                                          (u in rows ==> AfterRelease(rows, l)[u] == rows[u])
    ensures Free(rows, l) ==> forall clock :: Covered(clock, AfterAcquire(rows, l), l)
  {
  }

  lemma CoverAcquires(clock: int, rows: Table, m: Manager, p: nat, granted: bool, applied: bool)
    requires PidsBelow(m) && Alone(m, p) && AllCovered(clock, rows, m)
    requires Enabled(m, Proceed(p, StoreAcquire(granted, applied)))
    requires StoreAnswers(rows, m, Proceed(p, StoreAcquire(granted, applied)))
    ensures AllCovered(clock, RowsAfter(rows, m, Proceed(p, StoreAcquire(granted, applied))),
                       NextProceed(m, clock, p, StoreAcquire(granted, applied)))
  {
    var s := StoreAcquire(granted, applied);
    ProceedMoves(m, clock, p, s);
    StatementIsLocal(rows, m.procs[p].lease);
    CoverApart(clock, rows, RowsAfter(rows, m, Proceed(p, s)), m, NextProceed(m, clock, p, s), p,
               After(m, clock, m.procs[p], s).value);
  }

  lemma CoverDeletes(clock: int, rows: Table, m: Manager, p: nat, applied: bool)
    requires PidsBelow(m) && Alone(m, p) && AllCovered(clock, rows, m) && Enabled(m, Proceed(p, StoreDelete(applied)))
    ensures AllCovered(clock, RowsAfter(rows, m, Proceed(p, StoreDelete(applied))),
                       NextProceed(m, clock, p, StoreDelete(applied)))
  {
    var s := StoreDelete(applied);
    ProceedMoves(m, clock, p, s);
    StatementIsLocal(rows, m.procs[p].lease);
    CoverApart(clock, rows, RowsAfter(rows, m, Proceed(p, s)), m, NextProceed(m, clock, p, s), p,
               After(m, clock, m.procs[p], s).value);
  }

  /** Recording puts a covered lease in the book; it is not the one being written back. */
  lemma CoverAdded(clock: int, rows: Table, m: Manager, n: Manager, p: nat, y: Proc)
    requires AllCovered(clock, rows, m) && ProcsMoved(m, n, p, Some(y)) && m.procs[p].Recording? && !y.Recording?
    requires n.leased == m.leased[y.req.target.id := m.procs[p].lease] && n.renewer == m.renewer
    requires m.renewer.WritingBack? ==> m.renewer.lease.job != m.procs[p].lease.job
    ensures AllCovered(clock, rows, n)
  {
    hide Covered;
  }

  lemma CoverRecords(clock: int, rows: Table, owners: map<Name, Owner>, m: Manager, p: nat)
    requires Book(m) && JobsOwned(owners, m) && RenewerRecorded(owners, m) && AllCovered(clock, rows, m)
    requires PidsBelow(m) && Enabled(m, Proceed(p, Record))
    ensures AllCovered(clock, rows, NextProceed(m, clock, p, Record))
  {
    ProceedMoves(m, clock, p, Record);
    if m.renewer.WritingBack? {
      NoneOnTheWay(owners, m, m.renewer.lease);
    }
    hide Book, JobsOwned, RenewerRecorded, PidsBelow, AllCovered;
    CoverAdded(clock, rows, m, NextProceed(m, clock, p, Record), p, Offering(m.procs[p].req));
  }

  lemma CoverMoves(clock: int, rows: Table, m: Manager, p: nat, s: Step)
    requires AllCovered(clock, rows, m) && PidsBelow(m) && Enabled(m, Proceed(p, s))
    requires !s.StoreAcquire? && !s.StoreDelete? && !s.Record?
    ensures AllCovered(clock, RowsAfter(rows, m, Proceed(p, s)), NextProceed(m, clock, p, s))
  {
    PhaseOfLease(m, clock, m.procs[p], s);
    ProceedMoves(m, clock, p, s);
  }

  lemma TodoProceed(owners: map<Name, Owner>, m: Manager, clock: int, p: nat, s: Step)
    requires Book(m) && JobsOwned(owners, m) && RenewerRecorded(owners, m) && TodoOlder(clock, m)
    requires PidsBelow(m) && Enabled(m, Proceed(p, s))
    ensures TodoOlder(clock, NextProceed(m, clock, p, s))
  {
    if s.Record? && (m.renewer.Renewing? || m.renewer.WritingBack?) {
      forall t | t in m.renewer.todo ensures m.procs[p].lease.job != m.renewer.todo[t].job {
        NoneOnTheWay(owners, m, m.renewer.todo[t]);
      }
    }
    hide JobsOwned, RenewerRecorded, PidsBelow, Book;
  }

  lemma CoverProceed(clock: int, rows: Table, owners: map<Name, Owner>, m: Manager, p: nat, s: Step)
    requires Flight(m) && Book(m) && JobsOwned(owners, m) && RenewerRecorded(owners, m) && AllCovered(clock, rows, m)
    requires Enabled(m, Proceed(p, s)) && StoreAnswers(rows, m, Proceed(p, s))
    ensures AllCovered(clock, RowsAfter(rows, m, Proceed(p, s)), NextProceed(m, clock, p, s))
  {
    if s.StoreAcquire? {
      AloneOnTarget(m, p);
      CoverAcquires(clock, rows, m, p, s.granted, s.applied);
    } else if s.StoreDelete? {
      AloneOnTarget(m, p);
      CoverDeletes(clock, rows, m, p, s.applied);
    } else if s.Record? {
      CoverRecords(clock, rows, owners, m, p);
    } else {
      CoverMoves(clock, rows, m, p, s);
    }
  }

  lemma ManagerProceed(clock: int, rows: Table, owners: map<Name, Owner>, m: Manager, p: nat, s: Step)
    requires ManagerSound(clock, rows, owners, m) && Enabled(m, Proceed(p, s))
    requires StoreAnswers(rows, m, Proceed(p, s)) && (CreatesJob(m, Proceed(p, s)) ==> s.job !in owners)
    ensures ManagerSound(clock, RowsAfter(rows, m, Proceed(p, s)), OwnersAfter(owners, m, Proceed(p, s)),
                         NextProceed(m, clock, p, s))
  {
    FlightProceed(m, clock, p, s);
    BookProceed(m, clock, p, s);
    ReadsProceed(m, clock, p, s);
    JobsProceed(owners, m, clock, p, s);
    RenewerProceed(owners, m, clock, p, s);
    TodoProceed(owners, m, clock, p, s);
    CoverProceed(clock, rows, owners, m, p, s);
  }

  lemma RecordedSubmit(owners: map<Name, Owner>, m: Manager, a: Action, l: Lease, clock: int)
    requires JobRecorded(owners, m, l) && a.Submit? && a.job !in owners && Enabled(m, a)
    ensures JobRecorded(OwnersAfter(owners, m, a), Next(m, clock, a), l)
  {
  }

  lemma ReadsSubmit(clock: int, owners: map<Name, Owner>, m: Manager, a: Action)
    requires ReadsPast(clock, m) && JobsOwned(owners, m) && PidsBelow(m)
    requires a.Submit? && Enabled(m, a) && a.job !in owners
    ensures ReadsPast(clock, Next(m, clock, a)) && JobsOwned(OwnersAfter(owners, m, a), Next(m, clock, a))
  {
  }

  lemma CoverSubmit(clock: int, rows: Table, m: Manager, a: Action)
    requires AllCovered(clock, rows, m) && TodoOlder(clock, m) && PidsBelow(m) && a.Submit? && Enabled(m, a)
    ensures AllCovered(clock, rows, Next(m, clock, a)) && TodoOlder(clock, Next(m, clock, a))
  {
  }

  lemma RenewerSubmit(clock: int, owners: map<Name, Owner>, m: Manager, a: Action)
    requires RenewerRecorded(owners, m) && a.Submit? && Enabled(m, a) && a.job !in owners
    ensures RenewerRecorded(OwnersAfter(owners, m, a), Next(m, clock, a))
  {
    if m.renewer.Renewing? || m.renewer.WritingBack? {
      forall t | t in m.renewer.todo
        ensures JobRecorded(OwnersAfter(owners, m, a), Next(m, clock, a), m.renewer.todo[t])
      {
        RecordedSubmit(owners, m, a, m.renewer.todo[t], clock);
      }
    }
    if m.renewer.WritingBack? {
      RecordedSubmit(owners, m, a, m.renewer.lease, clock);
    }
  }

  lemma ManagerSubmits(clock: int, rows: Table, owners: map<Name, Owner>, m: Manager, a: Action)
    requires ManagerSound(clock, rows, owners, m) && a.Submit? && Enabled(m, a) && a.job !in owners
    ensures ManagerSound(clock, rows, OwnersAfter(owners, m, a), Next(m, clock, a))
  {
    FlightKept(m, clock, a);
    BookKept(m, clock, a);
    ReadsSubmit(clock, owners, m, a);
    CoverSubmit(clock, rows, m, a);
    RenewerSubmit(clock, owners, m, a);
  }

  // ----- the renewer

  /** The job of a lease to be renewed has no lease on its way into the book. */
  lemma NoneOnTheWay(owners: map<Name, Owner>, m: Manager, l: Lease)
    requires Book(m) && JobsOwned(owners, m) && JobRecorded(owners, m, l)
    ensures forall q :: q in m.procs && m.procs[q].Recording? ==> m.procs[q].lease.job != l.job
  {
  }

  /** What remains covered when the row of r, and only that, is moved to r's expiry. */
  lemma CoverOneRenewal(clock: int, rows: Table, r: Lease, l: Lease)
    requires Covered(clock, rows, l)
    requires clock < l.expires && l.target == r.target && l.worker == r.worker && l.job == r.job ==>
      l.expires <= r.expires
    ensures Covered(clock, AfterRenew(rows, r), l)
  {
  }

  /** The step of the renewal that decides safety: the book stays covered exactly when
      the lease held locally does not outlast the renewal. */
  lemma RenewalCoversIff(clock: int, rows: Table, r: Lease, l: Lease)
    requires Covered(clock, rows, l) && clock < l.expires
    requires l.target == r.target && l.worker == r.worker && l.job == r.job && Renewable(rows, r)
    ensures Covered(clock, AfterRenew(rows, r), l) <==> l.expires <= r.expires
  {
  }

  /** A renewal keeps the leases of its manager covered: they are no younger than it is. */
  lemma CoverRenews(clock: int, rows: Table, owners: map<Name, Owner>, m: Manager, t: Name, granted: bool, applied: bool)
    requires Book(m) && JobsOwned(owners, m) && RenewerRecorded(owners, m)
    requires AllCovered(clock, rows, m) && TodoOlder(clock, m)
    requires Enabled(m, Renew(RenewStore(t, granted, applied)))
    requires StoreAnswers(rows, m, Renew(RenewStore(t, granted, applied)))
    ensures AllCovered(clock, RowsAfter(rows, m, Renew(RenewStore(t, granted, applied))),
                       NextRenew(m, clock, RenewStore(t, granted, applied)))
  {
    var r := RenewalOf(m, t);
    NoneOnTheWay(owners, m, m.renewer.todo[t]);
    forall u | u in m.leased ensures Covered(clock, AfterRenew(rows, r), m.leased[u]) {
      CoverOneRenewal(clock, rows, r, m.leased[u]);
    }
    forall q | q in m.procs && m.procs[q].Recording? ensures Covered(clock, AfterRenew(rows, r), m.procs[q].lease) {
      CoverOneRenewal(clock, rows, r, m.procs[q].lease);
    }
  }

  /** A snapshot lists jobs that are at work, hence recorded. */
  lemma SnapshotJobRecorded(owners: map<Name, Owner>, m: Manager)
    requires PidsBelow(m) && EntriesOwned(m) && JobsOwned(owners, m)
    ensures forall t :: t in m.leased ==> JobRecorded(owners, m, m.leased[t])
  {
  }

  lemma ReadsRenew(clock: int, rows: Table, owners: map<Name, Owner>, m: Manager, r: RenewStep)
    requires ReadsPast(clock, m) && JobsOwned(owners, m) && TodoOlder(clock, m) && RenewerShape(m)
    requires Enabled(m, Renew(r)) && (r.RenewSnapshot? ==> InOrder(clock, m))
    ensures ReadsPast(clock, NextRenew(m, clock, r)) && JobsOwned(owners, NextRenew(m, clock, r))
    ensures TodoOlder(clock, NextRenew(m, clock, r))
  {
  }

  lemma RecordedRenew(owners: map<Name, Owner>, m: Manager, clock: int, r: RenewStep)
    requires RenewerRecorded(owners, m) && Enabled(m, Renew(r))
    requires forall t :: t in m.leased ==> JobRecorded(owners, m, m.leased[t])
    ensures RenewerRecorded(owners, NextRenew(m, clock, r))
  {
  }

  lemma CoverRests(clock: int, rows: Table, m: Manager, r: RenewStep)
    requires AllCovered(clock, rows, m) && Enabled(m, Renew(r)) && !r.RenewStore?
    ensures AllCovered(clock, rows, NextRenew(m, clock, r))
  {
  }

  lemma ManagerRenews(clock: int, rows: Table, owners: map<Name, Owner>, m: Manager, r: RenewStep)
    requires ManagerSound(clock, rows, owners, m) && Enabled(m, Renew(r))
    requires StoreAnswers(rows, m, Renew(r)) && (r.RenewSnapshot? ==> InOrder(clock, m))
    ensures ManagerSound(clock, RowsAfter(rows, m, Renew(r)), owners, NextRenew(m, clock, r))
  {
    FlightKept(m, clock, Renew(r));
    BookRenew(m, clock, r);
    SnapshotJobRecorded(owners, m);
    ReadsRenew(clock, rows, owners, m, r);
    RecordedRenew(owners, m, clock, r);
    if r.RenewStore? {
      CoverRenews(clock, rows, owners, m, r.t, r.granted, r.applied);
    } else {
      CoverRests(clock, rows, m, r);
    }
  }

  // ----- the other managers

  /** Rows that change belong to w, or had expired, or did not exist. */
  ghost predicate RowsChangedBy(w: Name, clock: int, rows: Table, rows': Table) {
    forall t :: t in rows && rows[t].worker != w && clock < rows[t].expires ==> t in rows' && rows'[t] == rows[t]
  }

  lemma StatementsOfOne(clock: int, rows: Table, m: Manager, a: Action)
    requires Book(m) && ReadsPast(clock, m) && Enabled(m, a)
    ensures RowsChangedBy(m.worker, clock, rows, RowsAfter(rows, m, a))
  {
  }

  lemma OthersKept(clock: int, rows: Table, rows': Table, owners: map<Name, Owner>, owners': map<Name, Owner>,
                   w: Name, m: Manager)
    requires ManagerSound(clock, rows, owners, m) && m.worker != w
    requires RowsChangedBy(w, clock, rows, rows')
    requires forall j :: j in owners ==> j in owners' && owners'[j] == owners[j]
    ensures ManagerSound(clock, rows', owners', m)
  {
  }

  lemma ClockKept(clock: int, clock': int, rows: Table, owners: map<Name, Owner>, m: Manager)
    requires ManagerSound(clock, rows, owners, m) && clock <= clock'
    ensures ManagerSound(clock', rows, owners, m)
  {
  }

  // ----- the table

  /** A job of m that has asked the table stays so. */
  ghost predicate Asked(owners: map<Name, Owner>, m: Manager, j: Name) {
    && j in owners && owners[j].worker == m.worker && owners[j].p < m.next
    && (owners[j].p in m.procs ==> !Unasked(m.procs[owners[j].p]))
  }

  lemma AskedKept(owners: map<Name, Owner>, m: Manager, clock: int, a: Action, j: Name)
    requires Asked(owners, m, j) && PidsBelow(m) && Enabled(m, a)
    requires CreatesJob(m, a) ==> JobCreated(a) !in owners
    ensures Asked(OwnersAfter(owners, m, a), Next(m, clock, a), j)
  {
    if a.Proceed? {
      PhaseOfLease(m, clock, m.procs[a.p], a.s);
      ProceedMoves(m, clock, a.p, a.s);
    }
  }

  /** After its statement, the acquiring job has asked. */
  lemma AcquirerAsked(owners: map<Name, Owner>, m: Manager, clock: int, p: nat, s: Step)
    requires PidsBelow(m) && JobsOwned(owners, m) && CarriedOwn(m) && Enabled(m, Proceed(p, s)) && s.StoreAcquire?
    ensures Asked(owners, NextProceed(m, clock, p, s), m.procs[p].lease.job)
  {
  }

  /** A row after an action keeps the worker and job of the row before, or is the acquirer's. */
  lemma RowsComeFrom(rows: Table, m: Manager, a: Action, t: Name)
    requires Enabled(m, a) && t in RowsAfter(rows, m, a)
    ensures var r := RowsAfter(rows, m, a)[t];
      || (t in rows && rows[t].worker == r.worker && rows[t].job == r.job)
      || (a.Proceed? && a.s.StoreAcquire? && r == RowOf(m.procs[a.p].lease))
    ensures t in rows || t != EMPTY
  {
  }

  lemma RowFacts(f: Fleet, t: Name)
    requires FleetSound(f) && t in f.rows
    ensures t != EMPTY && RowSound(f, f.rows[t])
  {
  }

  lemma ActorFacts(f: Fleet, w: Name)
    requires FleetSound(f) && w in f.mgrs
    ensures f.mgrs[w].worker == w && PidsBelow(f.mgrs[w]) && CarriedOwn(f.mgrs[w]) && JobsOwned(f.owners, f.mgrs[w])
  {
    assert ManagerSound(f.clock, f.rows, f.owners, f.mgrs[w]);
  }

  lemma OwnersGrow(owners: map<Name, Owner>, m: Manager, a: Action)
    requires Enabled(m, a) && (CreatesJob(m, a) ==> JobCreated(a) !in owners)
    ensures forall j :: j in owners ==> j in OwnersAfter(owners, m, a) && OwnersAfter(owners, m, a)[j] == owners[j]
  {
  }

  /** A row after an action of m is another manager's row as before, or for a job of m that has asked. */
  lemma RowAsked(rows: Table, owners: map<Name, Owner>, m: Manager, clock: int, a: Action, t: Name)
    requires Enabled(m, a) && t in RowsAfter(rows, m, a)
    requires PidsBelow(m) && CarriedOwn(m) && JobsOwned(owners, m)
    requires CreatesJob(m, a) ==> JobCreated(a) !in owners
    requires t in rows && rows[t].worker == m.worker ==> Asked(owners, m, rows[t].job)
    ensures var r := RowsAfter(rows, m, a)[t];
      if r.worker == m.worker then Asked(OwnersAfter(owners, m, a), Next(m, clock, a), r.job)
      else t in rows && rows[t].worker == r.worker && rows[t].job == r.job
  {
    RowsComeFrom(rows, m, a, t);
    var r := RowsAfter(rows, m, a)[t];
    hide RowsAfter, Asked;
    if t in rows && rows[t].worker == r.worker && rows[t].job == r.job {
      if r.worker == m.worker {
        AskedKept(owners, m, clock, a, r.job);
      }
    } else {
      AcquirerAsked(owners, m, clock, a.p, a.s);
    }
  }

  lemma WorkerKept(m: Manager, clock: int, a: Action)
    requires Enabled(m, a)
    ensures Next(m, clock, a).worker == m.worker
  {
  }

  lemma RowKept(f: Fleet, fa: FleetAction, t: Name)
    requires FleetSound(f) && FleetEnabled(f, fa) && fa.Act? && t in FleetNext(f, fa).rows
    ensures t != EMPTY && RowSound(FleetNext(f, fa), FleetNext(f, fa).rows[t])
  {
    hide FleetSound, Next, Enabled, StoreAnswers, OwnersAfter, RowsAfter;
    hide PidsBelow, JobsOwned, CarriedOwn, CreatesJob;
    var m := f.mgrs[fa.w];
    WorkerKept(m, f.clock, fa.a);
    ActorFacts(f, fa.w);
    OwnersGrow(f.owners, m, fa.a);
    RowsComeFrom(f.rows, m, fa.a, t);
    if t in f.rows {
      RowFacts(f, t);
    }
    RowAsked(f.rows, f.owners, m, f.clock, fa.a, t);
  }

  // ----- every run

  lemma ActorKept(clock: int, rows: Table, owners: map<Name, Owner>, m: Manager, a: Action)
    requires ManagerSound(clock, rows, owners, m) && Enabled(m, a) && StoreAnswers(rows, m, a)
    requires CreatesJob(m, a) ==> JobCreated(a) !in owners
    requires a == Renew(RenewSnapshot) ==> InOrder(clock, m)
    ensures ManagerSound(clock, RowsAfter(rows, m, a), OwnersAfter(owners, m, a), Next(m, clock, a))
  {
    match a
    case Submit(_, _, _, _) => ManagerSubmits(clock, rows, owners, m, a);
    case Proceed(p, s) => ManagerProceed(clock, rows, owners, m, p, s);
    case Renew(r) => ManagerRenews(clock, rows, owners, m, r);
  }

  lemma TickKept(f: Fleet, d: nat)
    requires FleetSound(f)
    ensures FleetSound(FleetNext(f, Tick(d)))
  {
    hide ManagerSound;
    forall w | w in f.mgrs ensures ManagerSound(f.clock + d, f.rows, f.owners, f.mgrs[w]) {
      ClockKept(f.clock, f.clock + d, f.rows, f.owners, f.mgrs[w]);
    }
  }

  lemma ManagersKept(f: Fleet, w: Name, a: Action, v: Name)
    requires FleetSound(f) && FleetEnabled(f, Act(w, a)) && Orderly(f, Act(w, a)) && v in f.mgrs
    ensures var g := FleetNext(f, Act(w, a));
      g.mgrs[v].worker == v && ManagerSound(g.clock, g.rows, g.owners, g.mgrs[v])
  {
    var g := FleetNext(f, Act(w, a));
    if v == w {
      ActorKept(f.clock, f.rows, f.owners, f.mgrs[w], a);
    } else {
      StatementsOfOne(f.clock, f.rows, f.mgrs[w], a);
      OthersKept(f.clock, f.rows, g.rows, f.owners, g.owners, w, f.mgrs[v]);
    }
  }

  lemma SoundKept(f: Fleet, fa: FleetAction)
    requires FleetSound(f) && FleetEnabled(f, fa) && Orderly(f, fa)
    ensures FleetSound(FleetNext(f, fa))
  {
    match fa
    case Tick(d) => TickKept(f, d);
    case Act(w, a) =>
      var g := FleetNext(f, fa);
      forall v | v in g.mgrs ensures g.mgrs[v].worker == v && ManagerSound(g.clock, g.rows, g.owners, g.mgrs[v]) {
        ManagersKept(f, w, a, v);
      }
      forall t | t in g.rows ensures t != EMPTY && RowSound(g, g.rows[t]) {
        RowKept(f, fa, t);
      }
  }

  lemma {:induction false} RunSound(f: Fleet, acts: seq<FleetAction>, g: Fleet)
    requires FleetSound(f) && RunsOrderly(f, acts, g)
    ensures FleetSound(g)
    decreases |acts|
  {
    if acts != [] {
      SoundKept(f, acts[0]);
      RunSound(FleetNext(f, acts[0]), acts[1..], g);
    }
  }

  /** Manager w holds an unexpired lease for target t. */
  predicate HoldsUnexpired(f: Fleet, w: Name, t: Name) {
    w in f.mgrs && t in f.mgrs[w].leased && f.clock < f.mgrs[w].leased[t].expires
  }

  lemma SoundExcludes(f: Fleet, v: Name, w: Name, t: Name)
    requires FleetSound(f) && HoldsUnexpired(f, v, t) && HoldsUnexpired(f, w, t)
    ensures v == w
  {
    assert Covered(f.clock, f.rows, f.mgrs[v].leased[t]) && Covered(f.clock, f.rows, f.mgrs[w].leased[t]);
  }

  /** In every state of every orderly run from an initial fleet, no two managers hold an
      unexpired lease for the same target. */
  lemma Exclusion(f: Fleet, acts: seq<FleetAction>, g: Fleet, v: Name, w: Name, t: Name)
    requires FleetInit(f) && RunsOrderly(f, acts, g)
    requires HoldsUnexpired(g, v, t) && HoldsUnexpired(g, w, t)
    ensures v == w
  {
    InitSound(f);
    RunSound(f, acts, g);
    SoundExcludes(g, v, w, t);
  }

  /** Manager w runs the handler for target t in process p. */
  predicate HandlesIn(f: Fleet, w: Name, p: nat, t: Name) {
    w in f.mgrs && p in f.mgrs[w].procs && f.mgrs[w].procs[p].Handling? && f.mgrs[w].procs[p].req.target.id == t
  }

  /** Two handlers for one target never run together unless a lease has lapsed. A handler is not
      stopped when its lease lapses, so this is as much as the protocol gives. */
  lemma HandlersExclude(f: Fleet, acts: seq<FleetAction>, g: Fleet, v: Name, p: nat, w: Name, q: nat, t: Name)
    requires FleetInit(f) && RunsOrderly(f, acts, g)
    requires HandlesIn(g, v, p, t) && HandlesIn(g, w, q, t) && (v, p) != (w, q)
    requires g.mgrs[v].hasStore && g.mgrs[w].hasStore
    ensures v != w
    ensures t in g.mgrs[v].leased && t in g.mgrs[w].leased
    ensures g.mgrs[v].leased[t].expires <= g.clock || g.mgrs[w].leased[t].expires <= g.clock
  {
    InitSound(f);
    RunSound(f, acts, g);
    assert Works(g.mgrs[v], p) && Works(g.mgrs[w], q);
    if HoldsUnexpired(g, v, t) && HoldsUnexpired(g, w, t) {
      Exclusion(f, acts, g, v, w, t);
    }
  }
}
