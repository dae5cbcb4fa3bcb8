/** N managers sharing one lease table and one clock. */
module FleetModel {
  import opened Names
  import opened Leases
  import opened Settings
  import opened ManagerModel

  /** Who a job was created for: history, used to say that job IDs are fresh. */
  datatype Owner = Owner(worker: Name, p: nat)

  /** `mgrs` is keyed by worker ID, so worker IDs are distinct. */
  datatype Fleet = Fleet(clock: int, rows: Table, mgrs: map<Name, Manager>, owners: map<Name, Owner>)

  datatype FleetAction =
    | Tick(d: nat)
    | Act(w: Name, a: Action)

  /** The job an action creates, if any. */
  predicate CreatesJob(m: Manager, a: Action) {
    a.Submit? || (a.Proceed? && a.s.Fire? && a.p in m.procs && m.procs[a.p].req.job == EMPTY)
  }

  function JobCreated(a: Action): Name {
    if a.Submit? then a.job else if a.Proceed? && a.s.Fire? then a.s.job else EMPTY
  }

  function OwnersAfter(owners: map<Name, Owner>, m: Manager, a: Action): map<Name, Owner> {
    if !CreatesJob(m, a) then owners
    else owners[JobCreated(a) := Owner(m.worker, if a.Proceed? then a.p else m.next)]
  }

  /** The lease a renewal statement sends. */
  function RenewalOf(m: Manager, t: Name): Lease
    requires m.renewer.Renewing? && t in m.renewer.todo
  {
    Renewed(m.renewer.todo[t], m.renewer.now, m.cfg.leaseTTL)
  }

  /** The table after an action; a statement that was not applied, or whose lease is invalid, changes nothing. */
  function RowsAfter(rows: Table, m: Manager, a: Action): Table
    requires Enabled(m, a)
  {
    match a
    case Proceed(p, StoreAcquire(_, applied)) =>
      if applied && Validate(m.procs[p].lease).None? then AfterAcquire(rows, m.procs[p].lease) else rows
    case Proceed(p, StoreDelete(applied)) =>
      if applied then AfterRelease(rows, m.procs[p].lease) else rows
    case Renew(RenewStore(t, _, applied)) =>
      if applied && Validate(RenewalOf(m, t)).None? then AfterRenew(rows, RenewalOf(m, t)) else rows
    case _ => rows
  }

  /** The store grants only what its statement allows. A refusal may also be a lost reply. */
  predicate StoreAnswers(rows: Table, m: Manager, a: Action)
    requires Enabled(m, a)
  {
    match a
    case Proceed(p, StoreAcquire(granted, _)) => granted ==> Free(rows, m.procs[p].lease)
    case Renew(RenewStore(t, granted, _)) => granted ==> Renewable(rows, RenewalOf(m, t))
    case _ => true
  }

  predicate FleetEnabled(f: Fleet, fa: FleetAction) {
    match fa
    case Tick(_) => true
    case Act(w, a) =>
      && w in f.mgrs
      && Enabled(f.mgrs[w], a)
      && StoreAnswers(f.rows, f.mgrs[w], a)
      && (CreatesJob(f.mgrs[w], a) ==> JobCreated(a) !in f.owners)
  }

  function FleetNext(f: Fleet, fa: FleetAction): Fleet
    requires FleetEnabled(f, fa)
  {
    match fa
    case Tick(d) => f.(clock := f.clock + d)
    case Act(w, a) =>
      var m := f.mgrs[w];
      Fleet(f.clock, RowsAfter(f.rows, m, a), f.mgrs[w := Next(m, f.clock, a)], OwnersAfter(f.owners, m, a))
  }

  /** What the statements of a manager do to the table when they are applied, whatever reply it gets: a missing,
      expired or own row becomes the lease asked for; a row of its own that is unexpired at the renewer's
      clock reading is extended from there; a row of its own is deleted. Every other row stays. */
  lemma StatementsMean(f: Fleet, w: Name, a: Action)
    requires FleetEnabled(f, Act(w, a))
    ensures var m, n := f.mgrs[w], FleetNext(f, Act(w, a)); var rows := f.rows;
      && (a.Proceed? && a.s.StoreAcquire? && a.s.applied && Validate(m.procs[a.p].lease).None? ==>
          var l := m.procs[a.p].lease;
          n.rows == if l.target !in rows || rows[l.target].expires <= l.now ||
                       (rows[l.target].worker == l.worker && rows[l.target].job == l.job)
                    then rows[l.target := Row(l.worker, l.job, l.expires, l.now)] else rows)
      && (a.Renew? && a.r.RenewStore? && a.r.applied && Validate(RenewalOf(m, a.r.t)).None? ==>
          var l, now := m.renewer.todo[a.r.t], m.renewer.now;
          n.rows == if l.target in rows && rows[l.target].worker == l.worker && rows[l.target].job == l.job &&
                       rows[l.target].expires > now
                    then rows[l.target := Row(l.worker, l.job, now + m.cfg.leaseTTL, now)] else rows)
      && (a.Proceed? && a.s.StoreDelete? && a.s.applied ==>
          var l := m.procs[a.p].lease;
          n.rows == if l.target in rows && rows[l.target].worker == l.worker && rows[l.target].job == l.job
                    then rows - {l.target} else rows)
  {
  }

  ghost predicate FleetInit(f: Fleet) {
    && f.rows == map[] && f.owners == map[]
    && forall w :: w in f.mgrs ==>
      w != EMPTY && Normal(f.mgrs[w].cfg) && f.mgrs[w] == Init(f.mgrs[w].cfg, w, f.mgrs[w].hasStore)
  }

  /** A snapshot is in order when no unexpired lease is younger than the renewer's clock reading. */
  predicate InOrder(clock: int, m: Manager) {
    m.renewer.Ticked? ==>
      forall t :: t in m.leased && clock < m.leased[t].expires ==> m.leased[t].now <= m.renewer.now
  }

  predicate Orderly(f: Fleet, fa: FleetAction) {
    fa.Act? && fa.w in f.mgrs && fa.a == Renew(RenewSnapshot) ==> InOrder(f.clock, f.mgrs[fa.w])
  }

  /** The state after a list of actions, each enabled in turn. */
  ghost predicate Runs(f: Fleet, acts: seq<FleetAction>, g: Fleet)
    decreases |acts|
  {
    if acts == [] then g == f
    else FleetEnabled(f, acts[0]) && Runs(FleetNext(f, acts[0]), acts[1..], g)
  }

  /** The same, with every snapshot in order. */
  ghost predicate RunsOrderly(f: Fleet, acts: seq<FleetAction>, g: Fleet)
    decreases |acts|
  {
    if acts == [] then g == f
    else FleetEnabled(f, acts[0]) && Orderly(f, acts[0]) && RunsOrderly(FleetNext(f, acts[0]), acts[1..], g)
  }
}
