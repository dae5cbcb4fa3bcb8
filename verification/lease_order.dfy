/** Why snapshots must be in order: the renewer reads its clock before it takes the snapshot, and a lease
    reserved in between is cut short in the table while the local copy stays long. */
module LeaseOrder {
  import opened Names
  import opened Leases
  import opened ManagerModel
  import opened LeaseBook
  import opened FleetModel
  import opened LeaseExclusion

  /** An orderly run is a run. */
  lemma {:induction false} OrderlyRuns(f: Fleet, acts: seq<FleetAction>, g: Fleet)
    requires RunsOrderly(f, acts, g)
    ensures Runs(f, acts, g)
    decreases |acts|
  {
    if acts != [] {
      OrderlyRuns(FleetNext(f, acts[0]), acts[1..], g);
    }
  }

  lemma {:induction false} RunsConcat(f: Fleet, a: seq<FleetAction>, g: Fleet, b: seq<FleetAction>, h: Fleet)
    requires RunsOrderly(f, a, g) && RunsOrderly(g, b, h)
    ensures RunsOrderly(f, a + b, h)
    decreases |a|
  {
    if a == [] {
      assert a + b == b;
    } else {
      RunsConcat(FleetNext(f, a[0]), a[1..], g, b, h);
      assert (a + b)[1..] == a[1..] + b;
    }
  }

  lemma RunsOne(f: Fleet, fa: FleetAction)
    requires FleetEnabled(f, fa) && Orderly(f, fa)
    ensures RunsOrderly(f, [fa], FleetNext(f, fa))
  {
    assert RunsOrderly(FleetNext(f, fa), [], FleetNext(f, fa));
    assert [fa][1..] == [];
  }

  lemma RunsThen(f: Fleet, a: seq<FleetAction>, g: Fleet, fa: FleetAction)
    requires RunsOrderly(f, a, g) && FleetEnabled(g, fa) && Orderly(g, fa)
    ensures RunsOrderly(f, a + [fa], FleetNext(g, fa))
  {
    RunsOne(g, fa);
    RunsConcat(f, a, g, [fa], FleetNext(g, fa));
  }

  /** Manager w can start on target t: no active job, circuit closed, no unexpired row, a fresh job ID. */
  predicate CanReserve(f: Fleet, w: Name, t: Name, job: Name) {
    && w in f.mgrs && w != EMPTY && t != EMPTY && job != EMPTY && job !in f.owners
    && f.mgrs[w].worker == w && f.mgrs[w].hasStore && f.mgrs[w].cfg.leaseTTL >= 1 && f.clock > ZERO_TIME
    && t !in f.mgrs[w].active && CircuitOf(f.mgrs[w], t).openUntil <= f.clock
    && (t in f.rows ==> f.rows[t].expires <= f.clock)
  }

  /** The fleet after w has reserved t for job at the current clock, as far as others can see. */
  predicate ReservedIn(f: Fleet, g: Fleet, w: Name, t: Name, job: Name) {
    && g.clock == f.clock && g.mgrs.Keys == f.mgrs.Keys && w in g.mgrs
    && (forall v :: v in f.mgrs && v != w ==> g.mgrs[v] == f.mgrs[v])
    && g.mgrs[w].cfg == f.mgrs[w].cfg && g.mgrs[w].hasStore == f.mgrs[w].hasStore
    && g.mgrs[w].worker == w && g.mgrs[w].renewer == f.mgrs[w].renewer
    && g.owners == f.owners[job := Owner(w, f.mgrs[w].next)]
    && var l := Lease(t, w, job, f.clock, f.clock + f.mgrs[w].cfg.leaseTTL);
      g.rows == f.rows[t := RowOf(l)] && g.mgrs[w].leased == f.mgrs[w].leased[t := l]
  }

  /** A process of w enters reserve for target t. */
  predicate At(f: Fleet, w: Name, p: nat, x: Proc) {
    w in f.mgrs && p in f.mgrs[w].procs && f.mgrs[w].procs[p] == x
  }

  /** Everything but w is as in f, and so are the parts of w that reserving does not touch. */
  predicate Beside(f: Fleet, g: Fleet, w: Name) {
    && g.clock == f.clock && g.mgrs.Keys == f.mgrs.Keys && w in f.mgrs && w in g.mgrs
    && (forall v :: v in f.mgrs && v != w ==> g.mgrs[v] == f.mgrs[v])
    && g.mgrs[w].cfg == f.mgrs[w].cfg && g.mgrs[w].hasStore == f.mgrs[w].hasStore
    && g.mgrs[w].worker == f.mgrs[w].worker && g.mgrs[w].renewer == f.mgrs[w].renewer
  }

  predicate SameTable(f: Fleet, g: Fleet, w: Name)
    requires w in f.mgrs && w in g.mgrs
  {
    g.rows == f.rows && g.mgrs[w].leased == f.mgrs[w].leased
  }

  predicate SameGuards(f: Fleet, g: Fleet, w: Name)
    requires w in f.mgrs && w in g.mgrs
  {
    g.mgrs[w].active == f.mgrs[w].active && g.mgrs[w].cb == f.mgrs[w].cb
  }

  lemma Submits(f: Fleet, w: Name, t: Name, job: Name) returns (acts: seq<FleetAction>, g: Fleet, r: Request)
    requires CanReserve(f, w, t, job)
    ensures RunsOrderly(f, acts, g)
    ensures Beside(f, g, w) && SameTable(f, g, w) && SameGuards(f, g, w)
    ensures r.target.id == t && r.job == job && At(g, w, f.mgrs[w].next, Entering(r))
    ensures g.owners == f.owners[job := Owner(w, f.mgrs[w].next)]
  {
    var target := Target(t, EMPTY, EMPTY, EMPTY);
    r := Request(job, 1, target, f.mgrs[w].next, 1);
    var fa := Act(w, Submit(target, 1, job, false));
    RunsOne(f, fa);
    acts, g := [fa], FleetNext(f, fa);
  }

  lemma Reads(f: Fleet, w: Name, p: nat, r: Request) returns (acts: seq<FleetAction>, g: Fleet)
    requires At(f, w, p, Entering(r))
    ensures RunsOrderly(f, acts, g)
    ensures Beside(f, g, w) && SameTable(f, g, w) && SameGuards(f, g, w) && g.owners == f.owners
    ensures At(g, w, p, Checking(r, f.clock))
  {
    var fa := Act(w, Proceed(p, ReadClock));
    RunsOne(f, fa);
    acts, g := [fa], FleetNext(f, fa);
  }

  lemma Passes(f: Fleet, w: Name, p: nat, r: Request) returns (acts: seq<FleetAction>, g: Fleet)
    requires At(f, w, p, Checking(r, f.clock)) && f.mgrs[w].hasStore
    requires r.target.id !in f.mgrs[w].active && CircuitOf(f.mgrs[w], r.target.id).openUntil <= f.clock
    ensures RunsOrderly(f, acts, g)
    ensures Beside(f, g, w) && SameTable(f, g, w) && g.owners == f.owners
    ensures At(g, w, p, Acquiring(r, LeaseFor(f.mgrs[w], r, f.clock)))
  {
    var fa := Act(w, Proceed(p, Enter));
    RunsOne(f, fa);
    acts, g := [fa], FleetNext(f, fa);
  }

  lemma Asks(f: Fleet, w: Name, p: nat, r: Request, l: Lease) returns (acts: seq<FleetAction>, g: Fleet)
    requires At(f, w, p, Acquiring(r, l)) && Validate(l).None? && Free(f.rows, l)
    ensures RunsOrderly(f, acts, g)
    ensures Beside(f, g, w) && g.owners == f.owners && g.mgrs[w].leased == f.mgrs[w].leased
    ensures g.rows == f.rows[l.target := RowOf(l)] && At(g, w, p, Recording(r, l))
  {
    var fa := Act(w, Proceed(p, StoreAcquire(true, true)));
    RunsOne(f, fa);
    acts, g := [fa], FleetNext(f, fa);
  }

  lemma Notes(f: Fleet, w: Name, p: nat, r: Request, l: Lease) returns (acts: seq<FleetAction>, g: Fleet)
    requires At(f, w, p, Recording(r, l))
    ensures RunsOrderly(f, acts, g)
    ensures Beside(f, g, w) && g.owners == f.owners && g.rows == f.rows
    ensures g.mgrs[w].leased == f.mgrs[w].leased[r.target.id := l]
  {
    var fa := Act(w, Proceed(p, Record));
    RunsOne(f, fa);
    acts, g := [fa], FleetNext(f, fa);
  }

  /** Up to the mutex section. */
  lemma Arrives(f: Fleet, w: Name, t: Name, job: Name) returns (acts: seq<FleetAction>, g: Fleet, r: Request)
    requires CanReserve(f, w, t, job)
    ensures RunsOrderly(f, acts, g) && Beside(f, g, w) && SameTable(f, g, w) && SameGuards(f, g, w)
    ensures g.owners == f.owners[job := Owner(w, f.mgrs[w].next)]
    ensures r.target.id == t && r.job == job && At(g, w, f.mgrs[w].next, Checking(r, f.clock))
  {
    hide RunsOrderly;
    var a, f1, r1 := Submits(f, w, t, job);
    var b, f2 := Reads(f1, w, f.mgrs[w].next, r1);
    RunsConcat(f, a, f1, b, f2);
    acts, g, r := a + b, f2, r1;
  }

  /** Up to the store call. */
  lemma Reaches(f: Fleet, w: Name, t: Name, job: Name) returns (acts: seq<FleetAction>, g: Fleet, r: Request)
    requires CanReserve(f, w, t, job)
    ensures RunsOrderly(f, acts, g) && Beside(f, g, w) && SameTable(f, g, w)
    ensures g.owners == f.owners[job := Owner(w, f.mgrs[w].next)]
    ensures r.target.id == t && r.job == job
    ensures At(g, w, f.mgrs[w].next, Acquiring(r, LeaseFor(f.mgrs[w], r, f.clock)))
  {
    hide RunsOrderly;
    var a, f1, r1 := Arrives(f, w, t, job);
    var b, f2 := Passes(f1, w, f.mgrs[w].next, r1);
    RunsConcat(f, a, f1, b, f2);
    acts, g, r := a + b, f2, r1;
  }

  /** The store call and the recording. */
  lemma Gets(f: Fleet, w: Name, p: nat, r: Request, l: Lease) returns (acts: seq<FleetAction>, g: Fleet)
    requires At(f, w, p, Acquiring(r, l)) && Validate(l).None? && Free(f.rows, l)
    ensures RunsOrderly(f, acts, g) && Beside(f, g, w) && g.owners == f.owners
    ensures g.rows == f.rows[l.target := RowOf(l)] && g.mgrs[w].leased == f.mgrs[w].leased[r.target.id := l]
  {
    hide RunsOrderly;
    var a, f1 := Asks(f, w, p, r, l);
    var b, f2 := Notes(f1, w, p, r, l);
    RunsConcat(f, a, f1, b, f2);
    acts, g := a + b, f2;
  }

  /** A target with no unexpired row can be reserved by any manager that is free for it. */
  lemma Reserves(f: Fleet, w: Name, t: Name, job: Name) returns (acts: seq<FleetAction>, g: Fleet)
    requires CanReserve(f, w, t, job)
    ensures RunsOrderly(f, acts, g) && ReservedIn(f, g, w, t, job)
  {
    hide RunsOrderly;
    var a, f1, r := Reaches(f, w, t, job);
    var b, f2 := Gets(f1, w, f.mgrs[w].next, r, LeaseFor(f.mgrs[w], r, f.clock));
    RunsConcat(f, a, f1, b, f2);
    acts, g := a + b, f2;
  }

  // ----- a snapshot out of order

  /** The renewer of v has read its clock, and holds an unexpired lease for t that is younger. */
  predicate OutOfOrder(f: Fleet, v: Name, t: Name) {
    && v in f.mgrs && f.mgrs[v].renewer.Ticked? && t in f.mgrs[v].leased
    && f.clock < f.mgrs[v].leased[t].expires && f.mgrs[v].renewer.now < f.mgrs[v].leased[t].now
  }

  /** Manager w has nothing under way for t and its circuit for t is closed. */
  predicate FreeFor(f: Fleet, w: Name, t: Name) {
    && w in f.mgrs && f.mgrs[w].hasStore && f.mgrs[w].cfg.leaseTTL >= 1
    && t !in f.mgrs[w].active && CircuitOf(f.mgrs[w], t).openUntil <= f.clock
  }

  function Snapshot(v: Name): FleetAction {
    Act(v, Renew(RenewSnapshot))
  }

  /** The row of v's lease for t is there and ends no earlier than the lease. */
  predicate InTable(f: Fleet, v: Name, t: Name)
    requires v in f.mgrs && t in f.mgrs[v].leased
  {
    var l := f.mgrs[v].leased[t];
    && l.target == t && t != EMPTY && l.worker == v && v != EMPTY && f.mgrs[v].worker == v && l.job != EMPTY
    && l.now <= f.clock && l.expires == l.now + f.mgrs[v].cfg.leaseTTL
    && Owns(f.rows, l) && f.rows[t].expires >= l.expires
  }

  /** The invariant at an unexpired lease. */
  lemma LeaseInTable(f: Fleet, v: Name, t: Name)
    requires FleetSound(f) && HoldsUnexpired(f, v, t)
    ensures InTable(f, v, t)
  {
    var m := f.mgrs[v];
    assert ManagerSound(f.clock, f.rows, f.owners, m);
    assert Works(m, m.active[t]) && Covered(f.clock, f.rows, m.leased[t]);
  }

  /** What remains of f when only the clock, the row of t and the renewer of v have moved. */
  predicate OnlyRenewed(f: Fleet, g: Fleet, v: Name)
    requires v in f.mgrs
  {
    && g.clock >= f.clock && g.mgrs.Keys == f.mgrs.Keys && g.owners == f.owners
    && g.mgrs[v].leased == f.mgrs[v].leased && g.mgrs[v].worker == f.mgrs[v].worker && g.mgrs[v].cfg == f.mgrs[v].cfg
    && forall w :: w in f.mgrs && w != v ==> g.mgrs[w] == f.mgrs[w]
  }

  lemma Snaps(f: Fleet, v: Name)
    requires v in f.mgrs && f.mgrs[v].renewer.Ticked?
    ensures FleetEnabled(f, Snapshot(v))
    ensures var g := FleetNext(f, Snapshot(v));
      && OnlyRenewed(f, g, v) && g.clock == f.clock && g.rows == f.rows
      && g.mgrs[v].renewer == Renewing(f.mgrs[v].renewer.now, f.mgrs[v].leased)
  {
  }

  /** The statement of the renewal for t is granted and moves the row's expiry. */
  lemma Renews(f: Fleet, v: Name, t: Name, now: int) returns (g: Fleet)
    requires v in f.mgrs && t in f.mgrs[v].leased && InTable(f, v, t)
    requires f.mgrs[v].renewer == Renewing(now, f.mgrs[v].leased) && ZERO_TIME < now < f.mgrs[v].leased[t].now
    requires f.clock < f.mgrs[v].leased[t].expires
    ensures RunsOrderly(f, [Act(v, Renew(RenewStore(t, true, true)))], g)
    ensures OnlyRenewed(f, g, v) && g.clock == f.clock
    ensures t in g.rows && g.rows[t].expires == now + f.mgrs[v].cfg.leaseTTL
  {
    var store := Act(v, Renew(RenewStore(t, true, true)));
    RunsOne(f, store);
    g := FleetNext(f, store);
  }

  lemma Waits(f: Fleet, d: nat)
    ensures RunsOrderly(f, [Tick(d)], f.(clock := f.clock + d))
  {
    RunsOne(f, Tick(d));
  }

  /** The renewal after the snapshot moves the row's expiry back before the lease's, and time reaches it. */
  lemma CutsShort(f: Fleet, v: Name, t: Name) returns (acts: seq<FleetAction>, g: Fleet)
    requires OutOfOrder(f, v, t) && InTable(f, v, t) && f.mgrs[v].renewer.now > ZERO_TIME
    ensures FleetEnabled(f, Snapshot(v)) && RunsOrderly(FleetNext(f, Snapshot(v)), acts, g)
    ensures OnlyRenewed(f, g, v) && g.clock < f.mgrs[v].leased[t].expires
    ensures t in g.rows && g.rows[t].expires <= g.clock
  {
    Snaps(f, v);
    var f1 := FleetNext(f, Snapshot(v));
    hide FleetNext, FleetEnabled, RunsOrderly;
    var f2 := Renews(f1, v, t, f.mgrs[v].renewer.now);
    var until := f.mgrs[v].renewer.now + f.mgrs[v].cfg.leaseTTL;
    var d := if until > f.clock then until - f.clock else 0;
    Waits(f2, d);
    g := f2.(clock := f2.clock + d);
    acts := [Act(v, Renew(RenewStore(t, true, true)))] + [Tick(d)];
    RunsConcat(f1, [Act(v, Renew(RenewStore(t, true, true)))], f2, [Tick(d)], g);
  }

  /** Some identifier is not in use yet. */
  lemma {:induction false} FreshJob(used: set<Name>) returns (job: Name)
    ensures job != EMPTY && job !in used
    ensures forall u :: u in used ==> u < job
    decreases |used|
  {
    if used == {} {
      job := 1;
    } else {
      var u :| u in used;
      var j := FreshJob(used - {u});
      job := if u < j then j else u + 1;
      assert forall x :: x in used ==> x == u || x in used - {u};
    }
  }

  /** So one snapshot out of order is enough to lose exclusion to any manager that is free for t. */
  lemma OutOfOrderBreaks(f: Fleet, v: Name, w: Name, t: Name) returns (acts: seq<FleetAction>, g: Fleet)
    requires FleetSound(f) && OutOfOrder(f, v, t) && f.mgrs[v].renewer.now > ZERO_TIME
    requires v != w && FreeFor(f, w, t)
    ensures FleetEnabled(f, Snapshot(v)) && RunsOrderly(FleetNext(f, Snapshot(v)), acts, g)
    ensures HoldsUnexpired(g, v, t) && HoldsUnexpired(g, w, t)
  {
    hide FleetSound, FleetEnabled, RunsOrderly, FleetNext, InTable;
    LeaseInTable(f, v, t);
    WorkerKnown(f, w);
    ReadPast(f, v);
    var job := FreshJob(f.owners.Keys);
    var a, mid := CutsShort(f, v, t);
    var b, end := TakesOver(mid, v, w, t, job);
    RunsConcat(FleetNext(f, Snapshot(v)), a, mid, b, end);
    acts, g := a + b, end;
  }

  /** Another manager takes the row over while the lease of v is unexpired. */
  lemma TakesOver(f: Fleet, v: Name, w: Name, t: Name, job: Name) returns (acts: seq<FleetAction>, g: Fleet)
    requires CanReserve(f, w, t, job) && v != w && HoldsUnexpired(f, v, t)
    ensures RunsOrderly(f, acts, g) && HoldsUnexpired(g, v, t) && HoldsUnexpired(g, w, t)
  {
    hide RunsOrderly;
    acts, g := Reserves(f, w, t, job);
  }

  lemma WorkerKnown(f: Fleet, w: Name)
    requires FleetSound(f) && w in f.mgrs
    ensures f.mgrs[w].worker == w && w != EMPTY
  {
  }

  lemma ReadPast(f: Fleet, v: Name)
    requires FleetSound(f) && v in f.mgrs && f.mgrs[v].renewer.Ticked?
    ensures f.mgrs[v].renewer.now <= f.clock
  {
  }

  /** No orderly run from here ends with two managers holding an unexpired lease for one target. */
  ghost predicate Exclusive(f: Fleet) {
    forall acts, g, a, b, t ::
      RunsOrderly(f, acts, g) && HoldsUnexpired(g, a, t) && HoldsUnexpired(g, b, t) ==> a == b
  }

  lemma SoundIsExclusive(f: Fleet)
    requires FleetSound(f)
    ensures Exclusive(f)
  {
    forall acts, g, a, b, t | RunsOrderly(f, acts, g) && HoldsUnexpired(g, a, t) && HoldsUnexpired(g, b, t)
      ensures a == b
    {
      RunSound(f, acts, g);
      SoundExcludes(g, a, b, t);
    }
  }

  /** A snapshot is safe exactly when it is in order: as long as another manager is free for every target
      that is out of order, exclusion survives the snapshot if and only if there is no such target. */
  lemma SnapshotSafeIff(f: Fleet, v: Name)
    requires FleetEnabled(f, Snapshot(v)) && f.mgrs[v].renewer.now > ZERO_TIME && FleetSound(f)
    requires forall t :: OutOfOrder(f, v, t) ==> exists w :: w != v && FreeFor(f, w, t)
    ensures Exclusive(FleetNext(f, Snapshot(v))) <==> InOrder(f.clock, f.mgrs[v])
  {
    hide FleetSound, FleetNext, RunsOrderly;
    if InOrder(f.clock, f.mgrs[v]) {
      SoundKept(f, Snapshot(v));
      SoundIsExclusive(FleetNext(f, Snapshot(v)));
    } else {
      var t :| t in f.mgrs[v].leased && OutOfOrder(f, v, t);
      var w :| w != v && FreeFor(f, w, t);
      var acts, g := OutOfOrderBreaks(f, v, w, t);
    }
  }

  /** Without the order of snapshots no fleet with two managers is safe: from every initial fleet there is
      a run that ends with both holding an unexpired lease for the same target. */
  lemma ExclusionNeedsOrder(f: Fleet, v: Name, w: Name, t: Name)
    returns (acts: seq<FleetAction>, g: Fleet)
    requires FleetInit(f) && v in f.mgrs && w in f.mgrs && v != w && t != EMPTY && f.clock > ZERO_TIME
    requires f.mgrs[v].hasStore && f.mgrs[w].hasStore
    ensures Runs(f, acts, g) && HoldsUnexpired(g, v, t) && HoldsUnexpired(g, w, t)
  {
    hide RunsOrderly, Runs, FleetSound;
    var a, mid := ReservesLate(f, v, t);
    InitSound(f);
    RunSound(f, a, mid);
    assert FreeFor(mid, w, t) by {
      assert mid.mgrs[w] == f.mgrs[w];
    }
    var b, end := OutOfOrderBreaks(mid, v, w, t);
    OrderlyRuns(f, a, mid);
    OrderlyRuns(FleetNext(mid, Snapshot(v)), b, end);
    SnapshotBetween(f, a, mid, Snapshot(v), b, end);
    acts, g := a + ([Snapshot(v)] + b), end;
  }

  lemma {:induction false} SnapshotBetween(f: Fleet, a: seq<FleetAction>, g: Fleet, fa: FleetAction,
                                           b: seq<FleetAction>, h: Fleet)
    requires Runs(f, a, g) && FleetEnabled(g, fa) && Runs(FleetNext(g, fa), b, h)
    ensures Runs(f, a + ([fa] + b), h)
    decreases |a|
  {
    if a == [] {
      assert a + ([fa] + b) == [fa] + b;
      assert ([fa] + b)[1..] == b;
    } else {
      SnapshotBetween(FleetNext(f, a[0]), a[1..], g, fa, b, h);
      assert (a + ([fa] + b))[1..] == a[1..] + ([fa] + b);
    }
  }

  /** The renewer of v reads its clock, and a moment passes. */
  lemma LateStart(f: Fleet, v: Name, t: Name) returns (acts: seq<FleetAction>, g: Fleet)
    requires FleetInit(f) && v in f.mgrs && f.mgrs[v].hasStore && t != EMPTY && f.clock > ZERO_TIME
    ensures RunsOrderly(f, acts, g) && CanReserve(g, v, t, 1)
    ensures g.clock == f.clock + 1 && g.mgrs.Keys == f.mgrs.Keys && g.mgrs[v].renewer == Ticked(f.clock)
    ensures forall w :: w in f.mgrs && w != v ==> g.mgrs[w] == f.mgrs[w]
  {
    var read, tick := Act(v, Renew(RenewRead)), Tick(1);
    var f1 := FleetNext(f, read);
    RunsOne(f, read);
    RunsThen(f, [read], f1, tick);
    acts, g := [read] + [tick], FleetNext(f1, tick);
  }

  /** Then v reserves t, with a lease younger than that reading. */
  lemma ReservesLate(f: Fleet, v: Name, t: Name) returns (acts: seq<FleetAction>, g: Fleet)
    requires FleetInit(f) && v in f.mgrs && f.mgrs[v].hasStore && t != EMPTY && f.clock > ZERO_TIME
    ensures RunsOrderly(f, acts, g) && OutOfOrder(g, v, t) && g.mgrs[v].renewer.now > ZERO_TIME
    ensures g.clock >= f.clock && g.mgrs.Keys == f.mgrs.Keys
    ensures forall w :: w in f.mgrs && w != v ==> g.mgrs[w] == f.mgrs[w]
  {
    hide RunsOrderly, FleetInit;
    var a, mid := LateStart(f, v, t);
    var b, end := Reserves(mid, v, t, 1);
    RunsConcat(f, a, mid, b, end);
    acts, g := a + b, end;
  }
}
