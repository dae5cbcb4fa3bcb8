/** The manager object itself: the mutex sections as methods, each of them a step of the transition system of
    ManagerModel, and the calls built from them when nothing interleaves. */
module JobManagers {
  import opened Names
  import opened Wrappers
  import opened Leases
  import opened Settings
  import opened ManagerModel

  datatype ReserveError = DuplicateActive | CircuitOpen | LeaseHeld | StoreError(e: LeaseError)

  /** One less, if asked for and possible. */
  function Less(n: nat, take: bool): nat {
    if take && n > 0 then n - 1 else n
  }

  /** k is one of the first n semaphores of target t. */
  predicate AmongFirst(t: Target, n: nat, k: Sem)
    requires n <= LAYERS
  {
    Layer(k) < n && SemAt(t, Layer(k)) == k
  }

  ghost predicate KeyedByTarget(leased: map<Name, Lease>) {
    forall t :: t in leased ==> leased[t].target == t
  }

  predicate SameRow(rows: Table, rows': Table, t: Name) {
    (t in rows <==> t in rows') && (t in rows ==> rows'[t] == rows[t])
  }

  /** Target t after a renewal round: extended in the book and in the table, or untouched in both. */
  predicate RenewedAt(rows: Table, leased: map<Name, Lease>, rows': Table, leased': map<Name, Lease>,
                      t: Name, now: int, ttl: int)
    requires t in leased
  {
    var r := Renewed(leased[t], now, ttl);
    && t in leased'
    && if Validate(r).None? && Renewable(rows, r)
       then leased'[t] == r && t in rows' && rows'[t] == RowOf(r)
       else leased'[t] == leased[t] && SameRow(rows, rows', t)
  }

  // ----- sections and steps

  /** Two managers with the same fields, whatever their processes and history. */
  ghost predicate SameState(m: Manager, n: Manager) {
    && m.cfg == n.cfg && m.worker == n.worker && m.hasStore == n.hasStore
    && m.active.Keys == n.active.Keys && m.cb == n.cb && m.leased == n.leased
    && forall k: Sem :: Tok(m, k) == Tok(n, k)
  }

  /** A step that takes or gives back no token has the same effect on the fields in every manager that
      has them. */
  lemma StepOnFields(m: Manager, v: Manager, clock: int, p: nat, x: Proc, s: Step)
    requires SameState(m, v) && p in m.procs && m.procs[p] == x && CanStep(m, x, s)
    requires s.Enter? || s.ClearRefused? || s.Record? || s.Report? || s.TakeLease? || s.Clear?
    ensures CanStep(v, x, s)
    ensures var n, t := NextProceed(m, clock, p, s), x.req.target.id;
      && n.cfg == v.cfg && n.worker == v.worker && n.hasStore == v.hasStore && n.tokens == m.tokens
      && n.cb == CircuitsAfter(v, clock, x, s) && n.leased == LeasedAfter(v, x, s)
      && n.active.Keys == (if s.Enter? && !TurnedAway(v, x) then v.active.Keys + {t}
                           else if s.ClearRefused? || s.Clear? then v.active.Keys - {t}
                           else v.active.Keys)
  {
  }

  /** Step s of a process in phase x leads, in every manager with the fields of v, to the fields of n. */
  ghost predicate Takes(v: Manager, x: Proc, s: Step, clock: int, n: Manager) {
    forall m: Manager, p: nat :: (p in m.procs && m.procs[p] == x && CanStep(m, x, s) && SameState(m, v)) ==>
      SameState(NextProceed(m, clock, p, s), n)
  }

  lemma TakesStep(v: Manager, x: Proc, s: Step, clock: int, n: Manager)
    requires s.Enter? || s.ClearRefused? || s.Record? || s.Report? || s.TakeLease? || s.Clear?
    requires n.cfg == v.cfg && n.worker == v.worker && n.hasStore == v.hasStore && n.tokens == v.tokens
    requires CanStep(v, x, s) ==>
      var t := x.req.target.id;
      && n.cb == CircuitsAfter(v, clock, x, s) && n.leased == LeasedAfter(v, x, s)
      && n.active.Keys == (if s.Enter? && !TurnedAway(v, x) then v.active.Keys + {t}
                           else if s.ClearRefused? || s.Clear? then v.active.Keys - {t}
                           else v.active.Keys)
    ensures Takes(v, x, s, clock, n)
  {
    forall m: Manager, p: nat | p in m.procs && m.procs[p] == x && CanStep(m, x, s) && SameState(m, v)
      ensures SameState(NextProceed(m, clock, p, s), n)
    {
      StepOnFields(m, v, clock, p, x, s);
      hide NextProceed, CircuitsAfter, LeasedAfter;
      assert forall k: Sem :: Tok(NextProceed(m, clock, p, s), k) == Tok(m, k) == Tok(v, k) == Tok(n, k);
    }
  }

  /** Writing back a renewed lease leads, in every manager with the fields of v, to the fields of n. */
  ghost predicate WritesBack(v: Manager, l: Lease, n: Manager) {
    forall m: Manager, clock: int :: (m.renewer.WritingBack? && m.renewer.lease == l && SameState(m, v)) ==>
      SameState(NextRenew(m, clock, RenewWrite), n)
  }

  lemma WriteBackOnFields(v: Manager, l: Lease, n: Manager)
    requires n.cfg == v.cfg && n.worker == v.worker && n.hasStore == v.hasStore && n.tokens == v.tokens
    requires n.active.Keys == v.active.Keys && n.cb == v.cb
    requires n.leased == if StillHeld(v, l) then v.leased[l.target := l] else v.leased
    ensures WritesBack(v, l, n)
  {
    forall m: Manager, clock: int | m.renewer.WritingBack? && m.renewer.lease == l && SameState(m, v)
      ensures SameState(NextRenew(m, clock, RenewWrite), n)
    {
      assert forall k: Sem :: Tok(NextRenew(m, clock, RenewWrite), k) == Tok(m, k) == Tok(v, k) == Tok(n, k);
    }
  }

  class JobManager {
    const cfg: Config
    const worker: Name
    const leases: LeaseTable?
    var active: set<Name>
    var cb: map<Name, Circuit>
    var leased: map<Name, Lease>
    var tokens: map<Sem, nat>

    constructor (cfg: Config, worker: Name, leases: LeaseTable?)
      ensures this.cfg == Normalize(cfg) && this.worker == worker && this.leases == leases
      ensures active == {} && cb == map[] && leased == map[] && tokens == map[]
    {
      this.cfg := Normalize(cfg);
      this.worker := worker;
      this.leases := leases;
      active, cb, leased, tokens := {}, map[], map[], map[];
    }

    /** The fields as a state of the transition system. */
    ghost function View(): (m: Manager)
      reads this
      ensures m.active.Keys == active
    {
      Manager(cfg, worker, leases != null, map[], 0, map t | t in active :: 0, cb, leased, tokens, Idle, [])
    }

    // ----- mutex sections

    /** The first section of reserve. */
    method MarkActive(req: Request, now: int) returns (e: Option<ReserveError>)
      modifies this`active
      ensures e.Some? <==> TurnedAway(old(View()), Checking(req, now))
      ensures e.Some? ==> e.value == if req.target.id in old(active) then DuplicateActive else CircuitOpen
      ensures active == if e.None? then old(active) + {req.target.id} else old(active)
      ensures forall clock: int :: Takes(old(View()), Checking(req, now), Enter, clock, View())
    {
      hide Takes;
      var id := req.target.id;
      var c := if id in cb then cb[id] else CLOSED;
      if id in active {
        e := Some(DuplicateActive);
      } else if now < c.openUntil {
        e := Some(CircuitOpen);
      } else {
        active := active + {id};
        e := None;
      }
      forall clock: int ensures Takes(old(View()), Checking(req, now), Enter, clock, View()) {
        TakesStep(old(View()), Checking(req, now), Enter, clock, View());
      }
    }

    method ClearActive(id: Name)
      modifies this`active
      ensures active == old(active) - {id}
      ensures forall req: Request, clock: int :: req.target.id == id ==>
        Takes(old(View()), Refused(req), ClearRefused, clock, View()) &&
        Takes(old(View()), Clearing(req), Clear, clock, View())
    {
      hide Takes;
      active := active - {id};
      forall req: Request, clock: int | req.target.id == id
        ensures Takes(old(View()), Refused(req), ClearRefused, clock, View())
        ensures Takes(old(View()), Clearing(req), Clear, clock, View())
      {
        TakesStep(old(View()), Refused(req), ClearRefused, clock, View());
        TakesStep(old(View()), Clearing(req), Clear, clock, View());
      }
    }

    method RecordSuccess(id: Name)
      modifies this`cb
      ensures cb == old(cb) - {id}
      ensures CircuitOf(View(), id) == CLOSED
      ensures forall t: Name :: t != id ==> CircuitOf(View(), t) == CircuitOf(old(View()), t)
      ensures forall req: Request, clock: int :: req.target.id == id ==>
        Takes(old(View()), Reporting(req, true), Report, clock, View())
    {
      hide Takes;
      cb := cb - {id};
      forall req: Request, clock: int | req.target.id == id
        ensures Takes(old(View()), Reporting(req, true), Report, clock, View())
      {
        TakesStep(old(View()), Reporting(req, true), Report, clock, View());
      }
    }

    method RecordFailure(id: Name, now: int)
      modifies this`cb
      ensures cb == old(cb)[id := Tripped(CircuitOf(old(View()), id), cfg, now)]
      ensures forall req: Request :: req.target.id == id ==>
        Takes(old(View()), Reporting(req, false), Report, now, View())
    {
      hide Takes;
      var c := if id in cb then cb[id] else CLOSED;
      c := c.(failures := c.failures + 1);
      if c.failures >= cfg.circuitThreshold {
        c := c.(openUntil := now + cfg.circuitOpenFor);
      }
      cb := cb[id := c];
      forall req: Request | req.target.id == id
        ensures Takes(old(View()), Reporting(req, false), Report, now, View())
      {
        TakesStep(old(View()), Reporting(req, false), Report, now, View());
      }
    }

    method TakeLease(id: Name) returns (l: Option<Lease>)
      modifies this`leased
      ensures l == if id in old(leased) then Some(old(leased)[id]) else None
      ensures leased == old(leased) - {id}
      ensures leases != null ==>
        forall req: Request, clock: int :: req.target.id == id ==>
          Takes(old(View()), Finishing(req), Step.TakeLease, clock, View())
    {
      hide Takes;
      if id in leased {
        l := Some(leased[id]);
        leased := leased - {id};
      } else {
        l := None;
      }
      if leases != null {
        forall req: Request, clock: int | req.target.id == id
          ensures Takes(old(View()), Finishing(req), Step.TakeLease, clock, View())
        {
          TakesStep(old(View()), Finishing(req), Step.TakeLease, clock, View());
        }
      }
    }

    /** The last section of reserve. */
    method RecordLease(req: Request, l: Lease)
      modifies this`leased
      ensures leased == old(leased)[req.target.id := l]
      ensures forall clock: int :: Takes(old(View()), Recording(req, l), Record, clock, View())
    {
      hide Takes;
      leased := leased[req.target.id := l];
      forall clock: int ensures Takes(old(View()), Recording(req, l), Record, clock, View()) {
        TakesStep(old(View()), Recording(req, l), Record, clock, View());
      }
    }

    method WriteBack(l: Lease)
      modifies this`leased
      ensures leased == if StillHeld(old(View()), l) then old(leased)[l.target := l] else old(leased)
      ensures WritesBack(old(View()), l, View())
    {
      hide WritesBack;
      if l.target in leased && leased[l.target].job == l.job && leased[l.target].worker == l.worker {
        leased := leased[l.target := l];
      }
      WriteBackOnFields(old(View()), l, View());
    }

    // ----- reserve, release and renew

    /** Either everything about the reservation is in place, or nothing is left behind. */
    method Reserve(req: Request, now: int) returns (e: Option<ReserveError>)
      modifies this`active, this`leased, leases
      ensures e == Some(DuplicateActive) <==> req.target.id in old(active)
      ensures e == Some(CircuitOpen) <==>
        req.target.id !in old(active) && now < CircuitOf(old(View()), req.target.id).openUntil
      ensures e.Some? ==> active == old(active) && leased == old(leased)
      ensures e.Some? && leases != null ==> leases.rows == old(leases.rows)
      ensures e.None? ==> active == old(active) + {req.target.id}
      ensures leases == null ==> leased == old(leased)
      ensures leases != null && !TurnedAway(old(View()), Checking(req, now)) ==>
        var l := LeaseFor(old(View()), req, now);
        && (e == Some(LeaseHeld) <==> Validate(l).None? && !Free(old(leases.rows), l))
        && (e.None? <==> Validate(l).None? && Free(old(leases.rows), l))
        && (e.None? ==> leases.rows == old(leases.rows)[l.target := RowOf(l)] && leased == old(leased)[l.target := l])
    {
      e := MarkActive(req, now);
      if e.Some? || leases == null {
        return;
      }
      var l := Lease(req.target.id, worker, req.job, now, now + cfg.leaseTTL);
      var r := leases.TryAcquireLease(l);
      if r.Err? {
        ClearActive(req.target.id);
        assert active == old(active);
        return Some(StoreError(r.error));
      }
      if !r.value {
        ClearActive(req.target.id);
        assert active == old(active);
        return Some(LeaseHeld);
      }
      RecordLease(req, l);
    }

    /** Undoes a reservation: the target is free again here, and in the table if the row was ours. */
    method ReleaseReservation(id: Name)
      modifies this`active, this`leased, leases
      ensures active == old(active) - {id}
      ensures leases == null ==> leased == old(leased)
      ensures leases != null ==> leased == old(leased) - {id}
      ensures leases != null && id !in old(leased) ==> leases.rows == old(leases.rows)
      ensures leases != null && id in old(leased) ==>
        var l := old(leased)[id];
        leases.rows == if l.target != EMPTY && l.worker != EMPTY && l.job != EMPTY
                       then AfterRelease(old(leases.rows), l) else old(leases.rows)
    {
      if leases != null {
        var l := TakeLease(id);
        if l.Some? {
          var _ := leases.ReleaseLease(l.value);
        }
      }
      ClearActive(id);
    }

    /** One turn of the renewal loop. */
    method RenewOne(t: Name, now: int)
      requires leases != null && t in leased && leased[t].target == t
      modifies this`leased, leases
      ensures RenewedAt(old(leases.rows), old(leased), leases.rows, leased, t, now, cfg.leaseTTL)
      ensures leased == old(leased)[t := leased[t]]
      ensures forall u :: u != t ==> (u in leases.rows <==> u in old(leases.rows)) &&
                                     (u in leases.rows ==> leases.rows[u] == old(leases.rows)[u])
    {
      var l := Renewed(leased[t], now, cfg.leaseTTL);
      var r := leases.RenewLease(l);
      if r == Ok(true) {
        WriteBack(l);
      }
    }

    /** One round of the renewer: every lease the table still grants is extended in both places,
        and nothing else changes in either. */
    method RenewLeases(now: int)
      requires leases != null && KeyedByTarget(leased)
      modifies this`leased, leases
      ensures leased.Keys == old(leased).Keys
      ensures forall t :: t in old(leased) ==>
        RenewedAt(old(leases.rows), old(leased), leases.rows, leased, t, now, cfg.leaseTTL)
      ensures forall t :: t !in old(leased) ==> SameRow(old(leases.rows), leases.rows, t)
    {
      ghost var leased0, rows0 := leased, leases.rows;
      var todo := leased.Keys;
      while todo != {}
        invariant todo <= leased0.Keys && leased.Keys == leased0.Keys
        invariant forall t :: t in todo ==> leased[t] == leased0[t]
        invariant forall t :: t in todo || t !in leased0 ==> SameRow(rows0, leases.rows, t)
        invariant forall t :: t in leased0 && t !in todo ==>
          RenewedAt(rows0, leased0, leases.rows, leased, t, now, cfg.leaseTTL)
      {
        var t :| t in todo;
        RenewOne(t, now);
        todo := todo - {t};
      }
    }

    // ----- semaphores

    /** Takes the four semaphores in order, or gives back what it took. The context is found cancelled at
        layer `cancelAt`; before that each send goes through, so each of those channels has room. */
    method Acquire(t: Target, cancelAt: nat) returns (ok: bool)
      requires forall i :: 0 <= i < cancelAt && i < LAYERS ==> Count(tokens, SemAt(t, i)) < Cap(cfg, SemAt(t, i))
      modifies this`tokens
      ensures ok <==> cancelAt >= LAYERS
      ensures forall k: Sem :: Count(tokens, k) == Count(old(tokens), k) + (if ok && AmongFirst(t, LAYERS, k) then 1 else 0)
    {
      var i := 0;
      while i < LAYERS
        invariant i <= LAYERS && i <= cancelAt
        invariant forall k: Sem :: Count(tokens, k) == Count(old(tokens), k) + (if AmongFirst(t, i, k) then 1 else 0)
      {
        if i == cancelAt {
          while i > 0
            invariant i <= LAYERS
            invariant forall k: Sem :: Count(tokens, k) == Count(old(tokens), k) + (if AmongFirst(t, i, k) then 1 else 0)
          {
            var held := SemAt(t, i - 1);
            assert AmongFirst(t, i, held);
            tokens := tokens[held := Count(tokens, held) - 1];
            i := i - 1;
          }
          return false;
        }
        var k := SemAt(t, i);
        tokens := tokens[k := Count(tokens, k) + 1];
        i := i + 1;
      }
      return true;
    }

    /** Gives the four back, last one first; a missing token is skipped, as the select default does. */
    method Release(t: Target)
      modifies this`tokens
      ensures forall k: Sem ::
        Count(tokens, k) == Less(Count(old(tokens), k), AmongFirst(t, LAYERS, k))
    {
      var i := LAYERS;
      while i > 0
        invariant i <= LAYERS
        invariant forall k: Sem ::
          Count(tokens, k) == Less(Count(old(tokens), k), AmongFirst(t, LAYERS, k) && Layer(k) >= i)
      {
        i := i - 1;
        var k := SemAt(t, i);
        if Count(tokens, k) > 0 {
          tokens := tokens[k := Count(tokens, k) - 1];
        }
      }
    }
  }
}
