/** What becomes of a request that nothing stands in the way of, and that no process is ever stuck. */
module Submissions {
  import opened Names
  import opened Wrappers
  import opened Leases
  import opened Settings
  import opened ManagerModel
  import opened SingleFlight
  import opened Semaphores
  import opened ManagerRuns

  // ----- runs at one instant

  ghost predicate AllAt(steps: seq<(int, Action)>, clock: int) {
    forall i :: 0 <= i < |steps| ==> steps[i].0 == clock
  }

  /** Some run of m leads to n while the clock stands. */
  ghost predicate Leads(m: Manager, clock: int, n: Manager) {
    exists steps :: AllAt(steps, clock) && RunsOf(m, clock, steps, n)
  }

  lemma {:induction false} RunsAppend(m: Manager, clock: int, steps: seq<(int, Action)>, n: Manager, a: Action)
    requires AllAt(steps, clock) && RunsOf(m, clock, steps, n) && Enabled(n, a)
    ensures RunsOf(m, clock, steps + [(clock, a)], Next(n, clock, a))
    decreases |steps|
  {
    hide Next, Enabled;
    var more := steps + [(clock, a)];
    if steps == [] {
      assert more[0] == (clock, a) && more[1..] == [];
    } else {
      RunsAppend(Next(m, clock, steps[0].1), clock, steps[1..], n, a);
      assert more[0] == steps[0] && more[1..] == steps[1..] + [(clock, a)];
    }
  }

  lemma LeadsNow(m: Manager, clock: int)
    ensures Leads(m, clock, m)
  {
    assert AllAt([], clock) && RunsOf(m, clock, [], m);
  }

  lemma LeadsOn(m: Manager, clock: int, n: Manager, a: Action)
    requires Leads(m, clock, n) && Enabled(n, a)
    ensures Leads(m, clock, Next(n, clock, a))
  {
    hide Next, Enabled, RunsOf;
    var steps :| AllAt(steps, clock) && RunsOf(m, clock, steps, n);
    RunsAppend(m, clock, steps, n, a);
    assert AllAt(steps + [(clock, a)], clock);
  }

  // ----- one request, from submission to handler and to its end

  /** m with one more process, the newest. */
  ghost function With(m: Manager, x: Proc, active: map<Name, nat>, leased: map<Name, Lease>, tokens: map<Sem, nat>,
                      log: seq<Event>): Manager {
    m.(procs := m.procs[m.next := x], next := m.next + 1, active := active, leased := leased, tokens := tokens,
       log := log)
  }

  /** A step of the newest process. */
  lemma Moves(m: Manager, clock: int, b: Manager, n: Manager, x: Proc, s: Step, y: Proc) returns (k: Manager)
    requires n == With(b, x, n.active, n.leased, n.tokens, n.log) && !s.Report? && CanStep(n, x, s)
    requires After(n, clock, x, s) == Some(y) && Leads(m, clock, n)
    ensures Leads(m, clock, k)
    ensures k == With(b, y, ActiveAfter(n, b.next, x, s), LeasedAfter(n, x, s), TokensAfter(n, x, s),
                      n.log + EventsOf(n, clock, x, s))
  {
    k := Next(n, clock, Proceed(b.next, s));
    assert n.procs[b.next] == x;
    assert b.procs[b.next := x][b.next := y] == b.procs[b.next := y];
    assert n.next == b.next + 1;
    hide After, CanStep, ActiveAfter, LeasedAfter, TokensAfter, EventsOf;
    LeadsOn(m, clock, n, Proceed(b.next, s));
  }

  /** A step of the newest process that leaves the fields alone. */
  predicate Quiet(s: Step) {
    s.Fire? || s.ReadClock? || s.StoreAcquire? || s.Send? || s.Dequeue? || s.StoreDelete?
  }

  lemma MovesQuietly(m: Manager, clock: int, b: Manager, n: Manager, x: Proc, s: Step, y: Proc) returns (k: Manager)
    requires n == With(b, x, n.active, n.leased, n.tokens, n.log) && Quiet(s) && CanStep(n, x, s)
    requires After(n, clock, x, s) == Some(y) && Leads(m, clock, n)
    ensures Leads(m, clock, k) && k == With(b, y, n.active, n.leased, n.tokens, n.log)
  {
    k := Moves(m, clock, b, n, x, s, y);
    assert n.log + [] == n.log;
    hide After, CanStep, Leads, With;
  }

  /** Nothing stands in the way of a request for t: it is named, free, its circuit is not open, and a lease
      for it is valid. */
  predicate Welcome(m: Manager, clock: int, t: Target, job: Name) {
    && t.id != EMPTY && job != EMPTY && t.id !in m.active && CircuitOf(m, t.id).openUntil <= clock
    && (m.hasStore ==> m.worker != EMPTY && clock != ZERO_TIME && clock + m.cfg.leaseTTL != ZERO_TIME &&
                       m.cfg.leaseTTL > 0)
  }

  /** The request that a submission makes: without an attempt number it is the first. */
  function Submitted(m: Manager, t: Target, attempt: int, job: Name): Request {
    var n := if attempt == 0 then 1 else attempt;
    Request(job, n, t, m.next, n)
  }

  function OwnLease(m: Manager, clock: int, t: Target, job: Name): Lease {
    Lease(t.id, m.worker, job, clock, clock + m.cfg.leaseTTL)
  }

  /** It may wait for its time; then it fires. */
  lemma Fires(m: Manager, clock: int, t: Target, attempt: int, job: Name) returns (n: Manager)
    requires t.id != EMPTY && job != EMPTY
    ensures Leads(m, clock, n)
    ensures n == With(m, Entering(Submitted(m, t, attempt, job)), m.active, m.leased, m.tokens, m.log)
  {
    var r := Submitted(m, t, attempt, job);
    LeadsNow(m, clock);
    LeadsOn(m, clock, m, Submit(t, attempt, job, true));
    n := Next(m, clock, Submit(t, attempt, job, true));
    assert n == With(m, Waiting(r), m.active, m.leased, m.tokens, m.log);
    hide Leads, With;
    n := MovesQuietly(m, clock, m, n, Waiting(r), Fire(job, false), Entering(r));
  }

  /** It becomes active. */
  lemma Enters(m: Manager, clock: int, t: Target, attempt: int, job: Name) returns (n: Manager)
    requires Welcome(m, clock, t, job)
    ensures Leads(m, clock, n)
    ensures var r := Submitted(m, t, attempt, job);
      n == With(m, if m.hasStore then Acquiring(r, OwnLease(m, clock, t, job)) else Offering(r),
                m.active[t.id := m.next], m.leased, m.tokens, m.log + [Reserved(t.id, clock)])
  {
    hide Leads;
    var r := Submitted(m, t, attempt, job);
    n := Fires(m, clock, t, attempt, job);
    n := MovesQuietly(m, clock, m, n, Entering(r), ReadClock, Checking(r, clock));
    n := Moves(m, clock, m, n, Checking(r, clock), Enter,
               if m.hasStore then Acquiring(r, OwnLease(m, clock, t, job)) else Offering(r));
  }

  function LeasedThen(m: Manager, clock: int, t: Target, job: Name): map<Name, Lease> {
    if m.hasStore then m.leased[t.id := OwnLease(m, clock, t, job)] else m.leased
  }

  /** It has its lease, and is dequeued. */
  lemma IsDequeued(m: Manager, clock: int, t: Target, attempt: int, job: Name) returns (n: Manager)
    requires Welcome(m, clock, t, job)
    ensures Leads(m, clock, n)
    ensures n == With(m, Taking(Submitted(m, t, attempt, job), 0), m.active[t.id := m.next],
                      LeasedThen(m, clock, t, job), m.tokens, m.log + [Reserved(t.id, clock)])
  {
    hide Leads;
    var r, l := Submitted(m, t, attempt, job), OwnLease(m, clock, t, job);
    n := Enters(m, clock, t, attempt, job);
    if m.hasStore {
      n := MovesQuietly(m, clock, m, n, Acquiring(r, l), StoreAcquire(true, true), Recording(r, l));
      n := Moves(m, clock, m, n, Recording(r, l), Record, Offering(r));
      assert n.log == m.log + [Reserved(t.id, clock)];
    }
    n := MovesQuietly(m, clock, m, n, Offering(r), Send, Queued(r));
    n := MovesQuietly(m, clock, m, n, Queued(r), Dequeue, Taking(r, 0));
  }

  /** The tokens, with those of the first layers for t added. */
  ghost predicate TokensPlus(tokens: map<Sem, nat>, plus: map<Sem, nat>, t: Target, layers: nat) {
    forall k: Sem :: Count(plus, k) == Count(tokens, k) + if Layer(k) < layers && k == SemAt(t, Layer(k)) then 1 else 0
  }

  /** There is room for t in all four layers. */
  ghost predicate RoomFor(m: Manager, t: Target) {
    forall layer: nat :: layer < 4 ==> RoomAfter(m, t, layer)
  }

  lemma PlusOne(tokens: map<Sem, nat>, plus: map<Sem, nat>, more: map<Sem, nat>, t: Target, held: nat)
    requires held < 4 && TokensPlus(tokens, plus, t, held)
    requires more == plus[SemAt(t, held) := Count(plus, SemAt(t, held)) + 1]
    ensures TokensPlus(tokens, more, t, held + 1)
  {
  }

  lemma TakesLayer(m: Manager, clock: int, b: Manager, n: Manager, r: Request, held: nat) returns (k: Manager)
    requires n == With(b, Taking(r, held), n.active, n.leased, n.tokens, n.log) && held < 4 && Leads(m, clock, n)
    requires TokensPlus(b.tokens, n.tokens, r.target, held)
    requires Tok(b, SemAt(r.target, held)) < Cap(b.cfg, SemAt(r.target, held))
    ensures Leads(m, clock, k) && TokensPlus(b.tokens, k.tokens, r.target, held + 1)
    ensures k == With(b, if held == 3 then Limiting(r) else Taking(r, held + 1), n.active, n.leased, k.tokens, n.log)
  {
    var s := SemAt(r.target, held);
    assert Count(n.tokens, s) == Count(b.tokens, s);
    assert CanStep(n, Taking(r, held), TakeSem);
    var y := if held == 3 then Limiting(r) else Taking(r, held + 1);
    assert After(n, clock, Taking(r, held), TakeSem) == Some(y);
    hide Leads, CanStep, After, With, TokensPlus, SemAt;
    k := Moves(m, clock, b, n, Taking(r, held), TakeSem, y);
    assert n.log + [] == n.log;
    PlusOne(b.tokens, n.tokens, Added(n, s), r.target, held);
  }

  /** It takes the four layers. */
  lemma TakesLayers(m: Manager, clock: int, b: Manager, n: Manager, r: Request) returns (k: Manager)
    requires n == With(b, Taking(r, 0), n.active, n.leased, b.tokens, n.log) && Leads(m, clock, n)
    requires forall layer: nat :: layer < 4 ==> Tok(b, SemAt(r.target, layer)) < Cap(b.cfg, SemAt(r.target, layer))
    ensures Leads(m, clock, k) && k == With(b, Limiting(r), n.active, n.leased, k.tokens, n.log)
    ensures TokensPlus(b.tokens, k.tokens, r.target, 4)
  {
    assert TokensPlus(b.tokens, b.tokens, r.target, 0);
    hide Leads, TokensPlus;
    k := TakesLayer(m, clock, b, n, r, 0);
    k := TakesLayer(m, clock, b, k, r, 1);
    k := TakesLayer(m, clock, b, k, r, 2);
    k := TakesLayer(m, clock, b, k, r, 3);
  }

  /** A submission that nothing stands in the way of, with room in every layer, has its handler called: with
      the attempt number given or 1, the target active, its lease recorded and one token more in each layer. */
  lemma SubmissionIsHandled(m: Manager, clock: int, t: Target, attempt: int, job: Name) returns (n: Manager)
    requires Reachable(m) && Welcome(m, clock, t, job) && RoomFor(m, t)
    ensures Leads(m, clock, n) && TokensPlus(m.tokens, n.tokens, t, 4)
    ensures var r := Submitted(m, t, attempt, job);
      n == With(m, Handling(r), m.active[t.id := m.next], LeasedThen(m, clock, t, job), n.tokens,
                m.log + [Reserved(t.id, clock), Called(r.chain, r.first)])
  {
    var c := ReachableIsSound(m);
    hide Leads, TokensPlus, Welcome, Reachable, LeasedThen;
    forall layer: nat | layer < 4 ensures Tok(m, SemAt(t, layer)) < Cap(m.cfg, SemAt(t, layer)) {
      RoomIs(m, t, layer);
    }
    var r := Submitted(m, t, attempt, job);
    n := IsDequeued(m, clock, t, attempt, job);
    n := TakesLayers(m, clock, m, n, r);
    n := Moves(m, clock, m, n, Limiting(r), Grant, Handling(r));
    assert n.log == m.log + [Reserved(t.id, clock), Called(r.chain, r.first)];
  }

  lemma MinusOne(tokens: map<Sem, nat>, plus: map<Sem, nat>, less: map<Sem, nat>, t: Target, held: nat)
    requires held < 4 && TokensPlus(tokens, plus, t, held + 1)
    requires less == plus[SemAt(t, held) := Count(plus, SemAt(t, held)) - 1]
    ensures TokensPlus(tokens, less, t, held)
  {
  }

  lemma GivesBackLayer(m: Manager, clock: int, b: Manager, n: Manager, r: Request, held: nat) returns (k: Manager)
    requires n == With(b, Releasing(r, held + 1), n.active, n.leased, n.tokens, n.log) && held < 4
    requires TokensPlus(b.tokens, n.tokens, r.target, held + 1) && Leads(m, clock, n)
    ensures Leads(m, clock, k) && TokensPlus(b.tokens, k.tokens, r.target, held)
    ensures k == With(b, Releasing(r, held), n.active, n.leased, k.tokens, n.log)
  {
    var x, y := Releasing(r, held + 1), Releasing(r, held);
    var s := SemAt(r.target, held);
    assert Count(n.tokens, s) == Count(b.tokens, s) + 1;
    assert CanStep(n, x, ReleaseSem) && After(n, clock, x, ReleaseSem) == Some(y);
    hide Leads, CanStep, After, With, TokensPlus, SemAt;
    k := Moves(m, clock, b, n, x, ReleaseSem, y);
    assert n.log + [] == n.log;
    MinusOne(b.tokens, n.tokens, k.tokens, r.target, held);
  }

  /** It gives back the four layers. */
  lemma GivesBack(m: Manager, clock: int, b: Manager, n: Manager, r: Request) returns (k: Manager)
    requires n == With(b, Releasing(r, 4), n.active, n.leased, n.tokens, n.log)
    requires TokensPlus(b.tokens, n.tokens, r.target, 4) && Leads(m, clock, n)
    ensures Leads(m, clock, k) && k == With(b, Finishing(r), n.active, n.leased, k.tokens, n.log)
    ensures TokensPlus(b.tokens, k.tokens, r.target, 0)
  {
    hide Leads, TokensPlus;
    k := GivesBackLayer(m, clock, b, n, r, 3);
    k := GivesBackLayer(m, clock, b, k, r, 2);
    k := GivesBackLayer(m, clock, b, k, r, 1);
    k := GivesBackLayer(m, clock, b, k, r, 0);
    k := Moves(m, clock, b, k, Releasing(r, 0), ReleaseSem, Finishing(r));
    assert n.log + [] == n.log;
  }

  /** It drops its lease, and the target is free again. */
  lemma Finishes(m: Manager, clock: int, b: Manager, n: Manager, r: Request) returns (k: Manager)
    requires n == With(b, Finishing(r), n.active, n.leased, n.tokens, n.log) && Leads(m, clock, n)
    ensures Leads(m, clock, k)
    ensures k == b.(procs := b.procs - {b.next}, next := b.next + 1, active := n.active - {r.target.id},
                    leased := if b.hasStore then n.leased - {r.target.id} else n.leased, tokens := n.tokens,
                    log := n.log + [Left(r.target.id)])
  {
    hide Leads;
    if b.hasStore && r.target.id in n.leased {
      var l := n.leased[r.target.id];
      k := Moves(m, clock, b, n, Finishing(r), TakeLease, Deleting(r, l));
      assert k.log == n.log;
      k := MovesQuietly(m, clock, b, k, Deleting(r, l), StoreDelete(true), Clearing(r));
    } else {
      k := Moves(m, clock, b, n, Finishing(r), TakeLease, Clearing(r));
      assert k.log == n.log;
    }
    k := Clears(m, clock, b, k, r);
  }

  lemma Clears(m: Manager, clock: int, b: Manager, n: Manager, r: Request) returns (k: Manager)
    requires n == With(b, Clearing(r), n.active, n.leased, n.tokens, n.log) && Leads(m, clock, n)
    ensures Leads(m, clock, k)
    ensures k == b.(procs := b.procs - {b.next}, next := b.next + 1, active := n.active - {r.target.id},
                    leased := n.leased, tokens := n.tokens, log := n.log + [Left(r.target.id)])
  {
    assert n.procs[b.next] == Clearing(r) && b.procs[b.next := Clearing(r)] - {b.next} == b.procs - {b.next};
    k := Next(n, clock, Proceed(b.next, Clear));
    LeadsOn(m, clock, n, Proceed(b.next, Clear));
  }

  lemma ReportsSuccess(m: Manager, clock: int, n: Manager, r: Request) returns (k: Manager)
    requires n == With(m, Reporting(r, true), n.active, n.leased, n.tokens, n.log) && Leads(m, clock, n)
    ensures Leads(m, clock, k)
    ensures k == With(m.(cb := m.cb - {r.target.id}), Releasing(r, 4), n.active, n.leased, n.tokens,
                      n.log + [Succeeded(r.target.id)])
  {
    assert n.procs[m.next] == Reporting(r, true);
    assert m.procs[m.next := Reporting(r, true)][m.next := Releasing(r, 4)] == m.procs[m.next := Releasing(r, 4)];
    k := Next(n, clock, Proceed(m.next, Report));
    LeadsOn(m, clock, n, Proceed(m.next, Report));
  }

  /** Only active targets have a lease in the book. */
  lemma LeasedIsActive(m: Manager, t: Name)
    requires Reachable(m)
    ensures m.next !in m.procs && (t in m.leased ==> t in m.active)
  {
    hide Reachable;
    SingleFlightHolds(m);
    NextIsNew(m);
    if t in m.leased {
      var p :| p in m.procs && Reserving(m.procs[p]) && m.procs[p].req.target.id == t;
      assert InFlight(m.procs[p]);
      assert t in m.active.Keys;
    }
  }

  /** From the handler's success to the end of the request. */
  lemma Ends(m: Manager, clock: int, n: Manager, r: Request) returns (k: Manager)
    requires n == With(m, Handling(r), n.active, n.leased, n.tokens, n.log) && Leads(m, clock, n)
    requires TokensPlus(m.tokens, n.tokens, r.target, 4)
    ensures Leads(m, clock, k) && TokensPlus(m.tokens, k.tokens, r.target, 0)
    ensures k == m.(procs := m.procs - {m.next}, next := m.next + 1, active := n.active - {r.target.id},
                    cb := m.cb - {r.target.id}, tokens := k.tokens,
                    leased := if m.hasStore then n.leased - {r.target.id} else n.leased,
                    log := n.log + [Returned(r.target.id, true), Succeeded(r.target.id), Left(r.target.id)])
  {
    hide Leads, TokensPlus;
    var b, log := m.(cb := m.cb - {r.target.id}), n.log;
    k := Moves(m, clock, m, n, Handling(r), Return(true), Reporting(r, true));
    k := ReportsSuccess(m, clock, k, r);
    k := GivesBack(m, clock, b, k, r);
    assert k.log == log + [Returned(r.target.id, true), Succeeded(r.target.id)];
    hide With;
    k := Finishes(m, clock, b, k, r);
  }

  /** And when the handler then succeeds, the run can end with nothing left behind: every process, active target,
      lease and token count is as before the submission, and the circuit of the target is closed. */
  lemma SuccessLeavesNothing(m: Manager, clock: int, t: Target, attempt: int, job: Name) returns (n: Manager)
    requires Reachable(m) && Welcome(m, clock, t, job) && RoomFor(m, t)
    ensures Leads(m, clock, n)
    ensures n == m.(next := m.next + 1, cb := m.cb - {t.id}, tokens := n.tokens, log := n.log)
    ensures forall k: Sem :: Tok(n, k) == Tok(m, k)
    ensures n.log == m.log + [Reserved(t.id, clock), Called(m.next, if attempt == 0 then 1 else attempt),
                              Returned(t.id, true), Succeeded(t.id), Left(t.id)]
  {
    LeasedIsActive(m, t.id);
    hide Leads, Reachable, TokensPlus, RoomFor;
    n := SubmissionIsHandled(m, clock, t, attempt, job);
    n := Ends(m, clock, n, Submitted(m, t, attempt, job));
    SameCounts(m, n, t);
    assert m.active[t.id := m.next] - {t.id} == m.active && m.procs - {m.next} == m.procs;
    assert m.hasStore ==> LeasedThen(m, clock, t, job) - {t.id} == m.leased;
  }

  lemma SameCounts(m: Manager, n: Manager, t: Target)
    requires TokensPlus(m.tokens, n.tokens, t, 0)
    ensures forall k: Sem :: Tok(n, k) == Tok(m, k)
  {
  }

  // ----- no process is stuck

  /** The step is not the reaction to a cancelled context. */
  predicate OfItsOwn(s: Step) {
    !s.CancelTimer? && !s.CancelSend? && !s.CancelTake? && !s.CancelWait?
  }

  /** In every reachable state every process can take a step of its own, unless it waits for room in a layer;
      and the renewer can take one wherever there is a lease store. */
  lemma NoneIsStuck(m: Manager, p: nat)
    requires Reachable(m)
    ensures p in m.procs && (m.procs[p].Taking? ==> RoomAfter(m, m.procs[p].req.target, m.procs[p].held)) ==>
      exists s :: OfItsOwn(s) && Enabled(m, Proceed(p, s))
    ensures m.hasStore ==> exists r :: Enabled(m, Renew(r))
  {
    var c := ReachableIsSound(m);
    hide Reachable, ManagerRuns.Sound, RoomAfter;
    if p in m.procs && (m.procs[p].Taking? ==> RoomAfter(m, m.procs[p].req.target, m.procs[p].held)) {
      if m.procs[p].Taking? { TakesInOrder(m, p); }
      if m.procs[p].Undoing? { UndoNeverBlocks(m, p); }
      OwnStepTaken(m, m.procs[p]);
      hide CanStep, OwnStep;
      assert Enabled(m, Proceed(p, OwnStep(m.procs[p])));
    }
    if m.hasStore {
      assert Enabled(m, Renew(RenewerStep(m.renewer)));
    }
  }

  lemma OwnStepTaken(m: Manager, x: Proc)
    requires x.Taking? ==> CanStep(m, x, TakeSem)
    requires x.Undoing? ==> CanStep(m, x, UndoSem)
    ensures OfItsOwn(OwnStep(x)) && CanStep(m, x, OwnStep(x))
  {
  }

  function OwnStep(x: Proc): Step {
    match x
    case Waiting(r) => Fire(if r.job == EMPTY then DEFAULT else r.job, false)
    case Entering(_) => ReadClock
    case Checking(_, _) => Enter
    case Acquiring(_, _) => StoreAcquire(false, false)
    case Refused(_) => ClearRefused
    case Recording(_, _) => Record
    case Offering(_) => Send
    case Queued(_) => Dequeue
    case Taking(_, _) => TakeSem
    case Undoing(_, _) => UndoSem
    case Limiting(_) => Grant
    case Handling(_) => Return(true)
    case Reporting(_, _) => Report
    case Releasing(_, _) => ReleaseSem
    case Finishing(_) => TakeLease
    case Deleting(_, _) => StoreDelete(true)
    case Clearing(_) => Clear
  }

  ghost function RenewerStep(r: Renewer): RenewStep {
    match r
    case Idle => RenewRead
    case Ticked(_) => RenewSnapshot
    case Renewing(_, todo) => if todo == map[] then RenewDone else var t :| t in todo; RenewStore(t, false, true)
    case WritingBack(_, _, _) => RenewWrite
  }
}
