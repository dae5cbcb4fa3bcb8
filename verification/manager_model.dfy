/** One manager as a transition system: every goroutine is a process with a program counter,
    every mutex section, channel operation and store call is one action. */
module ManagerModel {
  import opened Names
  import opened Wrappers
  import opened Leases
  import opened Settings

  datatype Target = Target(id: Name, vendor: Name, grp: Name, site: Name)

  /** A request with its job. `chain` and `first` are history: the submission a retry goes back to,
      and the attempt number that submission started with. */
  datatype Request = Request(job: Name, attempt: int, target: Target, chain: nat, first: int)

  /** The channels used as semaphores, in the order in which they are taken. */
  datatype Sem = Global | Vendor(name: Name) | Group(name: Name) | Site(name: Name)

  const LAYERS: nat := 4

  function Bucket(key: Name): Name {
    if key == EMPTY then DEFAULT else key
  }

  function SemAt(t: Target, layer: nat): Sem
    requires layer < LAYERS
  {
    match layer
    case 0 => Global
    case 1 => Vendor(Bucket(t.vendor))
    case 2 => Group(Bucket(t.grp))
    case _ => Site(Bucket(t.site))
  }

  function Layer(k: Sem): (layer: nat)
    ensures layer < LAYERS
  {
    match k
    case Global => 0
    case Vendor(_) => 1
    case Group(_) => 2
    case Site(_) => 3
  }

  function Cap(c: Config, k: Sem): int {
    match k
    case Global => c.maxGlobal
    case Vendor(_) => c.maxPerVendor
    case Group(_) => c.maxPerGroup
    case Site(_) => c.maxPerSite
  }

  datatype Circuit = Circuit(failures: nat, openUntil: int)

  /** The zero circuit: what reading a missing key of the Go map yields. */
  const CLOSED := Circuit(0, ZERO_TIME)

  datatype Proc =
    | Waiting(req: Request)                  // timer goroutine of a delayed or retried request
    | Entering(req: Request)                 // reserve, before it reads the clock
    | Checking(req: Request, now: int)       // reserve, before the mutex section
    | Acquiring(req: Request, lease: Lease)  // target marked active, before the store call
    | Refused(req: Request)                  // store said no, before active is cleared
    | Recording(req: Request, lease: Lease)  // store said yes, before the lease is recorded
    | Offering(req: Request)                 // reserved, blocked on the queue
    | Queued(req: Request)
    | Taking(req: Request, held: nat)        // acquire, holding the first `held` semaphores
    | Undoing(req: Request, held: nat)       // cancelled acquire giving back
    | Limiting(req: Request)                 // all semaphores held, blocked on the rate limiter
    | Handling(req: Request)
    | Reporting(req: Request, ok: bool)
    | Releasing(req: Request, held: nat)
    | Finishing(req: Request)                // deferred releaseReservation, before takeLease
    | Deleting(req: Request, lease: Lease)   // lease taken, before the store delete
    | Clearing(req: Request)                 // before active is cleared

  /** The lease renewer goroutine. */
  datatype Renewer =
    | Idle
    | Ticked(now: int)
    | Renewing(now: int, todo: map<Name, Lease>)
    | WritingBack(now: int, lease: Lease, todo: map<Name, Lease>)

  /** History of one manager. */
  datatype Event =
    | Reserved(target: Name, at: int)
    | Left(target: Name)
    | Called(chain: nat, first: int)
    | Returned(target: Name, ok: bool)
    | Succeeded(target: Name)
    | Failed(target: Name, at: int)

  /** `hasStore` is whether a lease store is configured. The keys of `active` are the source's set;
      the process each key is mapped to is history, and so is `log`. */
  datatype Manager = Manager(
    cfg: Config,
    worker: Name,
    hasStore: bool,
    procs: map<nat, Proc>,
    next: nat,
    active: map<Name, nat>,
    cb: map<Name, Circuit>,
    leased: map<Name, Lease>,
    tokens: map<Sem, nat>,
    renewer: Renewer,
    log: seq<Event>)

  /** What a process can do next. `delayed` chooses whether Enqueue finds its queue time still ahead;
      `granted` is the store's answer as the caller sees it and `applied` whether the statement ran. */
  datatype Step =
    | Fire(job: Name, delayed: bool)
    | CancelTimer
    | ReadClock
    | Enter
    | StoreAcquire(granted: bool, applied: bool)
    | ClearRefused
    | Record
    | Send
    | CancelSend
    | Dequeue
    | TakeSem
    | CancelTake
    | UndoSem
    | Grant
    | CancelWait
    | Return(ok: bool)
    | Report
    | ReleaseSem
    | TakeLease
    | StoreDelete(applied: bool)
    | Clear

  datatype RenewStep =
    | RenewRead
    | RenewSnapshot
    | RenewStore(t: Name, granted: bool, applied: bool)
    | RenewWrite
    | RenewDone

  datatype Action =
    | Submit(target: Target, attempt: int, job: Name, delayed: bool)
    | Proceed(p: nat, s: Step)
    | Renew(r: RenewStep)

  function Init(cfg: Config, worker: Name, hasStore: bool): Manager {
    Manager(cfg, worker, hasStore, map[], 0, map[], map[], map[], map[], Idle, [])
  }

  /** Tokens in channel k; a channel not yet created is empty. */
  function Count(tokens: map<Sem, nat>, k: Sem): nat {
    if k in tokens then tokens[k] else 0
  }

  function Tok(m: Manager, k: Sem): nat {
    Count(m.tokens, k)
  }

  function CircuitOf(m: Manager, t: Name): Circuit {
    if t in m.cb then m.cb[t] else CLOSED
  }

  /** The circuit entry after a failure seen at `now`. */
  function Tripped(c: Circuit, cfg: Config, now: int): Circuit {
    var n := c.failures + 1;
    Circuit(n, if n >= cfg.circuitThreshold then now + cfg.circuitOpenFor else c.openUntil)
  }

  /** The lease that reserve asks for, with its clock reading. */
  function LeaseFor(m: Manager, r: Request, now: int): Lease {
    Lease(r.target.id, m.worker, r.job, now, now + m.cfg.leaseTTL)
  }

  function Renewed(l: Lease, now: int, ttl: int): Lease {
    l.(now := now, expires := now + ttl)
  }

  /** The write-back guard: the job is still the one that was renewed. */
  predicate StillHeld(m: Manager, l: Lease) {
    l.target in m.leased && m.leased[l.target].job == l.job && m.leased[l.target].worker == l.worker
  }

  predicate Retries(m: Manager, x: Proc) {
    x.Reporting? && !x.ok && x.req.attempt < m.cfg.maxAttempts
  }

  function Retry(r: Request): Request {
    r.(job := EMPTY, attempt := r.attempt + 1)
  }

  /** The semaphores after one more token in k. */
  function Added(m: Manager, k: Sem): map<Sem, nat> {
    m.tokens[k := Tok(m, k) + 1]
  }

  /** The semaphores after a receive from k; `release` skips it when the channel is empty. */
  function Subbed(m: Manager, k: Sem): map<Sem, nat> {
    if Tok(m, k) > 0 then m.tokens[k := Tok(m, k) - 1] else m.tokens
  }

  /** The mutex section of reserve turns the request away: duplicate, or circuit open. */
  predicate TurnedAway(m: Manager, x: Proc)
    requires x.Checking?
  {
    x.req.target.id in m.active || x.now < CircuitOf(m, x.req.target.id).openUntil
  }

  /** When process x can take step s. Cancellations are enabled whenever the code waits on its context. */
  predicate CanStep(m: Manager, x: Proc, s: Step) {
    match s
    case Fire(job, _) => x.Waiting? && job != EMPTY && (x.req.job == EMPTY || x.req.job == job)
    case CancelTimer => x.Waiting?
    case ReadClock => x.Entering?
    case Enter => x.Checking?
    case StoreAcquire(granted, applied) => x.Acquiring? && (granted ==> applied && Validate(x.lease).None?)
    case ClearRefused => x.Refused?
    case Record => x.Recording?
    case Send => x.Offering?
    case CancelSend => x.Offering?
    case Dequeue => x.Queued?
    case TakeSem =>
      x.Taking? && x.held < LAYERS &&
      Tok(m, SemAt(x.req.target, x.held)) < Cap(m.cfg, SemAt(x.req.target, x.held))
    case CancelTake => x.Taking?
    case UndoSem => x.Undoing? && (0 < x.held <= LAYERS ==> Tok(m, SemAt(x.req.target, x.held - 1)) > 0)
    case Grant => x.Limiting?
    case CancelWait => x.Limiting?
    case Return(_) => x.Handling?
    case Report => x.Reporting?
    case ReleaseSem => x.Releasing?
    case TakeLease => x.Finishing?
    case StoreDelete(_) => x.Deleting?
    case Clear => x.Clearing?
  }

  predicate CanRenew(m: Manager, r: RenewStep) {
    match r
    case RenewRead => m.hasStore && m.renewer.Idle?
    case RenewSnapshot => m.renewer.Ticked?
    case RenewStore(t, granted, applied) =>
      m.renewer.Renewing? && t in m.renewer.todo &&
      (granted ==> applied && Validate(Renewed(m.renewer.todo[t], m.renewer.now, m.cfg.leaseTTL)).None?)
    case RenewWrite => m.renewer.WritingBack?
    case RenewDone => m.renewer.Renewing? && m.renewer.todo == map[]
  }

  predicate Enabled(m: Manager, a: Action) {
    match a
    case Submit(t, _, job, _) => t.id != EMPTY && job != EMPTY
    case Proceed(p, s) => p in m.procs && CanStep(m, m.procs[p], s)
    case Renew(r) => CanRenew(m, r)
  }

  function Arrival(r: Request, delayed: bool): Proc {
    if delayed then Waiting(r) else Entering(r)
  }

  /** The process after its step; None when it ends. `clock` is the shared clock at that moment. */
  function After(m: Manager, clock: int, x: Proc, s: Step): Option<Proc>
    requires CanStep(m, x, s)
  {
    var r := x.req;
    match s
    case Fire(job, delayed) => Some(Arrival(r.(job := job), delayed))
    case CancelTimer => None
    case ReadClock => Some(Checking(r, clock))
    case Enter =>
      if TurnedAway(m, x) then None
      else if m.hasStore then Some(Acquiring(r, LeaseFor(m, r, x.now)))
      else Some(Offering(r))
    case StoreAcquire(granted, _) => Some(if granted then Recording(r, x.lease) else Refused(r))
    case ClearRefused => None
    case Record => Some(Offering(r))
    case Send => Some(Queued(r))
    case CancelSend => Some(Finishing(r))
    case Dequeue => Some(Taking(r, 0))
    case TakeSem => Some(if x.held + 1 == LAYERS then Limiting(r) else Taking(r, x.held + 1))
    case CancelTake => Some(Undoing(r, x.held))
    case UndoSem => Some(if 0 < x.held <= LAYERS then Undoing(r, x.held - 1) else Finishing(r))
    case Grant => Some(Handling(r))
    case CancelWait => Some(Releasing(r, LAYERS))
    case Return(ok) => Some(Reporting(r, ok))
    case Report => Some(Releasing(r, LAYERS))
    case ReleaseSem => Some(if 0 < x.held <= LAYERS then Releasing(r, x.held - 1) else Finishing(r))
    case TakeLease =>
      Some(if m.hasStore && r.target.id in m.leased then Deleting(r, m.leased[r.target.id]) else Clearing(r))
    case StoreDelete(_) => Some(Clearing(r))
    case Clear => None
  }

  function ActiveAfter(m: Manager, p: nat, x: Proc, s: Step): map<Name, nat>
    requires CanStep(m, x, s)
  {
    if s.Enter? && !TurnedAway(m, x) then m.active[x.req.target.id := p]
    else if s.ClearRefused? || s.Clear? then m.active - {x.req.target.id}
    else m.active
  }

  function LeasedAfter(m: Manager, x: Proc, s: Step): map<Name, Lease>
    requires CanStep(m, x, s)
  {
    if s.Record? then m.leased[x.req.target.id := x.lease]
    else if s.TakeLease? && m.hasStore then m.leased - {x.req.target.id}
    else m.leased
  }

  function TokensAfter(m: Manager, x: Proc, s: Step): map<Sem, nat>
    requires CanStep(m, x, s)
  {
    if s.TakeSem? then Added(m, SemAt(x.req.target, x.held))
    else if (s.UndoSem? || s.ReleaseSem?) && 0 < x.held <= LAYERS then Subbed(m, SemAt(x.req.target, x.held - 1))
    else m.tokens
  }

  function CircuitsAfter(m: Manager, clock: int, x: Proc, s: Step): map<Name, Circuit>
    requires CanStep(m, x, s)
  {
    var t := x.req.target.id;
    if !s.Report? then m.cb
    else if x.ok then m.cb - {t}
    else m.cb[t := Tripped(CircuitOf(m, t), m.cfg, clock)]
  }

  function EventsOf(m: Manager, clock: int, x: Proc, s: Step): seq<Event>
    requires CanStep(m, x, s)
  {
    var t := x.req.target.id;
    if s.Enter? && !TurnedAway(m, x) then [Reserved(t, clock)]
    else if s.ClearRefused? || s.Clear? then [Left(t)]
    else if s.Grant? then [Called(x.req.chain, x.req.first)]
    else if s.Return? then [Returned(t, s.ok)]
    else if s.Report? then [if x.ok then Succeeded(t) else Failed(t, clock)]
    else []
  }

  predicate Spawns(m: Manager, x: Proc, s: Step) {
    s.Report? && Retries(m, x)
  }

  function ProcsAfter(m: Manager, clock: int, p: nat, s: Step): map<nat, Proc>
    requires p in m.procs && CanStep(m, m.procs[p], s)
  {
    var x := m.procs[p];
    var y := After(m, clock, x, s);
    if y.None? then m.procs - {p}
    else if Spawns(m, x, s) then m.procs[p := y.value][m.next := Waiting(Retry(x.req))]
    else m.procs[p := y.value]
  }

  function NextSubmit(m: Manager, t: Target, attempt: int, job: Name, delayed: bool): Manager {
    var n := if attempt == 0 then 1 else attempt;
    m.(procs := m.procs[m.next := Arrival(Request(job, n, t, m.next, n), delayed)], next := m.next + 1)
  }

  function NextProceed(m: Manager, clock: int, p: nat, s: Step): Manager
    requires p in m.procs && CanStep(m, m.procs[p], s)
  {
    var x := m.procs[p];
    Manager(
      m.cfg, m.worker, m.hasStore,
      ProcsAfter(m, clock, p, s),
      if Spawns(m, x, s) then m.next + 1 else m.next,
      ActiveAfter(m, p, x, s),
      CircuitsAfter(m, clock, x, s),
      LeasedAfter(m, x, s),
      TokensAfter(m, x, s),
      m.renewer,
      m.log + EventsOf(m, clock, x, s))
  }

  function RenewerAfter(m: Manager, clock: int, r: RenewStep): Renewer
    requires CanRenew(m, r)
  {
    match r
    case RenewRead => Ticked(clock)
    case RenewSnapshot => Renewing(m.renewer.now, m.leased)
    case RenewStore(t, granted, _) =>
      var now, todo := m.renewer.now, m.renewer.todo;
      if granted then WritingBack(now, Renewed(todo[t], now, m.cfg.leaseTTL), todo - {t}) else Renewing(now, todo - {t})
    case RenewWrite => Renewing(m.renewer.now, m.renewer.todo)
    case RenewDone => Idle
  }

  function NextRenew(m: Manager, clock: int, r: RenewStep): Manager
    requires CanRenew(m, r)
  {
    m.(renewer := RenewerAfter(m, clock, r),
       leased := if r.RenewWrite? && StillHeld(m, m.renewer.lease)
                 then m.leased[m.renewer.lease.target := m.renewer.lease] else m.leased)
  }

  /** The effect of an action on its manager. */
  function Next(m: Manager, clock: int, a: Action): Manager
    requires Enabled(m, a)
  {
    match a
    case Submit(t, attempt, job, delayed) => NextSubmit(m, t, attempt, job, delayed)
    case Proceed(p, s) => NextProceed(m, clock, p, s)
    case Renew(r) => NextRenew(m, clock, r)
  }
}
