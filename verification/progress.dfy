/** Layered acquisition never deadlocks, and a finite batch completes. */
module Progress {
  import opened Settings
  import opened ManagerModel
  import opened SingleFlight
  import opened Semaphores

  /** Steps a process still has to take once it is dequeued; 0 before that. */
  function WorkLeft(x: Proc): nat {
    match x
    case Taking(_, held) => if held < LAYERS then 12 + LAYERS - held else 12
    case Undoing(_, held) => 4 + held
    case Limiting(_) => 11
    case Handling(_) => 10
    case Reporting(_, _) => 9
    case Releasing(_, held) => 4 + held
    case Finishing(_) => 3
    case Deleting(_, _) => 2
    case Clearing(_) => 1
    case _ => 0
  }

  /** The step a worker takes next when nothing is cancelled: the handler returns, the limiter grants. */
  function WorkerStep(x: Proc): Step
    requires WorkLeft(x) > 0
  {
    match x
    case Taking(_, _) => TakeSem
    case Undoing(_, _) => UndoSem
    case Limiting(_) => Grant
    case Handling(_) => Return(true)
    case Reporting(_, _) => Report
    case Releasing(_, _) => ReleaseSem
    case Finishing(_) => TakeLease
    case Deleting(_, _) => StoreDelete(true)
    case Clearing(_) => Clear
  }

  ghost predicate Busy(m: Manager, p: nat) {
    p in m.procs && WorkLeft(m.procs[p]) > 0
  }

  /** From any busy request, either it or one holding more layers can step. */
  lemma {:induction false} Unblocked(m: Manager, p: nat) returns (q: nat)
    requires Normal(m.cfg) && Balanced(m) && Busy(m, p)
    ensures Busy(m, q) && Enabled(m, Proceed(q, WorkerStep(m.procs[q])))
    decreases LAYERS - HeldBy(m.procs[p])
  {
    if m.procs[p].Undoing? {
      UndoNeverBlocks(m, p);
    }
    if Enabled(m, Proceed(p, WorkerStep(m.procs[p]))) {
      q := p;
    } else {
      BlockedByFurther(m, p);
      var r :| r in m.procs && HeldBy(m.procs[r]) > HeldBy(m.procs[p]);
      q := Unblocked(m, r);
    }
  }

  /** No deadlock: while any dequeued request is unfinished, some dequeued request can step. */
  lemma NoDeadlock(m: Manager, p: nat)
    requires Normal(m.cfg) && Balanced(m) && Busy(m, p)
    ensures exists q :: Busy(m, q) && Enabled(m, Proceed(q, WorkerStep(m.procs[q])))
  {
    var q := Unblocked(m, p);
  }

  // ----- completion

  ghost function WorkUpTo(procs: map<nat, Proc>, n: nat): nat {
    if n == 0 then 0 else WorkUpTo(procs, n - 1) + if n - 1 in procs then WorkLeft(procs[n - 1]) else 0
  }

  ghost function TotalWork(m: Manager): nat {
    WorkUpTo(m.procs, m.next)
  }

  ghost function WorkOf(procs: map<nat, Proc>, p: nat): nat {
    if p in procs then WorkLeft(procs[p]) else 0
  }

  lemma {:induction false} WorkChanges(a: map<nat, Proc>, b: map<nat, Proc>, n: nat, p: nat)
    requires forall q: nat :: q < n && q != p ==> WorkOf(a, q) == WorkOf(b, q)
    ensures WorkUpTo(b, n) + (if p < n then WorkOf(a, p) else 0) == WorkUpTo(a, n) + (if p < n then WorkOf(b, p) else 0)
  {
    if n > 0 {
      WorkChanges(a, b, n - 1, p);
      assert WorkOf(a, n - 1) + WorkUpTo(a, n - 1) == WorkUpTo(a, n);
      assert WorkOf(b, n - 1) + WorkUpTo(b, n - 1) == WorkUpTo(b, n);
    }
  }

  lemma {:induction false} WorkAtLeast(procs: map<nat, Proc>, n: nat, p: nat)
    requires p < n
    ensures WorkUpTo(procs, n) >= WorkOf(procs, p)
  {
    if p < n - 1 {
      WorkAtLeast(procs, n - 1, p);
    }
  }

  lemma PhaseOfWork(m: Manager, clock: int, x: Proc, s: Step)
    requires CanStep(m, x, s) && WorkLeft(x) > 0 && HeldBy(x) <= LAYERS && (x.Taking? ==> x.held < LAYERS)
    ensures After(m, clock, x, s).Some? ==> WorkLeft(After(m, clock, x, s).value) < WorkLeft(x)
  {
  }

  /** Every step of a busy request, cancelled or not, uses up work; a retry adds none until dequeued. */
  lemma StepUsesWork(m: Manager, clock: int, p: nat, s: Step)
    requires Balanced(m) && Busy(m, p) && Enabled(m, Proceed(p, s))
    ensures TotalWork(NextProceed(m, clock, p, s)) < TotalWork(m)
  {
    var n, x := NextProceed(m, clock, p, s), m.procs[p];
    ProceedMoves(m, clock, p, s);
    PhaseOfWork(m, clock, x, s);
    WorkChanges(m.procs, n.procs, m.next, p);
    assert WorkOf(n.procs, p) < WorkOf(m.procs, p);
    if n.next > m.next {
      assert n.next == m.next + 1;
      assert WorkOf(n.procs, m.next) == 0;
    }
  }

  /** Actions taken in turn by busy requests of one manager. */
  ghost predicate BusyRun(m: Manager, clock: int, acts: seq<Action>, n: Manager)
    decreases |acts|
  {
    if acts == [] then n == m
    else
      && acts[0].Proceed? && Busy(m, acts[0].p) && Enabled(m, acts[0])
      && BusyRun(Next(m, clock, acts[0]), clock, acts[1..], n)
  }

  /** No run of the busy requests, whatever is cancelled, is longer than the work there was. */
  lemma {:induction false} BusyRunsEnd(m: Manager, clock: int, acts: seq<Action>, n: Manager)
    requires Balanced(m) && BusyRun(m, clock, acts, n)
    ensures |acts| + TotalWork(n) <= TotalWork(m)
    ensures Balanced(n)
    decreases |acts|
  {
    if acts != [] {
      StepUsesWork(m, clock, acts[0].p, acts[0].s);
      BalancedKept(m, clock, acts[0]);
      BusyRunsEnd(Next(m, clock, acts[0]), clock, acts[1..], n);
    }
  }

  /** And there is one that finishes every dequeued request: the batch completes. */
  lemma {:induction false} BatchCompletes(m: Manager, clock: int) returns (acts: seq<Action>, n: Manager)
    requires Normal(m.cfg) && Balanced(m)
    ensures BusyRun(m, clock, acts, n)
    ensures forall p :: !Busy(n, p)
    decreases TotalWork(m)
  {
    if p :| Busy(m, p) {
      var q := Unblocked(m, p);
      var a := Proceed(q, WorkerStep(m.procs[q]));
      StepUsesWork(m, clock, q, a.s);
      BalancedKept(m, clock, a);
      var rest, end := BatchCompletes(Next(m, clock, a), clock);
      acts, n := [a] + rest, end;
      assert acts[1..] == rest;
    } else {
      acts, n := [], m;
    }
  }
}
