/** The full-sweep simulation of the benchmark: gated list scheduling on a pool of workers. Times are in
    seconds, over the reals. */
module Bench {

  /** The synthetic duration of a session. */
  function SyntheticDuration(i: nat): (d: real)
    ensures d >= 2.8
  {
    var ms := 2800 + (i * 7919) % 3500 + (if i % 37 == 0 then 8000 else 0) + (if i % 211 == 0 then 22000 else 0);
    ms as real / 1000.0
  }

  /** Every 37th session takes 8 s longer and every 211th 22 s longer than the rest, which take from 2.8 s on,
      less than 6.3 s. */
  lemma DurationClass(i: nat)
    ensures var late := (if i % 37 == 0 then 8.0 else 0.0) + (if i % 211 == 0 then 22.0 else 0.0);
      2.8 + late <= SyntheticDuration(i) < 6.3 + late
    ensures SyntheticDuration(0) == 32.8 && SyntheticDuration(1) == 3.719
  {
  }

  /** What is to be scheduled: the pool, and for every session when its gate opens and how long it takes. */
  datatype Plan = Plan(workers: nat, gate: nat -> real, duration: nat -> real)

  ghost predicate Proper(p: Plan) {
    && p.workers > 0
    && (forall i :: p.duration(i) >= 0.0)
    && (forall i, j :: i <= j ==> 0.0 <= p.gate(i) <= p.gate(j))
  }

  /** The plan of the simulation: session i may start i / rate seconds in. */
  function SweepPlan(concurrency: nat, rate: real): Plan
    requires rate > 0.0
  {
    Plan(concurrency, (i: nat) => i as real / rate, (i: nat) => SyntheticDuration(i))
  }

  lemma GateOpensLater(rate: real, i: nat, j: nat)
    requires rate > 0.0 && i <= j
    ensures 0.0 <= i as real / rate <= j as real / rate
  {
    assert (j - i) as real / rate >= 0.0;
    assert j as real / rate == i as real / rate + (j - i) as real / rate;
  }

  lemma SweepProper(concurrency: nat, rate: real)
    requires rate > 0.0 && concurrency > 0
    ensures Proper(SweepPlan(concurrency, rate))
  {
    var p := SweepPlan(concurrency, rate);
    forall i: nat, j: nat | i <= j ensures 0.0 <= p.gate(i) <= p.gate(j) {
      GateOpensLater(rate, i, j);
    }
  }

  /** The first index of the least value. */
  function MinIndex(values: seq<real>): (w: nat)
    requires values != []
    ensures w < |values| && forall v :: 0 <= v < |values| ==> values[w] <= values[v]
    ensures forall v :: 0 <= v < w ==> values[w] < values[v]
  {
    if |values| == 1 then 0
    else
      var last, rest := |values| - 1, MinIndex(values[..|values| - 1]);
      if values[last] < values[rest] then last else rest
  }

  lemma FirstMinUnique(values: seq<real>, w: nat)
    requires values != [] && w < |values|
    requires forall v :: 0 <= v < |values| ==> values[w] <= values[v]
    requires forall v :: 0 <= v < w ==> values[w] < values[v]
    ensures w == MinIndex(values)
  {
    assert values[MinIndex(values)] == values[w];
  }

  method MinWorker(values: array<real>) returns (minIdx: nat)
    requires values.Length > 0
    ensures minIdx == MinIndex(values[..])
  {
    minIdx := 0;
    for i := 1 to values.Length
      invariant minIdx < i
      invariant forall v :: 0 <= v < i ==> values[minIdx] <= values[v]
      invariant forall v :: 0 <= v < minIdx ==> values[minIdx] < values[v]
    {
      if values[i] < values[minIdx] {
        minIdx := i;
      }
    }
    FirstMinUnique(values[..], minIdx);
  }

  /** When each worker is free after `k` sessions. */
  function Ready(p: Plan, k: nat): (r: seq<real>)
    requires p.workers > 0
    ensures |r| == p.workers
  {
    if k == 0 then seq(p.workers, _ => 0.0)
    else
      var r := Ready(p, k - 1);
      r[MinIndex(r) := StartFrom(r, p.gate(k - 1)) + p.duration(k - 1)]
  }

  /** A session starts when a worker is free and the gate is open. */
  function StartFrom(ready: seq<real>, gate: real): real
    requires ready != []
  {
    var free := ready[MinIndex(ready)];
    if gate > free then gate else free
  }

  function Worker(p: Plan, k: nat): nat
    requires p.workers > 0
  {
    MinIndex(Ready(p, k))
  }

  function Start(p: Plan, k: nat): real
    requires p.workers > 0
  {
    StartFrom(Ready(p, k), p.gate(k))
  }

  function Completion(p: Plan, k: nat): real
    requires p.workers > 0
  {
    Start(p, k) + p.duration(k)
  }

  function Completions(p: Plan, n: nat): (s: seq<real>)
    requires p.workers > 0
    ensures |s| == n && forall k :: 0 <= k < n ==> s[k] == Completion(p, k)
  {
    seq(n, k requires 0 <= k < n => Completion(p, k))
  }

  lemma ReadyAtFirst(p: Plan, ready: seq<real>)
    requires |ready| == p.workers > 0 && forall w :: 0 <= w < p.workers ==> ready[w] == 0.0
    ensures ready == Ready(p, 0)
  {
  }

  /** One more session, on the first of the workers that are free earliest. */
  lemma ScheduleStep(p: Plan, i: nat, ready: seq<real>)
    requires p.workers > 0 && ready == Ready(p, i)
    ensures var done := StartFrom(ready, p.gate(i)) + p.duration(i);
      Ready(p, i + 1) == ready[MinIndex(ready) := done] && Completions(p, i + 1) == Completions(p, i) + [done]
  {
    hide MinIndex, StartFrom;
  }

  /** The list scheduling loop, in place on the times at which the workers are free. */
  method Schedule(p: Plan, n: nat, workerReady: array<real>) returns (completions: seq<real>)
    requires workerReady.Length == p.workers > 0
    requires forall w :: 0 <= w < workerReady.Length ==> workerReady[w] == 0.0
    modifies workerReady
    ensures completions == Completions(p, n) && workerReady[..] == Ready(p, n)
  {
    hide Ready, Completions;
    completions := [];
    ReadyAtFirst(p, workerReady[..]);
    for i := 0 to n
      invariant workerReady[..] == Ready(p, i)
      invariant completions == Completions(p, i)
    {
      var w := MinWorker(workerReady);
      var startGate := p.gate(i);
      var startAt := workerReady[w];
      if startGate > startAt {
        startAt := startGate;
      }
      ScheduleStep(p, i, workerReady[..]);
      workerReady[w] := startAt + p.duration(i);
      completions := completions + [workerReady[w]];
    }
  }

  /** The simulation, with its defaults for settings that are not positive. */
  method FullSweep(devices: int, concurrency: int, newConnRate: real) returns (completions: seq<real>)
    ensures completions == Completions(SweepPlan(if concurrency <= 0 then 1 else concurrency,
                                                 if newConnRate <= 0.0 then 1.0 else newConnRate),
                                       if devices <= 0 then 1 else devices)
  {
    var n, c, rate := devices, concurrency, newConnRate;
    if n <= 0 {
      n := 1;
    }
    if c <= 0 {
      c := 1;
    }
    if rate <= 0.0 {
      rate := 1.0;
    }
    var workerReady := new real[c](_ => 0.0);
    completions := Schedule(SweepPlan(c, rate), n, workerReady);
  }

  // ----- order

  /** A worker is never free earlier than before. */
  lemma {:induction false} ReadyGrows(p: Plan, j: nat, k: nat, w: nat)
    requires Proper(p) && j <= k && w < p.workers
    ensures Ready(p, j)[w] <= Ready(p, k)[w]
    decreases k - j
  {
    if j < k {
      ReadyGrows(p, j, k - 1, w);
    }
  }

  /** Sessions start in the order of the inventory, and not before their gates. */
  lemma StartsInOrder(p: Plan, j: nat, k: nat)
    requires Proper(p) && j <= k
    ensures p.gate(k) <= Start(p, k) && Start(p, j) <= Start(p, k)
  {
    ReadyGrows(p, j, k, Worker(p, k));
  }

  /** A worker finishes a session before it starts another. */
  lemma SameWorkerApart(p: Plan, j: nat, k: nat)
    requires Proper(p) && j < k && Worker(p, j) == Worker(p, k)
    ensures Completion(p, j) <= Start(p, k)
  {
    ReadyGrows(p, j + 1, k, Worker(p, k));
  }

  /** The sessions among the first `n` that are under way at an instant. */
  ghost function Running(p: Plan, n: nat, t: real): set<nat>
    requires p.workers > 0
  {
    set k: nat | k < n && Start(p, k) <= t < Completion(p, k)
  }

  ghost predicate Apart(s: set<nat>, f: nat -> nat) {
    forall j, k :: j in s && k in s && f(j) == f(k) ==> j == k
  }

  /** A set whose elements map to different numbers below c has at most c elements. */
  lemma {:induction false} AtMost(s: set<nat>, f: nat -> nat, c: nat)
    requires Apart(s, f) && forall k :: k in s ==> f(k) < c
    ensures |s| <= c
  {
    if s != {} {
      if exists k :: k in s && f(k) == c - 1 {
        var k :| k in s && f(k) == c - 1;
        AtMost(s - {k}, f, c - 1);
      } else {
        var k :| k in s;
        AtMost(s, f, c - 1);
      }
    }
  }

  /** At no instant do more sessions overlap than there are workers. */
  lemma ConcurrencyBound(p: Plan, n: nat, t: real)
    requires Proper(p)
    ensures |Running(p, n, t)| <= p.workers
  {
    var s := Running(p, n, t);
    var f := (k: nat) => Worker(p, k);
    forall j, k | j in s && k in s && f(j) == f(k) ensures j == k {
      if j < k {
        SameWorkerApart(p, j, k);
      } else if k < j {
        SameWorkerApart(p, k, j);
      }
    }
    AtMost(s, f, p.workers);
  }

  // ----- the bound on completions

  /** The work given to each worker by the first `k` sessions. */
  function Load(p: Plan, k: nat): (l: seq<real>)
    requires p.workers > 0
    ensures |l| == p.workers
  {
    if k == 0 then seq(p.workers, _ => 0.0)
    else Give(Load(p, k - 1), Worker(p, k - 1), p.duration(k - 1))
  }

  function Give(load: seq<real>, w: nat, d: real): (l: seq<real>)
    requires w < |load|
    ensures |l| == |load|
  {
    load[w := load[w] + d]
  }

  function Sum(s: seq<real>): real {
    if s == [] then 0.0 else Sum(s[..|s| - 1]) + s[|s| - 1]
  }

  /** All the work of the first `k` sessions. */
  function Work(p: Plan, k: nat): real {
    if k == 0 then 0.0 else Work(p, k - 1) + p.duration(k - 1)
  }

  lemma {:induction false} SumUpdate(s: seq<real>, w: nat, x: real)
    requires w < |s|
    ensures Sum(s[w := x]) == Sum(s) - s[w] + x
  {
    var last := |s| - 1;
    if w == last {
      assert s[w := x][..last] == s[..last];
    } else {
      SumUpdate(s[..last], w, x);
      assert s[w := x][..last] == s[..last][w := x];
    }
  }

  lemma SumGrows(s: seq<real>, w: nat, d: real)
    requires w < |s|
    ensures Sum(Give(s, w, d)) == Sum(s) + d
  {
    hide Sum;
    SumUpdate(s, w, s[w] + d);
  }

  lemma {:induction false} SumZeros(c: nat)
    ensures Sum(seq(c, _ => 0.0)) == 0.0
  {
    if c > 0 {
      SumZeros(c - 1);
      assert seq(c, _ => 0.0)[..c - 1] == seq(c - 1, _ => 0.0);
    }
  }

  lemma NoLoad(p: Plan)
    requires p.workers > 0
    ensures Sum(Load(p, 0)) == 0.0
  {
    SumZeros(p.workers);
    assert Load(p, 0) == seq(p.workers, _ => 0.0);
  }

  /** No work is lost or invented. */
  lemma {:induction false} LoadsAddUp(p: Plan, k: nat)
    requires p.workers > 0
    ensures Sum(Load(p, k)) == Work(p, k)
  {
    if k == 0 {
      NoLoad(p);
    } else {
      LoadsAddUp(p, k - 1);
      SumGrows(Load(p, k - 1), Worker(p, k - 1), p.duration(k - 1));
    }
  }

  /** Gates apart, a worker is busy with its own load only. */
  lemma {:induction false} ReadyByLoad(p: Plan, k: nat, w: nat)
    requires Proper(p) && w < p.workers
    ensures Ready(p, k)[w] <= p.gate(k) + Load(p, k)[w]
  {
    hide MinIndex;
    if k == 0 {
      assert p.gate(0) >= 0.0;
    } else {
      assert p.gate(k - 1) <= p.gate(k);
      ReadyByLoad(p, k - 1, w);
      LoadNonNegative(p, k - 1, w);
    }
  }

  lemma {:induction false} LoadNonNegative(p: Plan, k: nat, w: nat)
    requires Proper(p) && w < p.workers
    ensures Load(p, k)[w] >= 0.0
  {
    if k > 0 {
      LoadNonNegative(p, k - 1, w);
    }
  }

  /** If every entry is at least x, so is the average. */
  lemma {:induction false} AverageAtLeast(s: seq<real>, x: real)
    requires forall i :: 0 <= i < |s| ==> x <= s[i]
    ensures |s| as real * x <= Sum(s)
  {
    if s != [] {
      AverageAtLeast(s[..|s| - 1], x);
      assert |s| as real * x == (|s| - 1) as real * x + x;
    }
  }

  /** An equal share of some work. */
  function Share(work: real, c: nat): real
    requires c > 0
  {
    work / c as real
  }

  lemma ShareAtLeast(c: nat, a: real, b: real)
    requires c > 0 && c as real * a <= b
    ensures a <= Share(b, c)
  {
    var n, x := c as real, b / c as real;
    assert b == n * x;
    if a > x {
      assert n * (a - x) > 0.0;
    }
  }

  lemma AverageShare(s: seq<real>, x: real)
    requires s != [] && forall i :: 0 <= i < |s| ==> x <= s[i]
    ensures x <= Share(Sum(s), |s|)
  {
    AverageAtLeast(s, x);
    ShareAtLeast(|s|, x, Sum(s));
  }

  lemma {:induction false} WorkNonNegative(p: Plan, k: nat)
    requires Proper(p)
    ensures Work(p, k) >= 0.0
  {
    if k > 0 {
      WorkNonNegative(p, k - 1);
    }
  }

  /** The first worker to be free is so by the gate plus an equal share of the work. */
  lemma FreeByShare(p: Plan, k: nat, free: real)
    requires Proper(p) && free == Ready(p, k)[Worker(p, k)]
    ensures free <= p.gate(k) + Share(Work(p, k), p.workers)
  {
    var load, x := Load(p, k), free - p.gate(k);
    forall w | 0 <= w < p.workers ensures x <= load[w] {
      ReadyByLoad(p, k, w);
    }
    AverageShare(load, x);
    LoadsAddUp(p, k);
  }

  lemma WorkShared(p: Plan, k: nat)
    requires Proper(p)
    ensures Share(Work(p, k), p.workers) >= 0.0
  {
    WorkNonNegative(p, k);
    ShareAtLeast(p.workers, 0.0, Work(p, k));
  }

  /** A session completes by its own gate, plus all earlier work divided by the number of workers, plus its
      own duration. */
  lemma CompletionBound(p: Plan, k: nat)
    requires Proper(p)
    ensures Completion(p, k) <= p.gate(k) + Share(Work(p, k), p.workers) + p.duration(k)
  {
    FreeByShare(p, k, Ready(p, k)[Worker(p, k)]);
    WorkShared(p, k);
  }

  /** In the simulation session i completes no earlier than i / rate plus its own duration, and no later than
      that plus an equal share of all earlier work. */
  lemma SweepBounds(concurrency: nat, rate: real, i: nat)
    requires rate > 0.0 && concurrency > 0
    ensures var p := SweepPlan(concurrency, rate); var done := Completion(p, i);
      && i as real / rate + SyntheticDuration(i) <= done
      && done <= i as real / rate + Share(Work(p, i), concurrency) + SyntheticDuration(i)
  {
    var p := SweepPlan(concurrency, rate);
    SweepProper(concurrency, rate);
    StartsInOrder(p, i, i);
    CompletionBound(p, i);
    hide Share, Start;
  }

  /** And by then no more than `concurrency` sessions overlap, whatever the rate. */
  lemma SweepConcurrency(concurrency: nat, rate: real, n: nat, t: real)
    requires rate > 0.0 && concurrency > 0
    ensures |Running(SweepPlan(concurrency, rate), n, t)| <= concurrency
  {
    SweepProper(concurrency, rate);
    ConcurrencyBound(SweepPlan(concurrency, rate), n, t);
  }
}
