/** The sweep loop that the planner drives. */
module Sweepers {
  import opened Wrappers
  import opened Calendar
  import opened Windows
  import opened CronSpecs
  import opened CronSearch
  import opened Planners

  /** A request for a target at an instant. */
  datatype Order = Order(device: Device, at: int)

  /** The requests of one sweep: the enabled targets that have a decision, in inventory order. */
  function Orders(decide: Device -> Option<Decision>, devices: seq<Device>): seq<Order> {
    if devices == [] then []
    else
      var d := devices[|devices| - 1];
      Orders(decide, devices[..|devices| - 1]) +
      if d.enabled && decide(d).Some? then [Order(d, decide(d).value.queueAt)] else []
  }

  function Decider(p: Planner, base: int): Device -> Option<Decision> {
    d => Decide(p, base, d)
  }

  method EnqueueSweep(p: Planner, base: int, devices: seq<Device>) returns (orders: seq<Order>)
    ensures orders == Orders(Decider(p, base), devices)
  {
    orders := [];
    for i := 0 to |devices|
      invariant orders == Orders(Decider(p, base), devices[..i])
    {
      assert devices[..i + 1][..i] == devices[..i];
      if devices[i].enabled {
        var decision := QueueTime(p, base, devices[i]);
        if decision.Some? {
          orders := orders + [Order(devices[i], decision.value.queueAt)];
        }
      }
    }
    assert devices[..|devices|] == devices;
  }

  /** A sweep orders exactly the enabled targets that have a decision, each at its decided instant. */
  lemma {:induction false} OrdersExactly(decide: Device -> Option<Decision>, devices: seq<Device>, o: Order)
    ensures o in Orders(decide, devices) <==>
      o.device in devices && o.device.enabled && decide(o.device).Some? && o.at == decide(o.device).value.queueAt
  {
    if devices != [] {
      OrdersExactly(decide, devices[..|devices| - 1], o);
      assert devices == devices[..|devices| - 1] + [devices[|devices| - 1]];
    }
  }

  /** Requests are made in inventory order. */
  lemma {:induction false} OrdersInOrder(decide: Device -> Option<Decision>, a: seq<Device>, b: seq<Device>)
    ensures Orders(decide, a + b) == Orders(decide, a) + Orders(decide, b)
  {
    if b == [] {
      assert a + b == a && Orders(decide, a) + [] == Orders(decide, a);
    } else {
      var last := |b| - 1;
      OrdersInOrder(decide, a, b[..last]);
      assert (a + b)[..|a + b| - 1] == a + b[..last] && (a + b)[|a + b| - 1] == b[last];
    }
  }

  // ----- base times

  function BaseAfter(p: Planner, t: int): Result<int, PlanError> {
    match p.cron
    case Some(c) =>
      (match NextMatch(c, p.loc, t)
       case None => Err(NoMatch)
       case Some(n) => Ok(n))
    case None => if p.interval <= 0 then Err(NoSchedule) else Ok(t + p.interval)
  }

  function FirstBase(p: Planner, now: int): Result<int, PlanError> {
    if p.cron.None? && p.interval > 0 then Ok(now) else BaseAfter(p, now)
  }

  method NextBase(p: Planner, after: int) returns (r: Result<int, PlanError>)
    ensures r == BaseAfter(p, after)
  {
    if p.cron.Some? {
      var found := CronNext(p.cron.value, p.loc, after);
      return match found case None => Err(NoMatch) case Some(n) => Ok(n);
    }
    if p.interval <= 0 {
      return Err(NoSchedule);
    }
    return Ok(after + p.interval);
  }

  method InitialBase(p: Planner, now: int) returns (r: Result<int, PlanError>)
    ensures r == FirstBase(p, now)
  {
    if p.cron.Some? {
      var found := CronNext(p.cron.value, p.loc, now);
      return match found case None => Err(NoMatch) case Some(n) => Ok(n);
    }
    if p.interval <= 0 {
      return Err(NoSchedule);
    }
    return Ok(now);
  }

  /** `bases` are exactly the selected minutes after `now` up to the last of them, in order. */
  ghost predicate Enumerates(c: CronSpec, loc: Location, now: int, bases: seq<int>) {
    && (forall i :: 0 <= i < |bases| ==> now < bases[i] && Selected(c, loc, bases[i]))
    && (forall i, j :: 0 <= i < j < |bases| ==> bases[i] < bases[j])
    && (forall t :: Selected(c, loc, t) && now < t <= Last(now, bases) ==> t in bases)
  }

  function Last(now: int, bases: seq<int>): int {
    if bases == [] then now else bases[|bases| - 1]
  }

  lemma EnumerationGrows(c: CronSpec, loc: Location, now: int, bases: seq<int>, deadline: int, next: int)
    requires Enumerates(c, loc, now, bases)
    requires FirstSelected(c, loc, Last(now, bases), deadline, Some(next))
    ensures Enumerates(c, loc, now, bases + [next])
  {
    hide Selected;
    var more := bases + [next];
    forall t | Selected(c, loc, t) && now < t <= next ensures t in more {
      if t == next {
        assert more[|bases|] == t;
      }
    }
  }

  /** Multiples of the interval from `now` on. */
  ghost predicate Regular(interval: int, now: int, bases: seq<int>) {
    forall i :: 0 <= i < |bases| ==> bases[i] == now + i * interval
  }

  ghost predicate Scheduled(p: Planner, now: int, bases: seq<int>) {
    match p.cron
    case Some(c) => Enumerates(c, p.loc, now, bases)
    case None => Regular(p.interval, now, bases)
  }

  lemma NothingScheduled(p: Planner, now: int)
    ensures Scheduled(p, now, [])
  {
  }

  /** The base after `bases`. */
  function Following(p: Planner, now: int, bases: seq<int>): Result<int, PlanError> {
    if bases == [] then FirstBase(p, now) else BaseAfter(p, bases[|bases| - 1])
  }

  lemma ScheduleGrows(p: Planner, now: int, bases: seq<int>, next: int)
    requires Scheduled(p, now, bases) && Following(p, now, bases) == Ok(next)
    ensures Scheduled(p, now, bases + [next])
  {
    hide NextMatch, CronDeadline, Selected;
    match p.cron
    case Some(c) =>
      NextMatchFirst(c, p.loc, Last(now, bases));
      EnumerationGrows(c, p.loc, now, bases, CronDeadline(p.loc, Last(now, bases)), next);
    case None =>
      if bases != [] {
        NextMultiple(now, |bases| - 1, p.interval);
      }
  }

  lemma NextMultiple(now: int, i: int, interval: int)
    ensures now + i * interval + interval == now + (i + 1) * interval
  {
  }

  /** What one round leaves: the orders of a sweep, or none when the inventory cannot be read. */
  function RoundOrders(p: Planner, base: int, inventory: Option<seq<Device>>): seq<Order> {
    match inventory
    case None => []
    case Some(devices) => Orders(Decider(p, base), devices)
  }

  /** A request of a round: for an enabled target of its inventory, at the right time for its base. */
  ghost predicate RightOrder(p: Planner, base: int, inventory: Option<seq<Device>>, o: Order) {
    && inventory.Some? && o.device in inventory.value && o.device.enabled
    && exists q :: QueuedRight(p, base, o.device, q) && q.queueAt == o.at
  }

  /** A round requests exactly the enabled targets of its inventory for which `QueueTime` finds a time, each at
      a right time for the base of the round. */
  lemma RoundMeans(p: Planner, base: int, inventory: Option<seq<Device>>, o: Order)
    ensures o in RoundOrders(p, base, inventory) <==>
      && inventory.Some? && o.device in inventory.value && o.device.enabled
      && Decide(p, base, o.device).Some? && o.at == Decide(p, base, o.device).value.queueAt
    ensures o in RoundOrders(p, base, inventory) ==> RightOrder(p, base, inventory, o)
  {
    hide Decide, QueuedRight;
    match inventory
    case None =>
    case Some(devices) =>
      OrdersExactly(Decider(p, base), devices, o);
      assert Decider(p, base)(o.device) == Decide(p, base, o.device);
      if o in RoundOrders(p, base, inventory) {
        DecisionRight(p, base, o.device, Decide(p, base, o.device).value);
      }
  }

  /** The sweep loop for as many rounds as there are inventories; it stops early when no base follows. */
  method Sweep(p: Planner, now: int, inventories: seq<Option<seq<Device>>>)
    returns (bases: seq<int>, orders: seq<seq<Order>>, stopped: bool)
    ensures Scheduled(p, now, bases)
    ensures |bases| == |orders| <= |inventories|
    ensures forall i :: 0 <= i < |bases| ==> orders[i] == RoundOrders(p, bases[i], inventories[i])
    ensures forall i, o :: 0 <= i < |bases| && o in orders[i] ==> RightOrder(p, bases[i], inventories[i], o)
    ensures stopped <==> Following(p, now, bases).Err?
    ensures !stopped ==> |bases| == |inventories|
  {
    hide Scheduled, BaseAfter, FirstBase, Orders;
    bases, orders := [], [];
    NothingScheduled(p, now);
    var base := InitialBase(p, now);
    while base.Ok? && |bases| < |inventories|
      invariant Scheduled(p, now, bases) && base == Following(p, now, bases)
      invariant |bases| == |orders| <= |inventories|
      invariant forall i :: 0 <= i < |bases| ==> orders[i] == RoundOrders(p, bases[i], inventories[i])
      decreases |inventories| - |bases|
    {
      var order := [];
      match inventories[|bases|] {
        case None =>
        case Some(devices) => order := EnqueueSweep(p, base.value, devices);
      }
      ScheduleGrows(p, now, bases, base.value);
      bases, orders := bases + [base.value], orders + [order];
      base := NextBase(p, base.value);
    }
    stopped := base.Err?;
    hide RoundOrders, RightOrder;
    forall i, o | 0 <= i < |bases| && o in orders[i] ensures RightOrder(p, bases[i], inventories[i], o) {
      RoundMeans(p, bases[i], inventories[i], o);
    }
  }

  /** When the loop stops with a cron expression, none of the next five years' minutes is selected. */
  lemma StopsAtGap(p: Planner, now: int, bases: seq<int>)
    requires p.cron.Some? && Following(p, now, bases).Err?
    ensures var last := Last(now, bases);
      forall t :: last < t <= CronDeadline(p.loc, last) ==> !Selected(p.cron.value, p.loc, t)
  {
    NextMatchFirst(p.cron.value, p.loc, Last(now, bases));
  }

  /** In UTC a recurring expression never stops the loop, and neither does a positive interval. */
  lemma SweepsForever(p: Planner, now: int, bases: seq<int>)
    requires Checked(p)
    requires if p.cron.Some? then Recurs(p.cron.value) && p.loc == UTC else p.interval > 0
    ensures Following(p, now, bases).Ok?
  {
    if p.cron.Some? {
      RecurringFound(p.cron.value, Last(now, bases));
    }
  }
}
