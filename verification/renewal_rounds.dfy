/** Rounds of the lease renewer. */
module RenewalRounds {
  import opened Names
  import opened Wrappers
  import opened Leases
  import opened ManagerModel
  import opened LeaseBook
  import opened ManagerRuns
  import opened Submissions

  /** The leases that the renewer has still to ask for in this round. */
  ghost function ToAsk(r: Renewer): map<Name, Lease> {
    if r.Renewing? || r.WritingBack? then r.todo else map[]
  }

  /** A round begins with every lease in the book, asks for each once, and ends with none left to ask for. */
  lemma RoundAsksAll(m: Manager, clock: int, a: Action)
    requires Enabled(m, a)
    ensures var n := Next(m, clock, a);
      && (ToAsk(n.renewer) != ToAsk(m.renewer) ==> a == Renew(RenewSnapshot) || (a.Renew? && a.r.RenewStore?))
      && (a == Renew(RenewSnapshot) ==> n.renewer == Renewing(m.renewer.now, m.leased))
      && (a.Renew? && a.r.RenewStore? ==> a.r.t in ToAsk(m.renewer) && ToAsk(n.renewer) == ToAsk(m.renewer) - {a.r.t})
      && (n.renewer.Idle? && !m.renewer.Idle? ==> m.renewer.Renewing? && m.renewer.todo == map[])
  {
    hide ProcsAfter, ActiveAfter, CircuitsAfter, LeasedAfter, TokensAfter, EventsOf;
  }

  /** Leases at a target, renewed at the clock. */
  function RenewedAt(m: Manager, clock: int, t: Name): Lease
    requires t in m.leased
  {
    Lease(t, m.worker, m.leased[t].job, clock, clock + m.cfg.leaseTTL)
  }

  /** The book when all but the leases in todo have been renewed. */
  ghost function Partly(m: Manager, clock: int, todo: map<Name, Lease>): map<Name, Lease> {
    map t | t in m.leased :: if t in todo then m.leased[t] else RenewedAt(m, clock, t)
  }

  /** Every lease in the book would be valid if it were renewed now. */
  ghost predicate Renewables(m: Manager, clock: int) {
    forall t :: t in m.leased ==>
      m.leased[t].target == t && m.leased[t].worker == m.worker && Validate(RenewedAt(m, clock, t)).None?
  }

  ghost predicate Underway(m: Manager, clock: int, k: Manager, todo: map<Name, Lease>) {
    && k == m.(renewer := Renewing(clock, todo), leased := Partly(m, clock, todo))
    && forall t :: t in todo ==> t in m.leased && todo[t] == m.leased[t]
  }

  lemma AsksOne(m: Manager, clock: int, k: Manager, todo: map<Name, Lease>, t: Name) returns (n: Manager)
    requires Renewables(m, clock) && Underway(m, clock, k, todo) && t in todo && Leads(m, clock, k)
    ensures Leads(m, clock, n) && Underway(m, clock, n, todo - {t})
  {
    var ask, write := Renew(RenewStore(t, true, true)), Renew(RenewWrite);
    assert Renewed(todo[t], clock, m.cfg.leaseTTL) == RenewedAt(m, clock, t);
    LeadsOn(m, clock, k, ask);
    n := Next(k, clock, ask);
    assert n.renewer == WritingBack(clock, RenewedAt(m, clock, t), todo - {t}) && n.leased == k.leased;
    assert StillHeld(n, n.renewer.lease);
    LeadsOn(m, clock, n, write);
    n := Next(n, clock, write);
    assert n.leased == k.leased[t := RenewedAt(m, clock, t)];
    assert n.leased == Partly(m, clock, todo - {t});
  }

  lemma {:induction false} AsksRest(m: Manager, clock: int, k: Manager, todo: map<Name, Lease>) returns (n: Manager)
    requires Renewables(m, clock) && Underway(m, clock, k, todo) && Leads(m, clock, k)
    ensures Leads(m, clock, n) && Underway(m, clock, n, map[])
    decreases |todo|
  {
    hide Leads, Renewables, Underway;
    if todo == map[] {
      n := k;
    } else {
      var t :| t in todo;
      n := AsksOne(m, clock, k, todo, t);
      assert (todo - {t}).Keys == todo.Keys - {t} && |todo - {t}| == |(todo - {t}).Keys|;
      assert |todo| == |todo.Keys|;
      n := AsksRest(m, clock, n, todo - {t});
    }
  }

  lemma Begins(m: Manager, clock: int) returns (n: Manager)
    requires m.hasStore && m.renewer.Idle?
    ensures Leads(m, clock, n) && Underway(m, clock, n, m.leased)
  {
    LeadsNow(m, clock);
    LeadsOn(m, clock, m, Renew(RenewRead));
    n := Next(m, clock, Renew(RenewRead));
    LeadsOn(m, clock, n, Renew(RenewSnapshot));
    n := Next(n, clock, Renew(RenewSnapshot));
    assert Partly(m, clock, m.leased) == m.leased;
  }

  lemma BookIsOwn(m: Manager, clock: int)
    requires Reachable(m) && forall t :: t in m.leased ==> Validate(RenewedAt(m, clock, t)).None?
    ensures Renewables(m, clock)
  {
    var c := ReachableIsSound(m);
    hide Reachable;
    assert EntriesOwned(m);
  }

  /** A round in which the store grants every renewal renews every lease in the book, to a lease period from
      its clock reading, and changes nothing else. */
  lemma RoundRenews(m: Manager, clock: int) returns (n: Manager)
    requires Reachable(m) && m.hasStore && m.renewer.Idle?
    requires forall t :: t in m.leased ==> Validate(RenewedAt(m, clock, t)).None?
    ensures Leads(m, clock, n) && n == m.(leased := n.leased) && n.leased.Keys == m.leased.Keys
    ensures forall t :: t in m.leased ==>
      n.leased[t] == Lease(t, m.worker, m.leased[t].job, clock, clock + m.cfg.leaseTTL)
  {
    BookIsOwn(m, clock);
    hide Reachable, Leads;
    n := Begins(m, clock);
    n := AsksRest(m, clock, n, m.leased);
    LeadsOn(m, clock, n, Renew(RenewDone));
    n := Next(n, clock, Renew(RenewDone));
  }
}
