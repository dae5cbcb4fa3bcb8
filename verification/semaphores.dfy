/** The four layers of semaphores: conservation of tokens, caps, progress and completion. */
module Semaphores {
  import opened Names
  import opened Wrappers
  import opened Settings
  import opened ManagerModel
  import opened SingleFlight

  /** How many semaphores a process holds; it always holds the first so many layers. */
  function HeldBy(x: Proc): nat {
    match x
    case Taking(_, held) => held
    case Undoing(_, held) => held
    case Limiting(_) => LAYERS
    case Handling(_) => LAYERS
    case Reporting(_, _) => LAYERS
    case Releasing(_, held) => held
    case _ => 0
  }

  predicate Holds(x: Proc, k: Sem) {
    Layer(k) < HeldBy(x) && SemAt(x.req.target, Layer(k)) == k
  }

  ghost function Holders(procs: map<nat, Proc>, k: Sem): set<nat> {
    set p | p in procs && Holds(procs[p], k)
  }

  ghost predicate HeldInRange(m: Manager) {
    forall p :: p in m.procs ==> HeldBy(m.procs[p]) <= LAYERS && (m.procs[p].Taking? ==> m.procs[p].held < LAYERS)
  }

  /** Every token in a channel belongs to exactly one request holding that semaphore. */
  ghost predicate Conserved(m: Manager) {
    forall k: Sem :: Tok(m, k) == |Holders(m.procs, k)|
  }

  ghost predicate WithinCaps(m: Manager) {
    forall k: Sem :: Tok(m, k) <= Cap(m.cfg, k)
  }

  ghost predicate Balanced(m: Manager) {
    PidsBelow(m) && HeldInRange(m) && Conserved(m) && WithinCaps(m)
  }

  lemma BalancedInit(cfg: Config, worker: Name, hasStore: bool)
    requires Normal(cfg)
    ensures Balanced(Init(cfg, worker, hasStore))
  {
    forall k: Sem ensures |Holders(Init(cfg, worker, hasStore).procs, k)| == 0 {
      assert Holders(Init(cfg, worker, hasStore).procs, k) == {};
    }
  }

  /** A step takes one semaphore, gives one back, or keeps what it holds. */
  lemma PhaseOfTokens(m: Manager, clock: int, x: Proc, s: Step)
    requires CanStep(m, x, s) && HeldBy(x) <= LAYERS && (x.Taking? ==> x.held < LAYERS)
    ensures var y := After(m, clock, x, s);
      if y.None? then HeldBy(x) == 0
      else
        && HeldBy(y.value) <= LAYERS && (y.value.Taking? ==> y.value.held < LAYERS)
        && y.value.req.target == x.req.target
        && HeldBy(y.value) == (if s.TakeSem? then HeldBy(x) + 1
                               else if (s.UndoSem? || s.ReleaseSem?) && HeldBy(x) > 0 then HeldBy(x) - 1
                               else HeldBy(x))
    ensures s.TakeSem? ==> x.held == HeldBy(x)
    ensures s.UndoSem? || s.ReleaseSem? ==> x.held == HeldBy(x)
  {
  }

  /** The process that holds a semaphore keeps its channel from being empty: no receive finds nothing. */
  lemma HolderHasToken(m: Manager, p: nat, k: Sem)
    requires Conserved(m) && p in m.procs && Holds(m.procs[p], k)
    ensures Tok(m, k) > 0
  {
    assert p in Holders(m.procs, k);
  }

  lemma HoldersChange(m: Manager, n: Manager, p: nat, y: Option<Proc>, k: Sem)
    requires PidsBelow(m) && ProcsMoved(m, n, p, y)
    ensures Holders(n.procs, k) ==
      if y.Some? && Holds(y.value, k) then Holders(m.procs, k) + {p} else Holders(m.procs, k) - {p}
  {
  }

  /** The channel a step sends to or receives from. */
  predicate Sends(x: Proc, s: Step, k: Sem) {
    s.TakeSem? && x.Taking? && x.held < LAYERS && k == SemAt(x.req.target, x.held)
  }

  predicate Receives(x: Proc, s: Step, k: Sem) {
    ((s.UndoSem? && x.Undoing?) || (s.ReleaseSem? && x.Releasing?)) && 0 < x.held <= LAYERS &&
    k == SemAt(x.req.target, x.held - 1)
  }

  lemma TokensChange(m: Manager, clock: int, p: nat, s: Step, k: Sem)
    requires Enabled(m, Proceed(p, s))
    ensures var n := NextProceed(m, clock, p, s);
      Tok(n, k) == if Sends(m.procs[p], s, k) then Tok(m, k) + 1
                   else if Receives(m.procs[p], s, k) && Tok(m, k) > 0 then Tok(m, k) - 1
                   else Tok(m, k)
  {
  }

  lemma HoldsChange(m: Manager, clock: int, x: Proc, s: Step, k: Sem)
    requires CanStep(m, x, s) && HeldBy(x) <= LAYERS && (x.Taking? ==> x.held < LAYERS)
    ensures var y := After(m, clock, x, s);
      && (Sends(x, s, k) ==> !Holds(x, k) && y.Some? && Holds(y.value, k))
      && (Receives(x, s, k) ==> Holds(x, k) && y.Some? && !Holds(y.value, k))
      && (!Sends(x, s, k) && !Receives(x, s, k) ==> Holds(x, k) == (y.Some? && Holds(y.value, k)))
  {
    PhaseOfTokens(m, clock, x, s);
    hide After, HeldBy, CanStep;
  }

  lemma ConservedAt(m: Manager, clock: int, p: nat, s: Step, k: Sem)
    requires Balanced(m) && Enabled(m, Proceed(p, s))
    ensures Tok(NextProceed(m, clock, p, s), k) == |Holders(NextProceed(m, clock, p, s).procs, k)|
  {
    var n, x := NextProceed(m, clock, p, s), m.procs[p];
    var y := After(m, clock, x, s);
    ProceedMoves(m, clock, p, s);
    HoldersChange(m, n, p, y, k);
    HoldsChange(m, clock, x, s, k);
    TokensChange(m, clock, p, s, k);
    if Receives(x, s, k) {
      HolderHasToken(m, p, k);
    }
  }

  lemma ConservedProceed(m: Manager, clock: int, p: nat, s: Step)
    requires Balanced(m) && Enabled(m, Proceed(p, s))
    ensures Conserved(NextProceed(m, clock, p, s)) && WithinCaps(NextProceed(m, clock, p, s))
  {
    forall k: Sem
      ensures Tok(NextProceed(m, clock, p, s), k) == |Holders(NextProceed(m, clock, p, s).procs, k)|
      ensures Tok(NextProceed(m, clock, p, s), k) <= Cap(m.cfg, k)
    {
      ConservedAt(m, clock, p, s, k);
      TokensChange(m, clock, p, s, k);
    }
  }

  lemma BalancedProceed(m: Manager, clock: int, p: nat, s: Step)
    requires Balanced(m) && Enabled(m, Proceed(p, s))
    ensures Balanced(NextProceed(m, clock, p, s))
  {
    PhaseOfTokens(m, clock, m.procs[p], s);
    ProceedMoves(m, clock, p, s);
    ConservedProceed(m, clock, p, s);
  }

  lemma BalancedKept(m: Manager, clock: int, a: Action)
    requires Balanced(m) && Enabled(m, a)
    ensures Balanced(Next(m, clock, a))
  {
    var n := Next(m, clock, a);
    match a
    case Proceed(p, s) => BalancedProceed(m, clock, p, s);
    case _ =>
      forall k: Sem ensures Holders(n.procs, k) == Holders(m.procs, k) {
      }
  }

  // ----- what conservation gives

  /** The default branch of release is never taken: each of its receives finds a token. */
  lemma ReleaseFindsToken(m: Manager, p: nat)
    requires Balanced(m) && p in m.procs && m.procs[p].Releasing? && m.procs[p].held > 0
    ensures Tok(m, SemAt(m.procs[p].req.target, m.procs[p].held - 1)) > 0
  {
    HolderHasToken(m, p, SemAt(m.procs[p].req.target, m.procs[p].held - 1));
  }

  /** A cancelled acquire never blocks while giving back. */
  lemma UndoNeverBlocks(m: Manager, p: nat)
    requires Balanced(m) && p in m.procs && m.procs[p].Undoing?
    ensures Enabled(m, Proceed(p, UndoSem))
  {
    if m.procs[p].held > 0 {
      HolderHasToken(m, p, SemAt(m.procs[p].req.target, m.procs[p].held - 1));
    }
  }

  /** A request that blocks at a layer is blocked by requests further on than itself. */
  lemma BlockedByFurther(m: Manager, p: nat)
    requires Normal(m.cfg) && Balanced(m) && p in m.procs && m.procs[p].Taking?
    requires !Enabled(m, Proceed(p, TakeSem))
    ensures exists q :: q in m.procs && HeldBy(m.procs[q]) > HeldBy(m.procs[p])
  {
    var k := SemAt(m.procs[p].req.target, m.procs[p].held);
    assert |Holders(m.procs, k)| >= 1;
    var q :| q in Holders(m.procs, k);
    assert Holds(m.procs[q], k);
  }

  // ----- the caps in the terms of the settings

  /** A name, or "default" for the empty one. */
  function Filed(name: Name): Name {
    if name == EMPTY then DEFAULT else name
  }

  lemma {:induction false} SubsetSize(a: set<nat>, b: set<nat>)
    requires a <= b
    ensures |a| <= |b|
  {
    if a != {} {
      var x :| x in a;
      SubsetSize(a - {x}, b - {x});
    }
  }

  lemma HoldersCapped(m: Manager, k: Sem, s: set<nat>)
    requires Balanced(m) && forall p :: p in s ==> p in m.procs && Holds(m.procs[p], k)
    ensures |s| <= Cap(m.cfg, k)
  {
    assert s <= Holders(m.procs, k);
    SubsetSize(s, Holders(m.procs, k));
    assert Tok(m, k) == |Holders(m.procs, k)|;
  }

  /** The requests whose handler is running, and those of them for a vendor, for a group and at a site. */
  ghost function Handlers(m: Manager): set<nat> {
    set p | p in m.procs && m.procs[p].Handling?
  }

  ghost function VendorHandlers(m: Manager, v: Name): set<nat> {
    set p | p in m.procs && m.procs[p].Handling? && Filed(m.procs[p].req.target.vendor) == v
  }

  ghost function GroupHandlers(m: Manager, g: Name): set<nat> {
    set p | p in m.procs && m.procs[p].Handling? && Filed(m.procs[p].req.target.grp) == g
  }

  ghost function SiteHandlers(m: Manager, s: Name): set<nat> {
    set p | p in m.procs && m.procs[p].Handling? && Filed(m.procs[p].req.target.site) == s
  }

  lemma HandlersCapped(m: Manager, v: Name)
    requires Balanced(m)
    ensures |Handlers(m)| <= m.cfg.maxGlobal && |VendorHandlers(m, v)| <= m.cfg.maxPerVendor
    ensures |GroupHandlers(m, v)| <= m.cfg.maxPerGroup && |SiteHandlers(m, v)| <= m.cfg.maxPerSite
  {
    hide Balanced;
    HoldersCapped(m, Global, Handlers(m));
    HoldersCapped(m, Vendor(v), VendorHandlers(m, v));
    HoldersCapped(m, Group(v), GroupHandlers(m, v));
    HoldersCapped(m, Site(v), SiteHandlers(m, v));
  }

  /** There is room in the layer after the first `held`: in all, for the vendor, for the group, at the site. */
  ghost predicate RoomAfter(m: Manager, t: Target, held: nat) {
    if held == 0 then |set q | q in m.procs && HeldBy(m.procs[q]) >= 1| < m.cfg.maxGlobal
    else if held == 1 then
      |set q | q in m.procs && HeldBy(m.procs[q]) >= 2 && Filed(m.procs[q].req.target.vendor) == Filed(t.vendor)|
        < m.cfg.maxPerVendor
    else if held == 2 then
      |set q | q in m.procs && HeldBy(m.procs[q]) >= 3 && Filed(m.procs[q].req.target.grp) == Filed(t.grp)|
        < m.cfg.maxPerGroup
    else
      |set q | q in m.procs && HeldBy(m.procs[q]) >= 4 && Filed(m.procs[q].req.target.site) == Filed(t.site)|
        < m.cfg.maxPerSite
  }

  lemma HoldersAre(m: Manager, t: Target)
    ensures Holders(m.procs, Global) == set q | q in m.procs && HeldBy(m.procs[q]) >= 1
    ensures Holders(m.procs, Vendor(Filed(t.vendor))) ==
      set q | q in m.procs && HeldBy(m.procs[q]) >= 2 && Filed(m.procs[q].req.target.vendor) == Filed(t.vendor)
    ensures Holders(m.procs, Group(Filed(t.grp))) ==
      set q | q in m.procs && HeldBy(m.procs[q]) >= 3 && Filed(m.procs[q].req.target.grp) == Filed(t.grp)
    ensures Holders(m.procs, Site(Filed(t.site))) ==
      set q | q in m.procs && HeldBy(m.procs[q]) >= 4 && Filed(m.procs[q].req.target.site) == Filed(t.site)
  {
    hide HeldBy;
  }

  lemma RoomIs(m: Manager, t: Target, held: nat)
    requires Balanced(m) && held < 4
    ensures RoomAfter(m, t, held) <==> Tok(m, SemAt(t, held)) < Cap(m.cfg, SemAt(t, held))
  {
    var k := SemAt(t, held);
    assert Tok(m, k) == |Holders(m.procs, k)|;
    HoldersAre(m, t);
    hide Balanced, Tok, Holders;
  }

  lemma TakesWithRoom(m: Manager, p: nat)
    requires Balanced(m) && p in m.procs && m.procs[p].Taking?
    ensures m.procs[p].held < 4
    ensures Enabled(m, Proceed(p, TakeSem)) <==> RoomAfter(m, m.procs[p].req.target, m.procs[p].held)
  {
    RoomIs(m, m.procs[p].req.target, m.procs[p].held);
    hide RoomAfter, Cap, SemAt, Tok;
  }
}
