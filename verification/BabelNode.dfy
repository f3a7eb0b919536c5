/**
 What one Babel router does to its routes and sources for one prefix
 (babeld/route.c, babeld/source.c, babeld/util.h, babeld/route.h), as single
 steps: accepting an update, installing, switching, retracting, announcing.

 The route table performs these steps in place (module BabelTable); the network
 lets many routers perform them in any order (module BabelNetwork).
 */
module BabelNode {
  import opened Common

  const INFINITY: U16 := 0xFFFF
  const SOURCE_GC_TIME := 200

  type RouterId = nat

  // ------------------------------------------------------------------
  // Sequence numbers modulo 2^16
  // ------------------------------------------------------------------

  /** seqno_compare: the sign of s1 - s2, judged by the top bit of s2 - s1. */
  function SeqnoCompare(s1: U16, s2: U16): int {
    if s1 == s2 then 0 else if (s2 - s1) % 0x1_0000 >= 0x8000 then 1 else -1
  }

  /** seqno_minus: the difference as a signed 16-bit number. */
  function SeqnoMinus(s1: U16, s2: U16): int {
    var d := (s1 - s2) % 0x1_0000;
    if d >= 0x8000 then d - 0x1_0000 else d
  }

  function SeqnoPlus(s: U16, plus: int): U16 { (s + plus) % 0x1_0000 }

  function Wrap(n: int): U16 { n % 0x1_0000 }

  function Sign(n: int): int { if n > 0 then 1 else if n < 0 then -1 else 0 }

  /** seqno_compare gets the order of the unbounded numbers right. */
  ghost predicate ComparesRightly(s: int, t: int) {
    SeqnoCompare(Wrap(s), Wrap(t)) == Sign(s - t) && SeqnoCompare(Wrap(t), Wrap(s)) == Sign(t - s)
  }

  /** Two numbers are compared rightly exactly when the larger is ahead of the
      smaller by less than half the space, whole turns aside. */
  lemma {:induction false} SeqnoCompareExact(s: int, t: int)
    ensures ComparesRightly(s, t) <==>
            s == t || (s > t && 0 < (s - t) % 0x1_0000 < 0x8000) || (s < t && 0 < (t - s) % 0x1_0000 < 0x8000)
    ensures -0x1_0000 < s - t < 0x1_0000 ==> (ComparesRightly(s, t) <==> -0x8000 < s - t < 0x8000)
  {
    WrapDifference(t, s);
    WrapDifference(s, t);
    assert s != t ==> (s - t) % 0x1_0000 == (if (t - s) % 0x1_0000 == 0 then 0 else 0x1_0000 - (t - s) % 0x1_0000);
  }

  lemma {:induction false} WrapDifference(s: int, t: int)
    ensures (Wrap(s) - Wrap(t)) % 0x1_0000 == (s - t) % 0x1_0000
  {
  }

  /** seqno_minus and seqno_plus undo each other. */
  lemma {:induction false} SeqnoPlusMinus(s: U16, d: int)
    requires -0x8000 <= d < 0x8000
    ensures SeqnoMinus(SeqnoPlus(s, d), s) == d
  {
  }

  /** All of `s` lies in one half of the circle, starting at `base`. */
  ghost predicate InWindow(base: U16, s: U16) { (s - base) % 0x1_0000 < 0x8000 }

  /** Inside a window seqno_compare is the order of distances from its start. */
  lemma {:induction false} WindowOrder(base: U16, s: U16, t: U16)
    requires InWindow(base, s) && InWindow(base, t)
    ensures SeqnoCompare(s, t) == Sign((s - base) % 0x1_0000 - (t - base) % 0x1_0000)
  {
  }

  // ------------------------------------------------------------------
  // Sources and feasibility
  // ------------------------------------------------------------------

  /** The feasibility distance of one (router-id, prefix) and when it was last used. */
  datatype Source = Source(seqno: U16, metric: U16, time: int)

  predicate Stale(src: Source, now: int) { src.time < now - SOURCE_GC_TIME }

  /** update_feasible for a source that exists. */
  predicate UpdateFeasible(src: Source, now: int, seqno: U16, refmetric: U16) {
    Stale(src, now) || refmetric >= INFINITY
    || SeqnoCompare(seqno, src.seqno) > 0 || (src.seqno == seqno && refmetric < src.metric)
  }

  function UpdateSource(src: Source, now: int, seqno: U16, metric: U16): Source {
    if metric >= INFINITY then src
    else if Stale(src, now) || SeqnoCompare(src.seqno, seqno) < 0 || (src.seqno == seqno && src.metric > metric)
    then Source(seqno, metric, now)
    else src.(time := now)
  }

  /** (s, m) is a strictly better distance than (t, n). */
  predicate Better(s: U16, m: U16, t: U16, n: U16) {
    SeqnoCompare(s, t) > 0 || (s == t && m < n)
  }

  predicate AtLeastAsGood(s: U16, m: U16, t: U16, n: U16) {
    (s == t && m == n) || Better(s, m, t, n)
  }

  /** Inside a window distances are totally ordered. */
  ghost function Rank(base: U16, s: U16, m: U16): int {
    (s - base) % 0x1_0000 * 0x1_0000 - m
  }

  lemma {:induction false} BetterIsRank(base: U16, s: U16, m: U16, t: U16, n: U16)
    requires InWindow(base, s) && InWindow(base, t)
    ensures Better(s, m, t, n) <==> Rank(base, s, m) > Rank(base, t, n)
    ensures AtLeastAsGood(s, m, t, n) <==> Rank(base, s, m) >= Rank(base, t, n)
  {
    WindowOrder(base, s, t);
  }

  /** Feasibility is exactly what makes a finite update safe: whatever distance
      the sender may have reached by now, it is strictly better than ours. */
  lemma {:induction false} FeasibleIffSafe(base: U16, src: Source, now: int, seqno: U16, refmetric: U16)
    requires InWindow(base, src.seqno) && InWindow(base, seqno)
    requires !Stale(src, now) && refmetric < INFINITY
    ensures UpdateFeasible(src, now, seqno, refmetric) <==>
            forall s: U16, m: U16 | InWindow(base, s) && AtLeastAsGood(s, m, seqno, refmetric)
              :: Better(s, m, src.seqno, src.metric)
  {
    BetterIsRank(base, seqno, refmetric, src.seqno, src.metric);
    if UpdateFeasible(src, now, seqno, refmetric) {
      forall s: U16, m: U16 | InWindow(base, s) && AtLeastAsGood(s, m, seqno, refmetric)
        ensures Better(s, m, src.seqno, src.metric)
      {
        BetterIsRank(base, s, m, seqno, refmetric);
        BetterIsRank(base, s, m, src.seqno, src.metric);
      }
    } else {
      assert AtLeastAsGood(seqno, refmetric, seqno, refmetric);
    }
  }

  /** update_source never makes a live distance worse, and makes it at least as
      good as what was just announced. */
  lemma {:induction false} UpdateSourceImproves(src: Source, now: int, seqno: U16, metric: U16)
    requires !Stale(src, now) && metric < INFINITY
    ensures var r := UpdateSource(src, now, seqno, metric);
            && AtLeastAsGood(r.seqno, r.metric, src.seqno, src.metric)
            && AtLeastAsGood(r.seqno, r.metric, seqno, metric)
            && ((r.seqno == seqno && r.metric == metric) || (r.seqno == src.seqno && r.metric == src.metric))
  {
  }

  /** Announcing a finite metric keeps a source live for exactly SOURCE_GC_TIME, whatever
      it was before; a stale one takes the announcement as it is, and an infinite metric leaves
      all as it was. */
  lemma {:induction false} UpdateSourceFresh(src: Source, now: int, seqno: U16, metric: U16, later: int)
    ensures var r := UpdateSource(src, now, seqno, metric);
            && (metric < INFINITY ==> (Stale(r, later) <==> later > now + SOURCE_GC_TIME))
            && (metric < INFINITY && Stale(src, now) ==> r.seqno == seqno && r.metric == metric)
            && (metric >= INFINITY ==> r == src)
  {
  }

  // ------------------------------------------------------------------
  // Routes
  // ------------------------------------------------------------------

  /** A route to the prefix through one neighbour; `via` tells its interface and
      next hop apart. */
  datatype Key = Key(peer: nat, via: nat)

  datatype Route = Route(id: RouterId, seqno: U16, refmetric: U16, cost: U16, addMetric: U16, installed: bool)

  function MinInf(m: int): (r: U16)
    requires m >= 0
  {
    if m < INFINITY then m else INFINITY
  }

  function RouteMetric(r: Route): U16 {
    MinInf(r.refmetric as int + r.cost as int + r.addMetric as int)
  }

  function RouteMetricNoninterfering(r: Route, factor: nat): U16 {
    var m := r.refmetric as int + (factor * r.cost as int + 128) / 256 + r.addMetric as int;
    MinInf(if m > r.refmetric as int + 1 then m else r.refmetric as int + 1)
  }

  /** A metric is the sum of what it is made of, up to infinity. */
  lemma {:induction false} MetricIsSum(r: Route)
    ensures var m := r.refmetric as int + r.cost as int + r.addMetric as int;
            (RouteMetric(r) < INFINITY <==> m < INFINITY) && (m < INFINITY ==> RouteMetric(r) as int == m)
  {
  }

  /** Links that do not interfere make it no worse: the cost counts for `factor` parts of
      256, to the nearest number. */
  lemma {:induction false} NoninterferingMetric(r: Route, factor: nat)
    requires r.cost >= 1
    ensures factor <= 256 ==> RouteMetricNoninterfering(r, factor) <= RouteMetric(r)
    ensures factor == 256 ==> RouteMetricNoninterfering(r, factor) == RouteMetric(r)
    ensures var m := RouteMetricNoninterfering(r, factor);
            m < INFINITY && m as int > r.refmetric as int + 1 ==>
              -128 <= 256 * (m as int - r.refmetric as int - r.addMetric as int) - factor * r.cost as int <= 128
  {
    RoundedPart(factor, r.cost);
    var x := (factor * r.cost as int + 128) / 256;
    hide RouteMetric;
    MetricIsSum(r);
  }

  lemma {:induction false} RoundedPart(factor: nat, cost: nat)
    ensures var x := (factor * cost + 128) / 256;
            && -128 <= 256 * x - factor * cost <= 128
            && (factor <= 256 ==> x <= cost) && (factor == 256 ==> x == cost)
  {
    if factor <= 256 { assert factor * cost <= 256 * cost by { assert (256 - factor) * cost >= 0; } }
  }

  /** An announced finite metric is worse than the one it is derived from. */
  lemma {:induction false} MetricGrows(r: Route, factor: nat)
    requires r.cost as int + r.addMetric as int >= 1
    ensures RouteMetric(r) < INFINITY ==> r.refmetric < RouteMetric(r)
    ensures RouteMetricNoninterfering(r, factor) < INFINITY ==> r.refmetric < RouteMetricNoninterfering(r, factor)
  {
  }

  // ------------------------------------------------------------------
  // One router and the steps it can take
  // ------------------------------------------------------------------

  /** One router's state for one prefix. */
  datatype Node = Node(
    id: RouterId, myseqno: U16, xroute: Option<U16>,
    routes: map<Key, Route>, sources: map<RouterId, Source>)

  datatype Update = Update(id: RouterId, seqno: U16, refmetric: U16)

  datatype Step =
    | Accept(key: Key, u: Update, cost: U16, addMetric: U16, keepUnfeasible: bool)
    | Install(key: Key)
    | Switch(old_: Key, key: Key)
    | Uninstall(key: Key)
    | Flush(key: Key)
    | Retract(key: Key, seqno: U16)
    | Recost(key: Key, cost: U16, addMetric: U16)
    | Announced(key: Key, noninterfering: bool, factor: nat)
    | SetXroute(xroute: Option<U16>)
    | BumpSeqno

  /** find_source with create set. */
  function FindSource(sources: map<RouterId, Source>, id: RouterId, seqno: U16, now: int): map<RouterId, Source> {
    if id in sources then sources else sources[id := Source(seqno, INFINITY, now)]
  }

  function AcceptedRoute(r: Route, u: Update, cost: U16, addMetric: U16, feasible: bool): Route {
    Route(u.id, u.seqno, u.refmetric, cost, addMetric, r.installed && (feasible || u.id == r.id))
  }

  /** update_route, up to the point where the route's change is acted upon.  An
      unfeasible update from another source uninstalls the route; one from the
      same source is taken over and the route stays installed. */
  function DoAccept(n: Node, now: int, key: Key, u: Update, cost: U16, addMetric: U16, keep: bool): Node {
    if u.id == n.id then n
    else
      var sources := FindSource(n.sources, u.id, u.seqno, now);
      var feasible := UpdateFeasible(sources[u.id], now, u.seqno, u.refmetric);
      if key in n.routes then
        n.(sources := sources, routes := n.routes[key := AcceptedRoute(n.routes[key], u, cost, addMetric, feasible)])
      else if u.refmetric >= INFINITY || (!feasible && !keep) then n.(sources := sources)
      else n.(sources := sources, routes := n.routes[key := Route(u.id, u.seqno, u.refmetric, cost, addMetric, false)])
  }

  ghost predicate NoneInstalled(n: Node) { forall k :: k in n.routes ==> !n.routes[k].installed }

  ghost predicate Feasible(n: Node, now: int, key: Key)
    requires key in n.routes
  {
    var r := n.routes[key];
    r.id in n.sources && UpdateFeasible(n.sources[r.id], now, r.seqno, r.refmetric)
  }

  /** consider_route installs a feasible route when there is no redistributed
      route and either nothing is installed, whatever the metric, or the new
      metric is finite. */
  ghost predicate Can(n: Node, now: int, a: Step) {
    match a
    case Accept(_, _, _, _, _) => true
    case Install(k) => k in n.routes && Feasible(n, now, k) && n.xroute.None? && NoneInstalled(n)
    case Switch(o, k) =>
      && o in n.routes && k in n.routes && n.routes[o].installed && !n.routes[k].installed
      && Feasible(n, now, k) && n.xroute.None? && RouteMetric(n.routes[k]) < INFINITY
    case Uninstall(k) => k in n.routes
    case Flush(k) => k in n.routes && !n.routes[k].installed
    case Retract(k, _) => k in n.routes
    case Recost(k, _, _) => k in n.routes
    case Announced(k, _, _) => k in n.routes && n.routes[k].installed && n.routes[k].id in n.sources
    case SetXroute(x) => x.Some? ==> NoneInstalled(n)
    case BumpSeqno => true
  }

  function AnnouncedMetric(r: Route, noninterfering: bool, factor: nat): U16 {
    if noninterfering then RouteMetricNoninterfering(r, factor) else RouteMetric(r)
  }

  ghost function Do(n: Node, now: int, a: Step): Node
    requires Can(n, now, a)
  {
    match a
    case Accept(k, u, cost, add, keep) => DoAccept(n, now, k, u, cost, add, keep)
    case Install(k) => n.(routes := n.routes[k := n.routes[k].(installed := true)])
    case Switch(o, k) =>
      n.(routes := n.routes[o := n.routes[o].(installed := false)][k := n.routes[k].(installed := true)])
    case Uninstall(k) => n.(routes := n.routes[k := n.routes[k].(installed := false)])
    case Flush(k) => n.(routes := n.routes - {k})
    case Retract(k, seqno) =>
      n.(routes := n.routes[k := n.routes[k].(seqno := seqno, refmetric := INFINITY, cost := INFINITY, addMetric := 0)])
    case Recost(k, cost, add) => n.(routes := n.routes[k := n.routes[k].(cost := cost, addMetric := add)])
    case Announced(k, noninterfering, factor) =>
      var r := n.routes[k];
      n.(sources := n.sources[r.id := UpdateSource(n.sources[r.id], now, r.seqno, AnnouncedMetric(r, noninterfering, factor))])
    case SetXroute(x) => n.(xroute := x)
    case BumpSeqno => n.(myseqno := SeqnoPlus(n.myseqno, 1))
  }

  /** What every step keeps: sources outlive their routes, a router never holds
      a route for its own id, and at most one route is installed, never beside a
      redistributed one. */
  ghost predicate NodeInv(n: Node) {
    && (forall k :: k in n.routes ==> n.routes[k].id in n.sources && n.routes[k].id != n.id)
    && (forall k, l :: k in n.routes && l in n.routes && n.routes[k].installed && n.routes[l].installed ==> k == l)
    && (n.xroute.Some? ==> NoneInstalled(n))
  }

  ghost predicate PositiveCosts(n: Node) { forall k :: k in n.routes ==> n.routes[k].cost >= 1 }

  /** A step that takes over a link cost takes over a positive one. */
  ghost predicate PositiveStep(a: Step) { a.Accept? || a.Recost? ==> a.cost >= 1 }

  lemma {:induction false} StepKeepsCosts(n: Node, now: int, a: Step)
    requires PositiveCosts(n) && PositiveStep(a) && Can(n, now, a)
    ensures PositiveCosts(Do(n, now, a))
  {
  }

  lemma {:induction false} StepKeepsNodeInv(n: Node, now: int, a: Step)
    requires NodeInv(n) && Can(n, now, a)
    ensures NodeInv(Do(n, now, a)) && Do(n, now, a).id == n.id
  {
    hide DoAccept, UpdateSource, UpdateFeasible, RouteMetric, AnnouncedMetric;
    match a
    case Accept(k, u, cost, add, keep) => AcceptKeepsNodeInv(n, now, k, u, cost, add, keep);
    case Switch(o, k) => assert forall l :: l in n.routes && n.routes[l].installed ==> l == o;
    case _ =>
  }

  lemma {:induction false} AcceptKeepsNodeInv(n: Node, now: int, key: Key, u: Update, cost: U16, addMetric: U16, keep: bool)
    requires NodeInv(n)
    ensures NodeInv(DoAccept(n, now, key, u, cost, addMetric, keep)) && DoAccept(n, now, key, u, cost, addMetric, keep).id == n.id
  {
    hide UpdateFeasible;
  }

  // ------------------------------------------------------------------
  // Sequences of steps
  // ------------------------------------------------------------------

  /** A step a router takes of its own accord, without a packet coming or going and
      without a link's cost changing. */
  predicate IsLocal(a: Step) { !a.Accept? && !a.Announced? && !a.Recost? }

  ghost predicate StepsTo(x: Node, now: int, steps: seq<Step>, y: Node)
    decreases steps
  {
    if steps == [] then x == y
    else IsLocal(steps[0]) && Can(x, now, steps[0]) && StepsTo(Do(x, now, steps[0]), now, steps[1..], y)
  }

  /** Some local steps lead from `x` to `y`. */
  ghost predicate Reaches(x: Node, now: int, y: Node) { exists steps :: StepsTo(x, now, steps, y) }

  lemma {:induction false} ReachesItself(x: Node, now: int)
    ensures Reaches(x, now, x)
  {
    assert StepsTo(x, now, [], x);
  }

  lemma {:induction false} ReachesByStep(x: Node, now: int, a: Step)
    requires IsLocal(a) && Can(x, now, a)
    ensures Reaches(x, now, Do(x, now, a))
  {
    assert [a][1..] == [];
    assert StepsTo(x, now, [a], Do(x, now, a));
  }

  lemma {:induction false} StepsConcat(x: Node, now: int, xs: seq<Step>, y: Node, ys: seq<Step>, z: Node)
    requires StepsTo(x, now, xs, y) && StepsTo(y, now, ys, z)
    ensures StepsTo(x, now, xs + ys, z)
    decreases xs
  {
    if xs == [] {
      assert xs + ys == ys;
    } else {
      StepsConcat(Do(x, now, xs[0]), now, xs[1..], y, ys, z);
      assert (xs + ys)[1..] == xs[1..] + ys;
    }
  }

  lemma {:induction false} ReachesTrans(x: Node, now: int, y: Node, z: Node)
    requires Reaches(x, now, y) && Reaches(y, now, z)
    ensures Reaches(x, now, z)
  {
    var xs :| StepsTo(x, now, xs, y);
    var ys :| StepsTo(y, now, ys, z);
    StepsConcat(x, now, xs, y, ys, z);
  }
}
