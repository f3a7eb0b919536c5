/**
 Runs of the Babel route table, from an empty one, that leave a prefix with a usable
 route and none installed: the two operations that do not look for one are deleting a
 redistributed route (babeld/xroute.c) and retracting a neighbour's routes
 (babeld/route.c).
 */
module BabelUnserved {
  import opened Common
  import opened BabelNode
  import opened BabelSlots
  import opened BabelState
  import opened BabelTable

  const NEAR := Neighbour(5, 1)
  const FAR := Neighbour(6, 1)

  lemma {:induction false} NoKeys()
    ensures Keys([]) == {}
  {
  }

  /** A first route to a prefix, and what becomes of its slot. */
  method FirstRoute(x: Router, p: Prefix, u: Update, neigh: Neighbour, cost: U16)
    requires x.Valid() && SlotFor(x.slots, p) == [] && x.Served(p) && x.Takes(u, p, 0, false)
    modifies x
    ensures x.Valid() && x.Served(p) && x.xroutes == old(x.xroutes) && x.now == old(x.now)
    ensures SourceKey(u.id, p) in x.sources && x.SourceFor(u, p) == old(x.SourceFor(u, p))
    ensures var s := SlotFor(x.slots, p);
            && |s| == 1 && s[0].prefix == p && s[0].neigh == neigh && s[0].time == x.now && s[0].holdTime >= 0
            && s[0].r == Route(u.id, u.seqno, u.refmetric, cost, 0, s[0].r.installed)
            && s[0].r.installed == (XrouteAt(x.xroutes, p).None? && UpdateFeasible(x.SourceFor(u, p), x.now, u.seqno, u.refmetric))
  {
    hide AllOk, Counts, Reaches, Router.View, SlotFor, XrouteAt, Router.Considered, UniqueXroutes, ServedIn, Keys, SlotOk, Sorted, UpdateFeasible;
    x.CoreTable();
    NoKeys();
    ghost var done := x.UpdateRoute(u, p, 400, neigh, 7, cost, 0, false);
    ghost var e := x.NewRoute(u, p, 400, neigh, 7, cost, 0);
    assert [] + [e] == [e];
    x.CoreTable();
    x.ConsideredAlone(e, done, SlotFor(x.slots, p));
  }

  method Redistribute(x: Router, p: Prefix)
    requires x.Valid() && x.slots == [] && x.xroutes == []
    modifies x
    ensures x.Valid() && XrouteAt(x.xroutes, p) == Some(0) && SlotFor(x.slots, p) == []
    ensures x.sources == old(x.sources) && x.now == old(x.now)
  {
    hide AllOk, Counts, Reaches, Router.View, SlotFor, UniqueXroutes, ServedIn;
    x.CoreTable();
    NoSlotFor(x.slots, p);
    var changed := x.XrouteAddNewRoute(p, 0, false);
  }

  /** From the start: a prefix is redistributed, a neighbour announces a route to it,
      the redistributed route goes, and the prefix is left with a usable route that is
      not installed. */
  method UnservedAfterDelete(p: Prefix) returns (x: Router)
    ensures x.Valid() && XrouteAt(x.xroutes, p).None? && !x.Served(p)
  {
    hide AllOk, Counts, Reaches, Router.View, SlotFor, XrouteAt, UniqueXroutes, SlotOk, Sorted;
    x := new Router(1, 0, false, 4, 0);
    Redistribute(x, p);
    x.CoreTable();
    FirstRoute(x, p, Update(2, 0, 10), NEAR, 96);
    x.CoreTable();
    x.XrouteDelete(p);
  }

  /** A prefix's first route is announced. */
  method AnnounceOnly(x: Router, i: nat, p: Prefix)
    requires x.Valid() && i < |x.slots| && x.slots[i] == SlotFor(x.slots, p) && x.slots[i][0].prefix == p && x.slots[i][0].r.installed
    requires SourceKey(x.slots[i][0].r.id, p) in x.sources
    modifies x`sources
    ensures x.Valid() && x.Served(p)
    ensures var r := x.slots[i][0].r;
            && SourceKey(r.id, p) in x.sources
            && x.sources[SourceKey(r.id, p)].src
               == UpdateSource(old(x.sources[SourceKey(r.id, p)].src), x.now, r.seqno, RouteMetric(r))
  {
    hide AllOk, Counts, SlotFor, UniqueXroutes, SlotOk, Sorted, SlotMap, SourcesAt, UpdateSource;
    x.CoreTable();
    SlotMapHead(x.slots, i);
    ghost var id := x.slots[i][0].r.id;
    SourcesAtKey(x.sources, p, id);
    x.Announce(i, false, 256);
    x.CoreTable();
    SourcesAtKey(x.sources, p, id);
  }

  lemma {:induction false} SlotMapHead(t: Table, i: nat)
    requires TableOk(t) && i < |t|
    ensures t[i] != [] && KeyOf(t[i][0]) in SlotMap(t[i]) && SlotMap(t[i])[KeyOf(t[i][0])] == t[i][0].r
  {
    SlotMapAt(t[i], 0);
  }

  /** A neighbour announces a route, which is installed and announced in turn, and then
      lost: what remains is the distance of 106. */
  method Distance(p: Prefix) returns (x: Router)
    ensures fresh(x) && x.Valid() && x.Served(p) && SlotFor(x.slots, p) == [] && x.xroutes == []
    ensures x.id == 1 && x.now == 0 && x.keepUnfeasible
    ensures SourceKey(2, p) in x.sources && x.sources[SourceKey(2, p)].src == Source(0, 106, 0)
  {
    hide AllOk, Counts, Reaches, SlotFor, UniqueXroutes, SlotOk, Sorted, SlotMap, SourcesAt, Flushed;
    x := new Router(1, 0, true, 4, 0);
    x.CoreTable();
    NoSlotFor(x.slots, p);
    FirstRoute(x, p, Update(2, 0, 10), NEAR, 96);
    x.CoreTable();
    var i, n := x.FindRouteSlot(p);
    AnnounceOnly(x, i, p);
    x.CoreTable();
    SourcesAtKey(x.sources, p, 2);
    ghost var y, t := x.View(p), x.slots;
    x.FlushRoute(i, 0);
    x.CoreTable();
    ReachesKeepsSources(y, x.now, x.View(p));
    SourcesAtKey(x.sources, p, 2);
    GoneAlone(t, x.slots, i, p);
  }

  lemma {:induction false} GoneAlone(t: Table, u: Table, i: nat, p: Prefix)
    requires Flushed(t, u, i, 0) && |t[i]| == 1 && t[i][0].prefix == p
    ensures SlotFor(u, p) == []
  {
    hide SlotFor;
    assert t[i] == [t[i][0]];
    var s := SlotFor(u, p);
    assert s != [] ==> Wire(s[0]) in Wires(s);
  }

  lemma {:induction false} StepsKeepSources(x: Node, now: int, steps: seq<Step>, y: Node)
    requires StepsTo(x, now, steps, y)
    ensures y.sources == x.sources
    decreases steps
  {
    if steps != [] { StepsKeepSources(Do(x, now, steps[0]), now, steps[1..], y); }
  }

  lemma {:induction false} ReachesKeepsSources(x: Node, now: int, y: Node)
    requires Reaches(x, now, y)
    ensures y.sources == x.sources
  {
    var steps :| StepsTo(x, now, steps, y);
    StepsKeepSources(x, now, steps, y);
  }

  /** From the start: with that distance, another neighbour over a dead link announces a
      route that is not feasible; when that neighbour is lost its route is retracted,
      and so feasible, but not considered. */
  method UnservedAfterRetract(p: Prefix) returns (x: Router)
    ensures x.Valid() && XrouteAt(x.xroutes, p).None? && !x.Served(p)
  {
    hide AllOk, Counts, Reaches, Router.View, SlotFor, UniqueXroutes, SlotOk, Sorted;
    x := Distance(p);
    x.CoreTable();
    FirstRoute(x, p, Update(2, 0, 200), FAR, INFINITY);
    x.CoreTable();
    var i, n := x.FindRouteSlot(p);
    ghost var e := x.RetractNeighbourRoute(i, 0, FAR);
  }
}
