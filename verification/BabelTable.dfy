/**
 The Babel route table at work (babeld/route.c, source.c, xroute.c): binary
 search, installing and switching, route selection, updates, flushing.

 Every method keeps the kernel mirrored, the reference counts exact and the
 table in order, and moves each prefix only by the steps of module BabelNode.
 Calls into zebra succeed; triggered updates and requests are left to the
 network model, where anything may be sent at any time.
 */
module BabelTable {
  import opened Common
  import opened BabelNode
  import opened BabelSlots
  import opened BabelMetric
  import opened BabelState

  class Router {
    const id: RouterId
    const kernelMetric: nat
    const keepUnfeasible: bool
    const halfLife: int

    var now: int
    var myseqno: U16
    var slots: Table
    var sources: Sources
    var kernel: Kernel
    var xroutes: seq<Xroute>

    ghost predicate Core()
      reads this
    {
      AllOk(slots, kernel, xroutes, sources, id, kernelMetric)
    }

    ghost predicate Valid()
      reads this
    {
      Core() && Counts(slots, sources, None) && UniqueXroutes(xroutes)
    }

    /** This router's state for one prefix, as the protocol sees it. */
    ghost function View(p: Prefix): Node
      reads this
      requires SlotsOk(slots)
    {
      Node(id, myseqno, XrouteAt(xroutes, p), SlotMap(SlotFor(slots, p)), SourcesAt(sources, p))
    }

    /** A usable route to `p`, if there is one, is not left uninstalled. */
    ghost predicate Served(p: Prefix)
      reads this
      requires SlotsOk(slots)
    {
      ServedIn(SlotFor(slots, p), XrouteAt(xroutes, p), sources, now)
    }

    constructor (id: RouterId, kernelMetric: nat, keepUnfeasible: bool, halfLife: int, now: int)
      ensures Valid() && slots == [] && sources == map[] && kernel == map[] && xroutes == []
      ensures this.id == id && this.kernelMetric == kernelMetric && this.keepUnfeasible == keepUnfeasible
      ensures this.halfLife == halfLife && this.now == now
    {
      this.id, this.kernelMetric, this.keepUnfeasible, this.halfLife := id, kernelMetric, keepUnfeasible, halfLife;
      this.now, myseqno, slots, sources, kernel, xroutes := now, 0, [], map[], map[], [];
      new;
      forall p ensures SlotFor(slots, p) == [] { NoSlotFor(slots, p); }
    }

    // --------------------------------------------------------------
    // Looking things up
    // --------------------------------------------------------------

    /** find_route_slot: the index of the slot for `p`, or -1 and the index at
        which it belongs. */
    method FindRouteSlot(p: Prefix) returns (i: int, n: nat)
      requires TableOk(slots)
      ensures i >= 0 ==> i < |slots| && slots[i][0].prefix == p && SlotFor(slots, p) == slots[i]
      ensures i < 0 ==> i == -1 && Gap(slots, p, n) && SlotFor(slots, p) == []
    {
      n := 0;
      if |slots| < 1 {
        NoSlotFor(slots, p);
        return -1, 0;
      }
      var lo, hi := 0, |slots| - 1;
      while lo <= hi
        invariant 0 <= lo <= hi + 1 <= |slots|
        invariant forall k :: 0 <= k < lo ==> Compare(slots[k][0].prefix, p) < 0
        invariant forall k :: hi < k < |slots| ==> Compare(p, slots[k][0].prefix) < 0
      {
        var m := (lo + hi) / 2;
        var c := Compare(p, slots[m][0].prefix);
        if c == 0 {
          SlotForAt(slots, m);
          return m, 0;
        } else if c < 0 {
          assert forall k :: m <= k < |slots| ==> Compare(p, slots[k][0].prefix) < 0;
          hi := m - 1;
        } else {
          assert forall k :: 0 <= k <= m ==> Compare(slots[k][0].prefix, p) < 0;
          lo := m + 1;
        }
      }
      NoSlotFor(slots, p);
      return -1, lo;
    }

    /** find_route: the position of the route to `p` with this key, or -1. */
    method FindRoute(p: Prefix, key: Key) returns (i: int, j: int)
      requires TableOk(slots)
      ensures i >= 0 ==> 0 <= j < |SlotFor(slots, p)| && i < |slots| && slots[i] == SlotFor(slots, p) && KeyOf(slots[i][j]) == key
      ensures i < 0 ==> key !in Keys(SlotFor(slots, p))
    {
      var n: nat;
      i, n := FindRouteSlot(p);
      j := 0;
      if i < 0 { return -1, 0; }
      while j < |slots[i]|
        invariant 0 <= j <= |slots[i]|
        invariant forall k :: 0 <= k < j ==> KeyOf(slots[i][k]) != key
      {
        if KeyOf(slots[i][j]) == key { return; }
        j := j + 1;
      }
      return -1, 0;
    }

    /** find_xroute */
    method FindXroute(p: Prefix) returns (k: int)
      ensures k >= 0 ==> k < |xroutes| && xroutes[k].prefix == p && XrouteAt(xroutes, p) == Some(xroutes[k].metric)
      ensures k < 0 <==> XrouteAt(xroutes, p).None?
    {
      k := 0;
      while k < |xroutes|
        invariant 0 <= k <= |xroutes|
        invariant XrouteAt(xroutes, p) == XrouteAt(xroutes[k..], p)
      {
        if xroutes[k].prefix == p { return; }
        k := k + 1;
      }
      return -1;
    }

    /** What the kernel is told: packets for a prefix go the way of its installed route,
        nowhere if that is retracted, and are not Babel's if there is none. */
    lemma {:induction false} KernelSays(p: Prefix)
      requires Core() && kernelMetric < KERNEL_INFINITY
      ensures var s := SlotFor(slots, p);
              if s == [] || !s[0].r.installed then p !in kernel
              else
                && p in kernel && XrouteAt(xroutes, p).None?
                && (RouteMetric(s[0].r) < INFINITY ==> kernel[p] == Via(s[0].nexthop, s[0].neigh.ifindex, kernelMetric))
                && (RouteMetric(s[0].r) >= INFINITY ==> kernel[p] == Blackhole)
    {
      assert PrefixOk(SlotFor(slots, p), p, Lookup(kernel, p), XrouteAt(xroutes, p), sources, id, kernelMetric);
    }

    // --------------------------------------------------------------
    // Installing
    // --------------------------------------------------------------

    method UninstallRoute(i: nat)
      requires Core() && i < |slots|
      modifies this`slots, this`kernel
      ensures Core() && slots == old(slots)[i := Uninstalled(old(slots[i]))]
    {
      ghost var t, k := slots, kernel;
      PrefixOkAt(slots, i, kernel, xroutes, sources, id, kernelMetric);
      var head := slots[i][0];
      if !head.r.installed {
        assert Uninstalled(slots[i]) == slots[i];
        return;
      }
      kernel := kernel - {head.prefix};
      var s := slots[i][0 := SetInstalled(head, false)];
      UpdateSlotOk(slots[i], 0, s[0]);
      ReplaceKeepsAll(t, i, s, k, kernel, xroutes, sources, id, kernelMetric);
      slots := slots[i := s];
    }

    /** install_route and switch_routes: the route at `j` replaces the installed
        one, if any, in the kernel and at the head of the slot. */
    method SwitchRoutes(i: nat, j: nat)
      requires Core() && i < |slots| && j < |slots[i]| && XrouteAt(xroutes, slots[i][0].prefix).None?
      modifies this`slots, this`kernel
      ensures Core() && slots == old(slots)[i := SwitchedTo(old(slots[i]), j)]
    {
      hide AllOk, SlotFor, Refs, SlotMap, XrouteAt, FibOf, UniqueKeys;
      ghost var t, k := slots, kernel;
      PrefixOkAt(slots, i, kernel, xroutes, sources, id, kernelMetric);
      SwitchedOk(slots[i], j);
      SwitchedFib(slots[i], j, kernelMetric);
      var old_, new_ := slots[i][0], slots[i][j];
      if !old_.r.installed {
        kernel := kernel[new_.prefix := FibOf(new_, kernelMetric)];
      } else {
        KernelModify(old_.prefix, FibOf(old_, kernelMetric), FibOf(new_, kernelMetric));
      }
      var s := SwitchedTo(slots[i], j);
      ReplaceKeepsAll(t, i, s, k, kernel, xroutes, sources, id, kernelMetric);
      slots := slots[i := s];
    }

    static lemma {:induction false} SwitchedFib(s: Slot, j: nat, kernelMetric: nat)
      requires SlotOk(s) && j < |s|
      ensures FibFor(SwitchedTo(s, j), kernelMetric) == Some(FibOf(s[j], kernelMetric))
    {
      hide SlotMap, Refs;
      SwitchedOk(s, j);
    }

    /** ROUTE_MODIFY: nothing to do when nothing changes, else delete and add. */
    method KernelModify(p: Prefix, from: FibEntry, to: FibEntry)
      requires p in kernel && kernel[p] == from
      modifies this`kernel
      ensures kernel == old(kernel)[p := to]
    {
      if from == to {
        assert kernel == kernel[p := to];
        return;
      }
      kernel := kernel - {p};
      kernel := kernel[p := to];
    }

    // --------------------------------------------------------------
    // Metrics and selection
    // --------------------------------------------------------------

    /** The smoothed metric of `e` is up to date, so reading it again at this
        instant does not change it. */
    ghost predicate Refreshed(e: Entry)
      reads this`now
    {
      e.smoothedTime == now && Settled(RouteMetric(e.r), e.smoothed, halfLife)
    }

    /** What is up to date in `s` is the same in `t`. */
    ghost predicate FreshKept(s: Slot, t: Slot)
      reads this`now
    {
      |s| == |t| && forall j :: 0 <= j < |s| && Refreshed(s[j]) ==> t[j] == s[j]
    }

    lemma {:induction false} FreshKeptTrans(s: Slot, t: Slot, u: Slot)
      requires FreshKept(s, t) && FreshKept(t, u)
      ensures FreshKept(s, u)
    {
      hide Refreshed;
    }

    /** route_smoothed_metric on a route of the table. */
    method SmoothedMetric(i: nat, j: nat) returns (sm: U16)
      requires Core() && i < |slots| && j < |slots[i]|
      modifies this`slots
      ensures Core() && |slots| == |old(slots)| && slots == old(slots)[i := slots[i]]
      ensures SmoothEq(old(slots[i]), slots[i]) && slots[i] == old(slots[i])[j := slots[i][j]]
      ensures Refreshed(slots[i][j]) && sm == slots[i][j].smoothed
      ensures Between(RouteMetric(slots[i][j].r), old(slots[i][j].smoothed), sm)
      ensures old(Refreshed(slots[i][j])) ==> slots == old(slots)
      ensures FreshKept(old(slots[i]), slots[i])
    {
      PrefixOkAt(slots, i, kernel, xroutes, sources, id, kernelMetric);
      var e := slots[i][j];
      var time: int;
      ghost var fits;
      sm, time, fits := RouteSmoothedMetric(RouteMetric(e.r), e.smoothed, e.smoothedTime, now, halfLife);
      ghost var t := slots;
      var s := slots[i][j := e.(smoothed := sm, smoothedTime := time)];
      SmoothEqOk(slots[i], s);
      assert sm == e.smoothed && time == e.smoothedTime ==> s == slots[i];
      ReplaceKeepsAll(t, i, s, kernel, kernel, xroutes, sources, id, kernelMetric);
      slots := slots[i := s];
    }

    predicate RouteExpired(e: Entry)
      reads this`now
    {
      e.time < now - e.holdTime
    }

    predicate RouteFeasible(e: Entry)
      reads this`now, this`sources
    {
      FeasibleIn(sources, now, e)
    }

    predicate Acceptable(e: Entry, feasible: bool, exclude: Option<Neighbour>)
      reads this`now, this`sources
    {
      !RouteExpired(e) && (feasible ==> RouteFeasible(e)) && exclude != Some(e.neigh)
    }

    /** No acceptable route among the first `n` is better than the one at `best`, and
        none before it is as good. */
    ghost predicate BestOf(s: Slot, n: nat, best: int, feasible: bool, exclude: Option<Neighbour>)
      requires n <= |s|
      reads this`now, this`sources
    {
      if best < 0 then forall k :: 0 <= k < n ==> !Acceptable(s[k], feasible, exclude)
      else
        && best < n && Acceptable(s[best], feasible, exclude)
        && (forall k :: 0 <= k < n && Acceptable(s[k], feasible, exclude) ==> s[best].smoothed <= s[k].smoothed)
        && (forall k :: 0 <= k < best && Acceptable(s[k], feasible, exclude) ==> s[best].smoothed < s[k].smoothed)
    }

    /** find_best_route: an acceptable route of least smoothed metric, or -1. */
    method FindBestRoute(i: nat, feasible: bool, exclude: Option<Neighbour>) returns (best: int)
      requires Core() && i < |slots|
      modifies this`slots
      ensures Core() && |slots| == |old(slots)| && slots == old(slots)[i := slots[i]]
      ensures SmoothEq(old(slots[i]), slots[i]) && FreshKept(old(slots[i]), slots[i]) && best >= -1
      ensures BestOf(slots[i], |slots[i]|, best, feasible, exclude)
      ensures best >= 0 ==> AllFresh(slots[i], |slots[i]|, feasible, exclude) || OnlyOne(slots[i], |slots[i]|, best, feasible, exclude)
    {
      hide AllOk, BestOf, Acceptable, OnlyOne, AllFresh;
      var n := |slots[i]|;
      best := 0;
      NoneYet(slots[i], feasible, exclude);
      while best < n && !Acceptable(slots[i][best], feasible, exclude)
        invariant Core() && slots == old(slots)
        invariant 0 <= best <= n && OnlyOne(slots[i], best, -1, feasible, exclude)
      {
        NotThisOne(slots[i], best, -1, feasible, exclude);
        best := best + 1;
      }
      FreshItself(slots[i]);
      if best == n {
        BestNone(slots[i], feasible, exclude);
        return -1;
      }
      BestFirst(slots[i], best, feasible, exclude);
      var r := best + 1;
      while r < n
        invariant Core() && |slots| == |old(slots)| && slots == old(slots)[i := slots[i]]
        invariant SmoothEq(old(slots[i]), slots[i]) && FreshKept(old(slots[i]), slots[i]) && n == |slots[i]|
        invariant 0 <= best < r <= n && BestOf(slots[i], r, best, feasible, exclude)
        invariant AllFresh(slots[i], r, feasible, exclude) || OnlyOne(slots[i], r, best, feasible, exclude)
      {
        ghost var s := slots[i];
        best := Challenge(i, best, r, feasible, exclude);
        FreshKeptTrans(old(slots[i]), s, slots[i]);
        r := r + 1;
      }
    }

    /** One turn of the selection loop: the route at `r` against the best so far. */
    method Challenge(i: nat, best: nat, r: nat, feasible: bool, exclude: Option<Neighbour>) returns (b: nat)
      requires Core() && i < |slots| && best < r < |slots[i]| && BestOf(slots[i], r, best, feasible, exclude)
      requires AllFresh(slots[i], r, feasible, exclude) || OnlyOne(slots[i], r, best, feasible, exclude)
      modifies this`slots
      ensures Core() && |slots| == |old(slots)| && slots == old(slots)[i := slots[i]]
      ensures SmoothEq(old(slots[i]), slots[i]) && FreshKept(old(slots[i]), slots[i])
      ensures b <= r && BestOf(slots[i], r + 1, b, feasible, exclude)
      ensures AllFresh(slots[i], r + 1, feasible, exclude) || OnlyOne(slots[i], r + 1, b, feasible, exclude)
    {
      hide AllOk, FreshKept, Refreshed, Acceptable, BestOf, OnlyOne, AllFresh;
      ghost var x := slots[i];
      FreshItself(x);
      if !Acceptable(slots[i][r], feasible, exclude) {
        BestSkip(x, r, best, feasible, exclude);
        return best;
      }
      var smr := SmoothedMetric(i, r);
      ghost var y := slots[i];
      var smb := SmoothedMetric(i, best);
      FreshKeptTrans(x, y, slots[i]);
      BestStep(x, y, slots[i], r, best, feasible, exclude);
      b := if smr < smb then r else best;
    }

    lemma NoneYet(s: Slot, feasible: bool, exclude: Option<Neighbour>)
      ensures OnlyOne(s, 0, -1, feasible, exclude)
    {
    }

    lemma NotThisOne(s: Slot, n: nat, best: int, feasible: bool, exclude: Option<Neighbour>)
      requires n < |s| && OnlyOne(s, n, best, feasible, exclude) && !Acceptable(s[n], feasible, exclude)
      ensures OnlyOne(s, n + 1, best, feasible, exclude)
    {
    }

    lemma BestNone(s: Slot, feasible: bool, exclude: Option<Neighbour>)
      requires OnlyOne(s, |s|, -1, feasible, exclude)
      ensures BestOf(s, |s|, -1, feasible, exclude)
    {
    }

    lemma BestSkip(s: Slot, r: nat, best: nat, feasible: bool, exclude: Option<Neighbour>)
      requires best < r < |s| && BestOf(s, r, best, feasible, exclude) && !Acceptable(s[r], feasible, exclude)
      requires AllFresh(s, r, feasible, exclude) || OnlyOne(s, r, best, feasible, exclude)
      ensures BestOf(s, r + 1, best, feasible, exclude)
      ensures AllFresh(s, r + 1, feasible, exclude) || OnlyOne(s, r + 1, best, feasible, exclude)
    {
    }

    /** The best route is alive, not the excluded neighbour's and, if asked for, feasible;
        with none found, every route fails one of these. */
    lemma BestMeans(s: Slot, best: int, feasible: bool, exclude: Option<Neighbour>)
      requires BestOf(s, |s|, best, feasible, exclude)
      ensures best >= 0 ==>
                var e := s[best];
                e.time + e.holdTime >= now && exclude != Some(e.neigh) && (feasible ==> FeasibleIn(sources, now, e))
      ensures best < 0 ==>
                forall e :: e in s ==> e.time + e.holdTime < now || exclude == Some(e.neigh) || (feasible && !FeasibleIn(sources, now, e))
    {
    }

    lemma {:induction false} BestFirst(s: Slot, best: nat, feasible: bool, exclude: Option<Neighbour>)
      requires best < |s| && Acceptable(s[best], feasible, exclude) && OnlyOne(s, best, -1, feasible, exclude)
      ensures BestOf(s, best + 1, best, feasible, exclude) && OnlyOne(s, best + 1, best, feasible, exclude)
    {
    }

    /** The smoothed metrics of all acceptable routes among the first `n` are up to
        date. */
    ghost predicate AllFresh(s: Slot, n: nat, feasible: bool, exclude: Option<Neighbour>)
      requires n <= |s|
      reads this`now, this`sources
    {
      forall k :: 0 <= k < n && Acceptable(s[k], feasible, exclude) ==> Refreshed(s[k])
    }

    ghost predicate OnlyOne(s: Slot, n: nat, best: int, feasible: bool, exclude: Option<Neighbour>)
      requires n <= |s|
      reads this`now, this`sources
    {
      forall k :: 0 <= k < n && k != best ==> !Acceptable(s[k], feasible, exclude)
    }

    /** Refreshing the newcomer and then the best so far tells which is better. */
    lemma {:induction false} BestStep(x: Slot, y: Slot, z: Slot, r: nat, best: nat, feasible: bool, exclude: Option<Neighbour>)
      requires best < r < |x| && BestOf(x, r, best, feasible, exclude) && Acceptable(x[r], feasible, exclude)
      requires AllFresh(x, r, feasible, exclude) || OnlyOne(x, r, best, feasible, exclude)
      requires SmoothEq(x, y) && y == x[r := y[r]] && Refreshed(y[r])
      requires SmoothEq(y, z) && z == y[best := z[best]] && Refreshed(z[best]) && (Refreshed(y[best]) ==> z == y)
      ensures BestOf(z, r + 1, if z[r].smoothed < z[best].smoothed then r else best, feasible, exclude)
      ensures AllFresh(z, r + 1, feasible, exclude)
    {
      assert y[best] == x[best] && z[r] == y[r];
      assert forall k :: 0 <= k <= r ==> (Acceptable(z[k], feasible, exclude) <==> Acceptable(x[k], feasible, exclude));
      assert forall k :: 0 <= k < r && k != best ==> z[k] == x[k];
    }

    // --------------------------------------------------------------
    // Deciding
    // --------------------------------------------------------------

    /** consider_route wants this route to replace what is installed. */
    predicate Wanted(e: Entry, head: Entry) {
      !head.r.installed || Beats(e, head)
    }

    /** The decision comes down to the smoothed metrics. */
    predicate Weighed(e: Entry, head: Entry) {
      head.r.installed && RouteMetric(e.r) <= RouteMetric(head.r) < INFINITY
    }

    /** Smoothing alone changes nothing the protocol sees. */
    twostate lemma SmoothKeepsView(i: nat)
      requires old(Core()) && Core() && i < |old(slots)| == |slots| && slots == old(slots)[i := slots[i]]
      requires SmoothEq(old(slots[i]), slots[i])
      requires sources == old(sources) && xroutes == old(xroutes) && myseqno == old(myseqno)
      ensures Moved(old(slots), slots, i) && View(slots[i][0].prefix) == old(View(slots[i][0].prefix))
    {
      ReplaceSlot(old(slots), i, slots[i]);
      SmoothShuffled(old(slots[i]), slots[i]);
      hide Shuffled;
      SmoothEqMap(old(slots[i]), slots[i]);
      SlotForAt(slots, i);
      SlotForAt(old(slots), i);
    }

    lemma {:induction false} FreshItself(s: Slot)
      ensures FreshKept(s, s)
    {
    }

    /** The comparisons of consider_route, which refresh smoothed metrics only
        when it comes to them. */
    method WantedNow(i: nat, j: nat) returns (b: bool)
      requires Core() && i < |slots| && j < |slots[i]| && !slots[i][j].r.installed
      modifies this`slots
      ensures Core() && Moved(old(slots), slots, i) && View(slots[i][0].prefix) == old(View(slots[i][0].prefix))
      ensures SmoothEq(old(slots[i]), slots[i]) && FreshKept(old(slots[i]), slots[i])
      ensures Weighed(slots[i][j], slots[i][0]) ==> Refreshed(slots[i][0]) && Refreshed(slots[i][j])
      ensures b == Wanted(slots[i][j], slots[i][0])
    {
      hide AllOk, FreshKept, View, Shuffled, SlotFor, Refreshed, Settled;
      CoreTable();
      var head, e := slots[i][0], slots[i][j];
      ghost var x := slots[i];
      FreshItself(x);
      SmoothKeepsView(i);
      if !head.r.installed { return true; }
      if RouteMetric(e.r) >= INFINITY { return false; }
      if RouteMetric(head.r) >= INFINITY { return true; }
      if RouteMetric(head.r) < RouteMetric(e.r) { return false; }
      var smh := SmoothedMetric(i, 0);
      ghost var y := slots[i];
      var sme := SmoothedMetric(i, j);
      FreshKeptTrans(x, y, slots[i]);
      SmoothKeepsView(i);
      return smh > sme;
    }

    /** Slot `i` holds the same routes as before, rearranged by local steps. */
    twostate predicate Rearranged(i: nat)
      reads this
    {
      && Moved(old(slots), slots, i)
      && Reaches(old(View(slots[i][0].prefix)), now, View(slots[i][0].prefix))
    }

    /** Switching to a feasible route is a step of the protocol. */
    method SwitchAt(i: nat, j: nat)
      requires Core() && i < |slots| && j < |slots[i]| && XrouteAt(xroutes, slots[i][0].prefix).None?
      requires !slots[i][j].r.installed && RouteFeasible(slots[i][j]) && Wanted(slots[i][j], slots[i][0])
      modifies this`slots, this`kernel
      ensures Core() && Rearranged(i) && slots[i] == SwitchedTo(old(slots[i]), j)
    {
      hide AllOk, Reaches, SourcesAt, Shuffled, SlotMap, XrouteAt, UpdateFeasible, UniqueKeys, SwitchedTo, SlotFor;
      CoreTable();
      ghost var s, p, x := slots[i], slots[i][0].prefix, View(slots[i][0].prefix);
      PrefixOkAt(slots, i, kernel, xroutes, sources, id, kernelMetric);
      SourcesAtKey(sources, p, s[j].r.id);
      SwitchSteps(x, now, s, j);
      SwitchRoutes(i, j);
      SwitchedOk(s, j);
      SwitchShuffled(s, j);
      ReplaceSlot(old(slots), i, slots[i]);
      SlotForAt(slots, i);
    }

    /** A route consider_route does not refuse outright. */
    ghost predicate Eligible(e: Entry)
      reads this`now, this`sources, this`xroutes
    {
      !e.r.installed && RouteFeasible(e) && XrouteAt(xroutes, e.prefix).None?
    }

    /** What consider_route asks of the route at `j`. */
    ghost predicate Wants(seen: Slot, j: nat)
      requires j < |seen|
      reads this`now, this`sources, this`xroutes
    {
      Eligible(seen[j]) && Wanted(seen[j], seen[0])
    }

    /** `seen` is slot `s` as consider_route leaves its smoothed metrics: what is up
        to date stays, and the two that are weighed against each other are. */
    ghost predicate Seen(s: Slot, seen: Slot, j: nat)
      requires j < |s|
      reads this`now, this`sources, this`xroutes
    {
      && SmoothEq(s, seen) && FreshKept(s, seen)
      && (Eligible(seen[j]) && Weighed(seen[j], seen[0]) ==> Refreshed(seen[0]) && Refreshed(seen[j]))
    }

    /** `r` is slot `s` after consider_route on its route at `j`. */
    ghost predicate Considered(s: Slot, j: nat, done: bool, r: Slot)
      requires j < |s|
      reads this`now, this`sources, this`xroutes
    {
      exists seen :: Seen(s, seen, j) && done == Wants(seen, j) && r == if done then SwitchedTo(seen, j) else seen
    }

    lemma {:induction false} ConsideredKept(s: Slot, j: nat, done: bool, r: Slot)
      requires SlotOk(s) && j < |s| && Considered(s, j, done, r)
      ensures Kept(s, r) && |r| == |s| && (done ==> !s[j].r.installed && r[0].r.installed)
      ensures XrouteAt(xroutes, s[0].prefix).None? && RouteFeasible(s[j]) ==> r[0].r.installed
    {
      var seen: Slot :| Seen(s, seen, j) && done == Wants(seen, j) && r == if done then SwitchedTo(seen, j) else seen;
      hide XrouteAt, UpdateFeasible;
    }

    /** Each switch from an installed route strictly lowers (is infinite, smoothed
        metric) of the installed route; the old one comes second in the list. */
    lemma {:induction false} SwitchLowers(s: Slot, j: nat, r: Slot)
      requires SlotOk(s) && j < |s| && s[0].r.installed && Considered(s, j, true, r)
      ensures |r| > 1 && KeyOf(r[0]) == KeyOf(s[j]) && KeyOf(r[1]) == KeyOf(s[0]) && Lower(r[0], r[1])
    {
      var seen: Slot :| Seen(s, seen, j) && Wants(seen, j) && r == SwitchedTo(seen, j);
      assert j > 0;
      hide XrouteAt, UpdateFeasible;
      assert r[1] == SetInstalled(seen[0], false) && r[0] == SetInstalled(seen[j], true);
    }

    /** consider_route: installs the route at `j` exactly when it is feasible, not
        installed, not shadowed by a redistributed route, and wanted. */
    method ConsiderRoute(i: nat, j: nat) returns (done: bool)
      requires Core() && i < |slots| && j < |slots[i]|
      modifies this`slots, this`kernel
      ensures Core() && Rearranged(i) && Considered(old(slots[i]), j, done, slots[i])
    {
      hide AllOk, Reaches, Shuffled, View, SmoothEq, FreshKept, Refreshed, Weighed, Wanted, SwitchedTo, SlotFor, XrouteAt;
      CoreTable();
      ghost var s := slots[i];
      assert s[j].prefix == s[0].prefix;
      SeenItself(s, j);
      SmoothKeepsView(i);
      ReachesItself(View(s[0].prefix), now);
      done := false;
      if slots[i][j].r.installed || !RouteFeasible(slots[i][j]) { return; }
      var xr := FindXroute(slots[i][j].prefix);
      if xr >= 0 { return; }
      done := WantedNow(i, j);
      ghost var seen, t := slots[i], slots;
      SeenFields(s, seen, j);
      if done {
        SwitchAt(i, j);
        MovedTrans(old(slots), t, slots, i);
      }
      assert Seen(s, seen, j) && done == Wants(seen, j);
    }

    /** Nothing is looked at when the route is refused outright. */
    lemma {:induction false} SeenItself(s: Slot, j: nat)
      requires j < |s|
      ensures SmoothEq(s, s) && (!Eligible(s[j]) ==> Seen(s, s, j) && !Wants(s, j))
    {
    }

    lemma {:induction false} SeenFields(s: Slot, seen: Slot, j: nat)
      requires SmoothEq(s, seen) && j < |s|
      ensures |seen| == |s| && seen[j].r == s[j].r && seen[j].prefix == s[j].prefix && seen[0].prefix == s[0].prefix
      ensures Eligible(seen[j]) == Eligible(s[j]) && RouteFeasible(seen[j]) == RouteFeasible(s[j])
    {
    }

    /** find_best_route among feasible routes; the table is only smoothed. */
    method BestFeasible(i: nat) returns (best: int)
      requires Core() && i < |slots|
      modifies this`slots
      ensures Core() && Rearranged(i) && SmoothEq(old(slots[i]), slots[i]) && FreshKept(old(slots[i]), slots[i])
      ensures best >= -1 && BestOf(slots[i], |slots[i]|, best, true, None)
      ensures best >= 0 ==> AllFresh(slots[i], |slots[i]|, true, None) || OnlyOne(slots[i], |slots[i]|, best, true, None)
    {
      best := FindBestRoute(i, true, None);
      SmoothKeepsView(i);
      ReachesItself(View(slots[i][0].prefix), now);
    }

    /** `r` is slot `s` after the choice of a best route, at `best` of `mid`, and
        consider_route on it. */
    ghost predicate Chosen(s: Slot, mid: Slot, best: int, done: bool, r: Slot)
      reads this`now, this`sources, this`xroutes
    {
      && SmoothEq(s, mid) && FreshKept(s, mid) && BestOf(mid, |mid|, best, true, None)
      && if best < 0 then r == mid else best < |mid| && Considered(mid, best, done, r)
    }

    /** consider_route on a better route at `best`, and then on the old head, which
        is the second one if there was a switch. */
    method ConsiderBetter(i: nat, best: nat) returns (ghost next: Slot, ghost done: bool, ghost again: bool)
      requires Core() && i < |slots| && best < |slots[i]| && slots[i][0].r.installed
      modifies this`slots, this`kernel
      ensures Core() && Rearranged(i) && Considered(old(slots[i]), best, done, next) && |next| == |old(slots[i])|
      ensures done ==> |next| > 1 && Considered(next, 1, again, slots[i])
      ensures !done ==> slots[i] == next
    {
      hide AllOk, Reaches, Shuffled, Considered, SlotFor, View, Kept, RouteFeasible, XrouteAt;
      CoreTable();
      HeadFacts(i);
      ghost var p, t, s, x := slots[i][0].prefix, slots, slots[i], View(slots[i][0].prefix);
      var switched := ConsiderRoute(i, best);
      next, done, again := slots[i], switched, false;
      ConsideredKept(s, best, switched, next);
      if switched {
        ghost var t2, x2 := slots, View(p);
        var back := ConsiderRoute(i, 1);
        again := back;
        MovedTrans(t, t2, slots, i);
        ReachesTrans(x, now, x2, View(p));
      }
    }

    lemma {:induction false} HeadFacts(i: nat)
      requires Core() && i < |slots|
      ensures SlotOk(slots[i]) && forall j :: 0 < j < |slots[i]| ==> !slots[i][j].r.installed
    {
    }

    /** `r` is slot `s`, whose head is installed, after route_changed on that head:
        it gives way to a better route that is wanted, or stays. */
    ghost predicate Challenged(s: Slot, mid: Slot, better: int, next: Slot, done: bool, again: bool, r: Slot)
      reads this`now, this`sources, this`xroutes
    {
      && SmoothEq(s, mid) && FreshKept(s, mid) && s != [] && better < |mid| && BestOf(mid, |mid|, better, true, None)
      && (better >= 0 ==> AllFresh(mid, |mid|, true, None) || OnlyOne(mid, |mid|, better, true, None))
      && if better < 0 || RouteMetric(mid[better].r) >= RouteMetric(mid[0].r) then r == mid
         else
           && Considered(mid, better, done, next)
           && if done then |next| > 1 && Considered(next, 1, again, r) else r == next
    }

    /** route_changed on the installed route. */
    method ChallengeHead(i: nat) returns (ghost mid: Slot, ghost better: int, ghost next: Slot, ghost done: bool, ghost again: bool)
      requires Core() && i < |slots| && slots[i][0].r.installed
      modifies this`slots, this`kernel
      ensures Core() && Rearranged(i) && Challenged(old(slots[i]), mid, better, next, done, again, slots[i])
    {
      hide AllOk, Reaches, Shuffled, Considered, SlotMap, XrouteAt, SourcesAt, BestOf, AllFresh, OnlyOne;
      CoreTable();
      ghost var p, t, x := slots[i][0].prefix, slots, View(slots[i][0].prefix);
      var best := BestFeasible(i);
      mid, better, next, done, again := slots[i], best, slots[i], false, false;
      if best < 0 || RouteMetric(slots[i][best].r) >= RouteMetric(slots[i][0].r) { return; }
      ghost var t1, x1 := slots, View(p);
      next, done, again := ConsiderBetter(i, best);
      MovedTrans(t, t1, slots, i);
      ReachesTrans(x, now, x1, View(p));
    }

    /** route_changed: an installed route gives way to a better one that is wanted;
        a route that is not installed, or no longer, is considered itself. */
    method RouteChanged(i: nat, j: nat) returns (ghost mid: Slot, ghost better: int, ghost next: Slot, ghost done: bool, ghost again: bool)
      requires Core() && i < |slots| && j < |slots[i]|
      modifies this`slots, this`kernel
      ensures Core() && Rearranged(i)
      ensures if old(slots[i][j].r.installed) then Challenged(old(slots[i]), mid, better, next, done, again, slots[i])
              else Considered(old(slots[i]), j, done, slots[i])
    {
      hide AllOk, Reaches, Moved, Considered, Challenged;
      if slots[i][j].r.installed {
        PrefixHeadOnly(i, j);
        mid, better, next, done, again := ChallengeHead(i);
      } else {
        var switched := ConsiderRoute(i, j);
        mid, better, next, done, again := [], -1, [], switched, false;
      }
    }

    lemma {:induction false} PrefixHeadOnly(i: nat, j: nat)
      requires Core() && i < |slots| && j < |slots[i]| && slots[i][j].r.installed
      ensures j == 0
    {
    }

    /** route_lost, as far as it touches the table: `i` is the slot of `p`. */
    method RouteLost(p: Prefix) returns (ghost i: int, ghost mid: Slot, ghost best: int, ghost done: bool)
      requires Core()
      modifies this`slots, this`kernel
      ensures Core() && i < |slots|
      ensures i < 0 ==> SlotFor(slots, p) == [] && slots == old(slots) && kernel == old(kernel)
      ensures i >= 0 ==> slots[i][0].prefix == p && Rearranged(i) && Chosen(old(slots[i]), mid, best, done, slots[i])
    {
      hide AllOk, Reaches, Shuffled, Considered, SlotFor, View, BestOf, SmoothEq, FreshKept, XrouteAt;
      CoreTable();
      var at, n := FindRouteSlot(p);
      i, mid, best, done := at, [], -1, false;
      if at < 0 { return; }
      ghost var x := View(p);
      var b := BestFeasible(at);
      mid, best := slots[at], b;
      if b >= 0 {
        ghost var t1, x1 := slots, View(p);
        var switched := ConsiderRoute(at, b);
        done := switched;
        MovedTrans(old(slots), t1, slots, at);
        ReachesTrans(x, now, x1, View(p));
      }
    }

    /** Neither route_lost nor route_changed installs a route that has expired. */
    lemma {:induction false} NoneExpired(s: Slot, mid: Slot, best: int, next: Slot, done: bool, again: bool, r: Slot)
      requires SlotOk(s)
      requires Chosen(s, mid, best, done, r) || (s[0].r.installed && Challenged(s, mid, best, next, done, again, r))
      ensures r != [] && (KeyOf(r[0]) == KeyOf(s[0]) || r[0].time + r[0].holdTime >= now)
    {
      hide XrouteAt, UpdateFeasible, Refreshed, AllFresh, OnlyOne;
      SmoothEqOk(s, mid);
      if Chosen(s, mid, best, done, r) {
        if best >= 0 { ConsideredHeads(mid, best, done, r); }
      } else if best >= 0 && RouteMetric(mid[best].r) < RouteMetric(mid[0].r) {
        ConsideredHeads(mid, best, done, next);
        if done {
          ConsideredSlotOk(mid, best, done, next);
          ConsideredKept(mid, best, done, next);
          NoSwitchBack(mid, best, next, again, r);
          ConsideredHeads(next, 1, again, r);
        }
      }
    }

    lemma {:induction false} ConsideredHeads(s: Slot, j: nat, done: bool, r: Slot)
      requires SlotOk(s) && j < |s| && Considered(s, j, done, r)
      ensures r != [] && Wire(r[0]) == Wire(s[if done then j else 0])
      ensures KeyOf(r[0]) == KeyOf(s[if done then j else 0]) && r[0].time == s[if done then j else 0].time
           && r[0].holdTime == s[if done then j else 0].holdTime
    {
      hide RouteFeasible, XrouteAt, SlotMap, Refs;
      var seen: Slot :| Seen(s, seen, j) && done == Wants(seen, j) && r == if done then SwitchedTo(seen, j) else seen;
      SmoothEqOk(s, seen);
      SwitchedOk(seen, j);
      SeenAt(s, seen, j);
      SeenAt(s, seen, 0);
    }

    /** What route_changed leaves: nothing installed is lost, and a feasible route
        is not left alone. */
    lemma {:induction false} ChangedKept(s: Slot, j: nat, mid: Slot, better: int, next: Slot, done: bool, again: bool, r: Slot)
      requires SlotOk(s) && j < |s|
      requires if s[j].r.installed then Challenged(s, mid, better, next, done, again, r) else Considered(s, j, done, r)
      ensures Kept(s, r) && (XrouteAt(xroutes, s[0].prefix).None? && RouteFeasible(s[j]) ==> r[0].r.installed)
    {
      hide Considered, BestOf, XrouteAt, UpdateFeasible;
      if !s[j].r.installed {
        ConsideredKept(s, j, done, r);
      } else {
        SmoothEqOk(s, mid);
        SmoothKept(s, mid);
        hide SmoothEq;
        if better >= 0 && RouteMetric(mid[better].r) < RouteMetric(mid[0].r) {
          ConsideredKept(mid, better, done, next);
          if done { ConsideredHead(mid, better, done, next, again, r); }
        }
      }
    }

    /** The second consider_route of route_changed leaves a route installed. */
    lemma {:induction false} ConsideredHead(mid: Slot, better: nat, done: bool, next: Slot, again: bool, r: Slot)
      requires SlotOk(mid) && better < |mid| && Considered(mid, better, done, next) && done && |next| > 1 && Considered(next, 1, again, r)
      ensures r != [] && r[0].r.installed
    {
      ConsideredSlotOk(mid, better, done, next);
      ConsideredKept(mid, better, done, next);
      ConsideredKept(next, 1, again, r);
    }

    lemma {:induction false} ConsideredSlotOk(s: Slot, j: nat, done: bool, r: Slot)
      requires SlotOk(s) && j < |s| && Considered(s, j, done, r)
      ensures SlotOk(r)
    {
      var seen: Slot :| Seen(s, seen, j) && done == Wants(seen, j) && r == if done then SwitchedTo(seen, j) else seen;
      SmoothEqOk(s, seen);
      SwitchedOk(seen, j);
      hide Wants, SmoothEq;
    }

    /** After route_lost the prefix is served. */
    lemma {:induction false} ChosenServed(s: Slot, mid: Slot, best: int, done: bool, r: Slot)
      requires SlotOk(s) && Chosen(s, mid, best, done, r)
      ensures Kept(s, r) && ServedIn(r, XrouteAt(xroutes, s[0].prefix), sources, now)
    {
      hide Considered, XrouteAt, UpdateFeasible;
      SmoothEqOk(s, mid);
      SmoothKept(s, mid);
      if best >= 0 {
        ConsideredKept(mid, best, done, r);
        KeptTrans(s, mid, r);
      }
    }

    // --------------------------------------------------------------
    // Why selection settles
    // --------------------------------------------------------------

    ghost function HeadKey(s: Slot): Option<Key> { if s == [] then None else Some(KeyOf(s[0])) }

    /** One step of choosing at one instant: smoothed metrics are looked at, or
        consider_route switches. */
    ghost predicate SelectionStep(s: Slot, r: Slot)
      reads this`now, this`sources, this`xroutes
    {
      (SmoothEq(s, r) && FreshKept(s, r)) || exists j :: 0 <= j < |s| && Considered(s, j, true, r)
    }

    ghost predicate StepAt(run: seq<Slot>, n: nat)
      requires n + 1 < |run|
      reads this`now, this`sources, this`xroutes
    {
      SelectionStep(run[n], run[n + 1])
    }

    /** The successive states of a slot that starts with an installed route. */
    ghost predicate SelectionRun(run: seq<Slot>)
      reads this`now, this`sources, this`xroutes
    {
      && run != [] && SlotOk(run[0]) && run[0][0].r.installed
      && forall n :: 0 <= n < |run| - 1 ==> StepAt(run, n)
    }

    /** At this instant `e` cannot replace `head`, nor what will replace it. */
    ghost predicate Behind(e: Entry, head: Entry)
      reads this`now
    {
      RouteMetric(e.r) >= INFINITY
      || (RouteMetric(head.r) < INFINITY && Refreshed(e) && Refreshed(head) && head.smoothed < e.smoothed)
    }

    /** The route with this key has been left for good. */
    ghost predicate Left(s: Slot, k: Key)
      reads this`now
    {
      s != [] && s[0].r.installed && exists i :: 0 < i < |s| && KeyOf(s[i]) == k && Behind(s[i], s[0])
    }

    lemma {:induction false} SwitchedAt(s: Slot, j: nat, i: nat)
      requires 0 < i < |s| && 0 < j < |s| && i != j
      ensures SwitchedTo(s, j)[if i < j then i + 1 else i] == s[i] && SwitchedTo(s, j)[0] == SetInstalled(s[j], true)
      ensures SwitchedTo(s, j)[1] == SetInstalled(s[0], false)
    {
    }

    lemma {:induction false} LookedBehind(s: Slot, t: Slot, i: nat)
      requires SmoothEq(s, t) && FreshKept(s, t) && 0 < i < |s| && Behind(s[i], s[0])
      ensures Behind(t[i], t[0]) && KeyOf(t[i]) == KeyOf(s[i])
    {
    }

    lemma {:induction false} SwitchedBehind(s: Slot, seen: Slot, j: nat, i: nat)
      requires SlotOk(s) && j < |s| && Seen(s, seen, j) && Wants(seen, j) && s[0].r.installed
      requires 0 < i < |s| && Behind(s[i], s[0])
      ensures 0 < j && i != j && Behind(seen[i], SetInstalled(seen[j], true))
    {
      LookedBehind(s, seen, i);
      hide RouteFeasible, XrouteAt;
      assert seen[0].r.installed;
    }

    /** Once left, left for the rest of the instant. */
    lemma {:induction false} LeftStays(s: Slot, r: Slot, k: Key)
      requires SlotOk(s) && Left(s, k) && SelectionStep(s, r)
      ensures Left(r, k)
    {
      var i :| 0 < i < |s| && KeyOf(s[i]) == k && Behind(s[i], s[0]);
      if SmoothEq(s, r) && FreshKept(s, r) {
        LookedBehind(s, r, i);
        hide Behind;
      } else {
        var j :| 0 <= j < |s| && Considered(s, j, true, r);
        SwitchKeepsLeft(s, j, r, i);
      }
    }

    lemma {:induction false} SwitchKeepsLeft(s: Slot, j: nat, r: Slot, i: nat)
      requires SlotOk(s) && j < |s| && Considered(s, j, true, r) && s[0].r.installed
      requires 0 < i < |s| && Behind(s[i], s[0])
      ensures Left(r, KeyOf(s[i]))
    {
      var seen: Slot :| Seen(s, seen, j) && Wants(seen, j) && r == SwitchedTo(seen, j);
      SwitchedBehind(s, seen, j, i);
      SwitchedAt(seen, j, i);
      hide Behind, Wants, SwitchedTo, FreshKept;
      assert KeyOf(r[if i < j then i + 1 else i]) == KeyOf(s[i]);
    }

    /** A switch leaves the old head for good. */
    lemma {:induction false} SwitchLeaves(s: Slot, j: nat, r: Slot)
      requires SlotOk(s) && j < |s| && s[0].r.installed && Considered(s, j, true, r)
      ensures Left(r, KeyOf(s[0]))
    {
      var seen: Slot :| Seen(s, seen, j) && Wants(seen, j) && r == SwitchedTo(seen, j);
      hide RouteFeasible, XrouteAt;
      assert j > 0 && seen[0].r.installed;
      assert r[0] == SetInstalled(seen[j], true) && r[1] == SetInstalled(seen[0], false);
      hide SwitchedTo;
      assert Behind(r[1], r[0]) && KeyOf(r[1]) == KeyOf(s[0]);
    }

    lemma {:induction false} LeftIsNotHead(s: Slot, k: Key)
      requires SlotOk(s) && Left(s, k)
      ensures KeyOf(s[0]) != k && k in Keys(s)
    {
      var i :| 0 < i < |s| && KeyOf(s[i]) == k && Behind(s[i], s[0]);
      assert s[i] in s;
    }

    /** A step keeps the routes and that one is installed; if the installed route
        changes, the old one is left. */
    lemma {:induction false} SelectionStepKeeps(s: Slot, r: Slot)
      requires SlotOk(s) && s[0].r.installed && SelectionStep(s, r)
      ensures SlotOk(r) && r[0].r.installed && Keys(r) == Keys(s) && |r| == |s|
      ensures KeyOf(r[0]) != KeyOf(s[0]) ==> Left(r, KeyOf(s[0]))
    {
      if SmoothEq(s, r) && FreshKept(s, r) {
        SmoothEqOk(s, r);
        SmoothEqMap(s, r);
        SlotMapKeys(s);
        SlotMapKeys(r);
      } else {
        var j :| 0 <= j < |s| && Considered(s, j, true, r);
        SwitchLeaves(s, j, r);
        ConsideredSlotOk(s, j, true, r);
        ConsideredKept(s, j, true, r);
        ConsideredKeys(s, j, true, r);
      }
    }

    lemma {:induction false} ConsideredKeys(s: Slot, j: nat, done: bool, r: Slot)
      requires SlotOk(s) && j < |s| && Considered(s, j, done, r)
      ensures Keys(r) == Keys(s)
    {
      hide SlotMap, SwitchedTo, Keys, UniqueKeys, FreshKept;
      var seen: Slot :| Seen(s, seen, j) && done == Wants(seen, j) && r == if done then SwitchedTo(seen, j) else seen;
      SmoothEqOk(s, seen);
      SmoothEqMap(s, seen);
      SlotMapKeys(s);
      SlotMapKeys(seen);
      SlotMapKeys(r);
      SlotMapAt(seen, 0);
      SlotMapAt(seen, j);
      SwitchedOk(seen, j);
    }

    lemma {:induction false} SelectionRunAt(run: seq<Slot>, n: nat)
      requires SelectionRun(run) && n < |run|
      ensures SlotOk(run[n]) && run[n][0].r.installed && Keys(run[n]) == Keys(run[0]) && |run[n]| == |run[0]|
    {
      if n > 0 {
        SelectionRunAt(run, n - 1);
        assert StepAt(run, n - 1);
        SelectionStepKeeps(run[n - 1], run[n]);
      }
    }

    lemma {:induction false} LeftFrom(run: seq<Slot>, a: nat, b: nat)
      requires SelectionRun(run) && a < b < |run| && HeadKey(run[a + 1]) != HeadKey(run[a])
      ensures run[a] != [] && Left(run[b], KeyOf(run[a][0]))
    {
      SelectionRunAt(run, a);
      assert StepAt(run, b - 1);
      SelectionRunAt(run, b - 1);
      hide SelectionStep, Left;
      if b == a + 1 {
        SelectionStepKeeps(run[a], run[b]);
      } else {
        LeftFrom(run, a, b - 1);
        LeftStays(run[b - 1], run[b], KeyOf(run[a][0]));
      }
    }

    /** At one instant selection never returns to a route it has left. */
    lemma {:induction false} SelectionSettles(run: seq<Slot>, a: nat, b: nat)
      requires SelectionRun(run) && a < b < |run| && HeadKey(run[a + 1]) != HeadKey(run[a])
      ensures HeadKey(run[b]) != HeadKey(run[a])
    {
      LeftFrom(run, a, b);
      SelectionRunAt(run, b);
      LeftIsNotHead(run[b], KeyOf(run[a][0]));
    }

    /** How often the installed route changes. */
    ghost function Changes(run: seq<Slot>): nat
    {
      if |run| < 2 then 0
      else
        var n := |run| - 1;
        Changes(run[..n]) + if HeadKey(run[n]) != HeadKey(run[n - 1]) then 1 else 0
    }

    ghost function LeftKeys(s: Slot): set<Key>
      reads this`now
    {
      set k | k in Keys(s) && Left(s, k)
    }

    lemma {:induction false} RunPrefix(run: seq<Slot>, n: nat)
      requires SelectionRun(run) && 0 < n <= |run|
      ensures SelectionRun(run[..n])
    {
      hide SelectionStep;
      forall m | 0 <= m < n - 1 ensures StepAt(run[..n], m) { assert StepAt(run, m); }
    }

    lemma {:induction false} ChangesBound(run: seq<Slot>)
      requires SelectionRun(run)
      ensures Changes(run) <= |LeftKeys(run[|run| - 1])|
      decreases |run|
    {
      if |run| > 1 {
        var n := |run| - 1;
        RunPrefix(run, n);
        ChangesBound(run[..n]);
        SelectionRunAt(run, n - 1);
        assert StepAt(run, n - 1);
        hide SelectionRun, SelectionStep, SlotOk, LeftKeys;
        LeftGrows(run[n - 1], run[n]);
      }
    }

    lemma {:induction false} LeftGrows(s: Slot, r: Slot)
      requires SlotOk(s) && s[0].r.installed && SelectionStep(s, r)
      ensures |LeftKeys(s)| + (if HeadKey(r) != HeadKey(s) then 1 else 0) <= |LeftKeys(r)|
    {
      SelectionStepKeeps(s, r);
      forall k | k in LeftKeys(s) ensures k in LeftKeys(r) { LeftStays(s, r, k); }
      if Left(s, KeyOf(s[0])) { LeftIsNotHead(s, KeyOf(s[0])); }
      hide SelectionStep, Left;
      assert s[0] in s;
      SubsetSize(LeftKeys(s) + if HeadKey(r) != HeadKey(s) then {KeyOf(s[0])} else {}, LeftKeys(r));
    }

    lemma {:induction false} SubsetSize(x: set<Key>, y: set<Key>)
      requires x <= y
      ensures |x| <= |y|
    {
      assert y == x + (y - x);
    }

    lemma {:induction false} KeysBound(s: Slot)
      ensures |Keys(s)| <= |s|
    {
      if s != [] {
        KeysBound(s[1..]);
        assert s == [s[0]] + s[1..];
        KeysConcat([s[0]], s[1..]);
        KeysSingle(s[0]);
      }
    }

    /** So at one instant the installed route changes fewer times than there are
        routes. */
    lemma {:induction false} FewChanges(run: seq<Slot>)
      requires SelectionRun(run)
      ensures Changes(run) < |run[0]|
    {
      var last := run[|run| - 1];
      ChangesBound(run);
      SelectionRunAt(run, |run| - 1);
      if Left(last, KeyOf(last[0])) { LeftIsNotHead(last, KeyOf(last[0])); }
      assert last[0] in last;
      SubsetSize(LeftKeys(last) + {KeyOf(last[0])}, Keys(last));
      KeysBound(last);
    }

    lemma {:induction false} ConsideredIsStep(s: Slot, j: nat, done: bool, r: Slot)
      requires j < |s| && Considered(s, j, done, r)
      ensures SelectionStep(s, r)
    {
    }

    lemma {:induction false} RunGrows(run: seq<Slot>, r: Slot)
      requires SelectionRun(run) && SelectionStep(run[|run| - 1], r)
      ensures SelectionRun(run + [r])
    {
      var ext := run + [r];
      hide SelectionStep;
      forall n | 0 <= n < |ext| - 1 ensures StepAt(ext, n) {
        if n < |run| - 1 { assert StepAt(run, n); }
      }
    }

    /** route_changed on the installed route is such a run. */
    lemma {:induction false} ChangedIsRun(s: Slot, mid: Slot, better: int, next: Slot, done: bool, again: bool, r: Slot)
      returns (run: seq<Slot>)
      requires SlotOk(s) && s[0].r.installed && Challenged(s, mid, better, next, done, again, r)
      ensures SelectionRun(run) && run[0] == s && run[|run| - 1] == r
    {
      hide SmoothEq, FreshKept, BestOf, Considered, SlotOk;
      run := [s];
      assert SelectionStep(s, mid);
      RunGrows(run, mid);
      run := run + [mid];
      if better >= 0 && RouteMetric(mid[better].r) < RouteMetric(mid[0].r) {
        ConsideredIsStep(mid, better, done, next);
        RunGrows(run, next);
        run := run + [next];
        if done {
          ConsideredIsStep(next, 1, again, r);
          RunGrows(run, r);
          run := run + [r];
        }
      }
    }

    /** The second consider_route of route_changed never switches back. */
    lemma {:induction false} NoSwitchBack(s: Slot, j: nat, next: Slot, again: bool, r: Slot)
      requires SlotOk(s) && j < |s| && s[0].r.installed && Considered(s, j, true, next)
      requires |next| > 1 && Considered(next, 1, again, r)
      ensures !again && KeyOf(r[0]) == KeyOf(s[j])
    {
      SwitchLowers(s, j, next);
      ConsideredSlotOk(s, j, true, next);
      SwitchLeaves(s, j, next);
      ConsideredKept(s, j, true, next);
    }

    // --------------------------------------------------------------
    // Why a better route is taken
    // --------------------------------------------------------------

    /** consider_route on a route that may be installed, beside an installed one: it is
        the head afterwards exactly if its metric is finite and the head's is not, or
        its metric is no worse and its smoothed metric, brought up to date, lower. */
    lemma {:induction false} ConsideredExactly(s: Slot, j: nat, done: bool, r: Slot) returns (a: nat, b: nat)
      requires SlotOk(s) && 0 < j < |s| && s[0].r.installed && Considered(s, j, done, r)
      requires RouteFeasible(s[j]) && XrouteAt(xroutes, s[j].prefix).None?
      ensures a < |r| && b < |r| && KeyOf(r[a]) == KeyOf(s[0]) && KeyOf(r[b]) == KeyOf(s[j])
      ensures RouteMetric(r[a].r) == RouteMetric(s[0].r) && RouteMetric(r[b].r) == RouteMetric(s[j].r)
      ensures RouteMetric(s[j].r) <= RouteMetric(s[0].r) < INFINITY ==> Refreshed(r[a]) && Refreshed(r[b])
      ensures var m, n := RouteMetric(s[0].r), RouteMetric(s[j].r);
              KeyOf(r[0]) == KeyOf(s[j])
              <==> n < INFINITY && (m >= INFINITY || (n <= m && r[b].smoothed < r[a].smoothed))
    {
      hide RouteFeasible, XrouteAt, SwitchedTo;
      var seen: Slot :| Seen(s, seen, j) && done == Wants(seen, j) && r == if done then SwitchedTo(seen, j) else seen;
      SeenFields(s, seen, j);
      SmoothEqOk(s, seen);
      if done {
        a, b := 1, 0;
        SwitchedHeads(seen, j);
      } else {
        a, b := 0, j;
      }
      assert seen[0].r == s[0].r && KeyOf(seen[0]) == KeyOf(s[0]) && KeyOf(seen[j]) == KeyOf(s[j]);
      assert KeyOf(s[0]) != KeyOf(s[j]);
    }

    lemma {:induction false} SwitchedHeads(s: Slot, j: nat)
      requires 0 < j < |s|
      ensures var t := SwitchedTo(s, j);
              |t| == |s| && t[0] == SetInstalled(s[j], true) && t[1] == SetInstalled(s[0], false)
    {
    }

    /** A route that is better than the head by both metrics. */
    ghost predicate Rival(e: Entry, head: Entry) { RouteMetric(e.r) < RouteMetric(head.r) && e.smoothed < head.smoothed }

    ghost predicate HasRival(s: Slot)
      reads this`now, this`sources
    {
      s != [] && exists k :: 0 <= k < |s| && Acceptable(s[k], true, None) && Rival(s[k], s[0])
    }

    /** `e` is `d` with another installation and smoothing, but not if that was up to
        date. */
    ghost predicate From(d: Entry, e: Entry)
      reads this`now
    {
      && e == d.(r := d.r.(installed := e.r.installed), smoothed := e.smoothed, smoothedTime := e.smoothedTime)
      && (Refreshed(d) ==> Refreshed(e) && e.smoothed == d.smoothed)
    }

    lemma {:induction false} ConsideredFrom(s: Slot, j: nat, done: bool, r: Slot, e: Entry) returns (d: Entry)
      requires SlotOk(s) && j < |s| && Considered(s, j, done, r) && e in r
      ensures d in s && From(d, e)
    {
      hide RouteFeasible, XrouteAt, SlotMap, Refs;
      var seen: Slot :| Seen(s, seen, j) && done == Wants(seen, j) && r == if done then SwitchedTo(seen, j) else seen;
      SmoothEqOk(s, seen);
      SwitchedOk(seen, j);
      hide SwitchedTo;
      if !done {
        var k :| 0 <= k < |seen| && seen[k] == e;
        assert SetInstalled(seen[k], e.r.installed) == e;
      }
      var i :| 0 <= i < |seen| && SetInstalled(seen[i], e.r.installed) == e;
      d := s[i];
      SeenAt(s, seen, i);
      InstalledFrom(d, seen[i], e);
    }

    lemma {:induction false} InstalledFrom(d: Entry, c: Entry, e: Entry)
      requires e == SetInstalled(c, e.r.installed) && (Refreshed(d) ==> c == d)
      requires c == d.(smoothed := c.smoothed, smoothedTime := c.smoothedTime)
      ensures From(d, e)
    {
      assert e.r == d.r.(installed := e.r.installed);
      assert RouteMetric(e.r) == RouteMetric(d.r);
    }

    lemma {:induction false} SeenAt(s: Slot, seen: Slot, i: nat)
      requires SmoothEq(s, seen) && FreshKept(s, seen) && i < |s|
      ensures seen[i] == s[i].(smoothed := seen[i].smoothed, smoothedTime := seen[i].smoothedTime)
      ensures Refreshed(s[i]) ==> seen[i] == s[i]
    {
    }

    /** `k` is the key of the route that was found best, of smoothed metric `v`: the
        other acceptable routes are no better, or if not `more` there are none. */
    ghost predicate Led(s: Slot, k: Key, v: int, more: bool)
      reads this`now, this`sources
    {
      && (forall e :: e in s && Acceptable(e, true, None) && KeyOf(e) != k ==> more && Refreshed(e) && e.smoothed >= v)
      && (more ==> forall e :: e in s && KeyOf(e) == k ==> Refreshed(e) && e.smoothed == v)
    }

    lemma {:induction false} LedFrom(s: Slot, j: nat, done: bool, r: Slot, k: Key, v: int, more: bool)
      requires SlotOk(s) && j < |s| && Considered(s, j, done, r) && Led(s, k, v, more)
      ensures Led(r, k, v, more)
    {
      forall e | e in r
        ensures Acceptable(e, true, None) && KeyOf(e) != k ==> more && Refreshed(e) && e.smoothed >= v
        ensures more && KeyOf(e) == k ==> Refreshed(e) && e.smoothed == v
      {
        var d := ConsideredFrom(s, j, done, r, e);
        hide Considered, Refreshed;
      }
    }

    lemma {:induction false} LedAtFirst(s: Slot, best: nat) returns (more: bool)
      requires SlotOk(s) && best < |s| && BestOf(s, |s|, best, true, None)
      requires AllFresh(s, |s|, true, None) || OnlyOne(s, |s|, best, true, None)
      ensures Led(s, KeyOf(s[best]), s[best].smoothed, more)
    {
      hide Refreshed, Acceptable;
      more := AllFresh(s, |s|, true, None);
      forall e | e in s
        ensures Acceptable(e, true, None) && KeyOf(e) != KeyOf(s[best]) ==> more && Refreshed(e) && e.smoothed >= s[best].smoothed
        ensures more && KeyOf(e) == KeyOf(s[best]) ==> Refreshed(e) && e.smoothed == s[best].smoothed
      {
        var i :| 0 <= i < |s| && s[i] == e;
      }
    }

    lemma {:induction false} NoRival(s: Slot, k: Key, v: int, more: bool, b: nat)
      requires SlotOk(s) && b < |s| && KeyOf(s[b]) == k && Led(s, k, v, more) && s[0].smoothed <= s[b].smoothed
      ensures !HasRival(s)
    {
      hide Acceptable, Refreshed;
      forall i | 0 <= i < |s| && Acceptable(s[i], true, None) ensures !Rival(s[i], s[0]) {
        assert s[i] in s && s[b] in s;
      }
    }

    /** After route_changed on the installed route an acceptable route that is better by
        both metrics is left exactly if there was one before and the best route by its
        smoothed metric, the only one that is considered, was not such a route. */
    lemma {:induction false} RivalsLeft(s: Slot, mid: Slot, better: int, next: Slot, done: bool, again: bool, r: Slot)
      requires SlotOk(s) && s[0].r.installed && XrouteAt(xroutes, s[0].prefix).None?
      requires Challenged(s, mid, better, next, done, again, r)
      ensures HasRival(r) <==> HasRival(mid) && better >= 0 && RouteMetric(mid[better].r) >= RouteMetric(mid[0].r)
    {
      hide Considered, XrouteAt, Refreshed, HasRival, AllFresh, OnlyOne;
      SmoothEqOk(s, mid);
      if better < 0 {
        NoneAcceptable(mid);
      } else if RouteMetric(mid[better].r) < RouteMetric(mid[0].r) {
        var more := LedAtFirst(mid, better);
        var k, v := KeyOf(mid[better]), mid[better].smoothed;
        LedFrom(mid, better, done, next, k, v, more);
        ConsideredSlotOk(mid, better, done, next);
        var a, b := ConsideredExactly(mid, better, done, next);
        if done {
          ConsideredDone(mid, better, next);
          NoSwitchBack(mid, better, next, again, r);
          LedFrom(next, 1, again, r, k, v, more);
          ConsideredSlotOk(next, 1, again, r);
          NoRival(r, k, v, more, 0);
        } else {
          ConsideredNotDone(mid, better, next);
          NoRival(next, k, v, more, b);
        }
      }
    }

    lemma {:induction false} NoneAcceptable(s: Slot)
      requires BestOf(s, |s|, -1, true, None)
      ensures !HasRival(s)
    {
    }

    lemma {:induction false} ConsideredDone(s: Slot, j: nat, r: Slot)
      requires SlotOk(s) && j < |s| && s[0].r.installed && Considered(s, j, true, r)
      ensures |r| > 1 && KeyOf(r[0]) == KeyOf(s[j])
    {
      SwitchLowers(s, j, r);
    }

    lemma {:induction false} ConsideredNotDone(s: Slot, j: nat, r: Slot)
      requires SlotOk(s) && j < |s| && Considered(s, j, false, r)
      ensures |r| == |s| && KeyOf(r[0]) == KeyOf(s[0])
    {
      hide Wants;
      var seen: Slot :| Seen(s, seen, j) && false == Wants(seen, j) && r == seen;
    }

    /** With up-to-date metrics (metric, smoothed) of (100, 100) installed, (100, 50) and
        (90, 60), route_changed looks at the second only and keeps the first. */
    lemma {:induction false} RivalOverlooked(p: Prefix) returns (s: Slot)
      requires halfLife > 0 && SourceKey(2, p) !in sources
      ensures SlotOk(s) && s[0].r.installed && Challenged(s, s, 1, s, false, false, s) && HasRival(s)
      ensures forall k :: 0 <= k < |s| ==> Refreshed(s[k])
    {
      var h := Entry(p, Neighbour(5, 1), 7, Route(2, 0, 10, 90, 0, true), now, 15, 100, now);
      var b := Entry(p, Neighbour(6, 1), 7, Route(2, 0, 10, 90, 0, false), now, 15, 50, now);
      var c := Entry(p, Neighbour(7, 1), 7, Route(2, 0, 10, 80, 0, false), now, 15, 60, now);
      s := [h, b, c];
      assert Acceptable(s[2], true, None) && Rival(s[2], s[0]);
      assert RouteMetric(h.r) == 100 && RouteMetric(b.r) == 100;
    }

    // --------------------------------------------------------------
    // Removing routes
    // --------------------------------------------------------------

    /** Uninstalling as a step of the protocol. */
    method UninstallAt(i: nat)
      requires Core() && i < |slots|
      modifies this`slots, this`kernel
      ensures Core() && Rearranged(i) && slots == old(slots)[i := Uninstalled(old(slots[i]))]
      ensures OthersSame(slots[i][0].prefix)
    {
      ghost var s, x := slots[i], View(slots[i][0].prefix);
      PrefixOkAt(slots, i, kernel, xroutes, sources, id, kernelMetric);
      SlotMapAt(s, 0);
      SlotMapUpdate(s, 0, Uninstalled(s)[0]);
      UpdateShuffled(s, 0, Uninstalled(s)[0]);
      hide Shuffled, SlotMap, Reaches, PrefixOk;
      ReachesByStep(x, now, Uninstall(KeyOf(s[0])));
      UninstallRoute(i);
      hide AllOk;
      ReplaceSlot(old(slots), i, slots[i]);
      SlotForAt(slots, i);
    }

    /** Unlinking a route that is not installed. */
    method Unlink(i: nat, j: nat)
      requires Core() && i < |slots| && j < |slots[i]| && !slots[i][j].r.installed
      modifies this`slots
      ensures Core() && Flushed(old(slots), slots, i, j)
      ensures OnlySlot(old(slots), slots, old(slots[i][0].prefix), Without(old(slots[i]), j))
      ensures Reaches(old(View(slots[i][0].prefix)), now, View(old(slots[i][0].prefix)))
    {
      ghost var s, x := slots[i], View(slots[i][0].prefix);
      PrefixOkAt(slots, i, kernel, xroutes, sources, id, kernelMetric);
      FlushKeepsAll(slots, i, j, kernel, xroutes, sources, id, kernelMetric);
      SlotMapAt(s, j);
      SlotMapWithout(s, j);
      hide SlotMap, Reaches, PrefixOk, Flushed;
      ReachesByStep(x, now, Flush(KeyOf(s[j])));
      slots := FlushedTable(slots, i, j);
    }

    /** release_source: the reference that was being moved is dropped, and the
        count was positive. */
    method ReleaseSource(k: SourceKey)
      requires Core() && Counts(slots, sources, Some(k)) && UniqueXroutes(xroutes) && k in sources
      modifies this`sources
      ensures old(sources[k].count) > 0 && sources == Release(old(sources), k)
      ensures Valid() && forall p :: View(p) == old(View(p)) && Served(p) == old(Served(p))
    {
      hide SlotFor, Refs, XrouteAt, Sorted, SlotOk, SourcesAt, UniqueXroutes;
      sources := sources[k := sources[k].(count := sources[k].count - 1)];
      forall p ensures SourcesAt(sources, p) == SourcesAt(old(sources), p) { SourcesAtSame(sources, old(sources), p); }
      assert Core() by {
        hide FibFor;
        assert forall q :: PrefixOk(SlotFor(slots, q), q, Lookup(kernel, q), XrouteAt(xroutes, q), old(sources), id, kernelMetric);
      }
    }

    /** Everything about other prefixes is as it was. */
    twostate predicate OthersSame(p: Prefix)
      requires SlotsOk(old(slots)) && SlotsOk(slots)
      reads this
    {
      forall q :: q != p ==> View(q) == old(View(q)) && Served(q) == old(Served(q))
    }

    /** The first half of flush_route: the route is uninstalled and unlinked, and
        its source is still held. */
    method Detach(i: nat, j: nat) returns (lost: bool)
      requires Valid() && i < |slots| && j < |slots[i]|
      modifies this`slots, this`kernel
      ensures Core() && Flushed(old(slots), slots, i, j) && lost == old(slots[i][j].r.installed)
      ensures !lost ==> SlotFor(slots, old(slots[i][0].prefix)) == Without(old(slots[i]), j)
      ensures Counts(slots, sources, Some(SourceKey(old(slots[i][j].r.id), old(slots[i][0].prefix))))
      ensures Reaches(old(View(slots[i][0].prefix)), now, View(old(slots[i][0].prefix)))
    {
      hide Reaches, Shuffled, Counts, Flushed, AllOk, View, SmoothEq, Served;
      CoreTable();
      ghost var t, p, x := slots, slots[i][0].prefix, View(slots[i][0].prefix);
      lost := slots[i][j].r.installed;
      if lost {
        UninstallAt(i);
      } else {
        SeenItself(slots[i], j);
        SmoothKeepsView(i);
        ReachesItself(x, now);
      }
      CoreTable();
      ghost var t1, x1 := slots, View(p);
      assert Counts(t1, sources, None) by { CountsMoved(t, t1, i, sources, None); }
      Unlink(i, j);
      CoreTable();
      CountsFlushed(t1, slots, i, j, sources);
      MovedFlushed(t, t1, slots, i, j);
      ReachesTrans(x, now, x1, View(p));
    }

    /** route_lost, with what it leaves. */
    method LostServed(p: Prefix) returns (ghost i: int)
      requires Core()
      modifies this`slots, this`kernel
      ensures Core() && i < |slots| && Served(p)
      ensures i < 0 ==> slots == old(slots) && kernel == old(kernel)
      ensures i >= 0 ==> slots[i][0].prefix == p && Rearranged(i)
    {
      hide AllOk, Reaches, Shuffled, SlotMap, XrouteAt, SourcesAt, Chosen, UpdateFeasible, View;
      CoreTable();
      ghost var t := slots;
      ghost var at, mid, best, done := RouteLost(p);
      i := at;
      CoreTable();
      if at >= 0 {
        ChosenServed(t[at], mid, best, done, slots[at]);
        SlotForAt(slots, at);
      }
    }

    /** What a flush needs of the rearrangement that follows it. */
    lemma {:induction false} AfterFlush(t: Table, u: Table, v: Table, i: nat, j: nat, at: nat, k: SourceKey)
      requires TableOk(t) && TableOk(u) && TableOk(v) && Flushed(t, u, i, j) && Moved(u, v, at)
      requires at < |u| && u[at][0].prefix == t[i][0].prefix && Counts(u, sources, Some(k))
      ensures Flushed(t, v, i, j) && Counts(v, sources, Some(k))
    {
      hide Counts, Shuffled, Wires;
      FlushedIndex(t, u, i, j, at);
      FlushedMoved(t, u, v, i, j);
      CountsMoved(u, v, i, sources, Some(k));
    }

    /** The route is gone and replaced, and its source still held. */
    method Replace(i: nat, j: nat)
      requires Valid() && i < |slots| && j < |slots[i]|
      modifies this`slots, this`kernel
      ensures Core() && Flushed(old(slots), slots, i, j) && OthersSame(old(slots[i][0].prefix))
      ensures Counts(slots, sources, Some(SourceKey(old(slots[i][j].r.id), old(slots[i][0].prefix))))
      ensures Reaches(old(View(slots[i][0].prefix)), now, View(old(slots[i][0].prefix)))
      ensures old(Served(slots[i][0].prefix)) ==> Served(old(slots[i][0].prefix))
    {
      hide AllOk, Reaches, Counts, ServedIn, SlotMap, XrouteAt, SourcesAt, UniqueXroutes, Wires, Sorted, Shuffled;
      CoreTable();
      var p, k := slots[i][0].prefix, SourceKey(slots[i][j].r.id, slots[i][0].prefix);
      SlotForAt(slots, i);
      ghost var t, x, was := slots, View(p), Served(p);
      var lost := Detach(i, j);
      CoreTable();
      if lost {
        ghost var t1, x1 := slots, View(p);
        ghost var at := LostServed(p);
        CoreTable();
        if at >= 0 {
          AfterFlush(t, t1, slots, i, j, at, k);
          ReachesTrans(x, now, x1, View(p));
        }
      } else if was {
        ServedWithout(t[i], j, XrouteAt(xroutes, p), sources, now);
      }
    }

    /** flush_route: the route is unlinked, another one takes its place in the
        kernel if it was installed, and its source loses one reference. */
    method FlushRoute(i: nat, j: nat)
      requires Valid() && i < |slots| && j < |slots[i]|
      modifies this`slots, this`kernel, this`sources
      ensures Valid() && Flushed(old(slots), slots, i, j) && OthersSame(old(slots[i][0].prefix))
      ensures Reaches(old(View(slots[i][0].prefix)), now, View(old(slots[i][0].prefix)))
      ensures old(Served(slots[i][0].prefix)) ==> Served(old(slots[i][0].prefix))
    {
      hide AllOk, Reaches, Counts, UniqueXroutes, Sorted, View, Served, Flushed;
      CoreTable();
      var k := SourceKey(slots[i][j].r.id, slots[i][0].prefix);
      RouteHasSource(i, j);
      Replace(i, j);
      CoreTable();
      ReleaseSource(k);
      CoreTable();
    }

    /** The first route of slot `i` that matches, or -1. */
    method FindMatch(i: nat, m: Match) returns (j: int)
      requires i < |slots|
      ensures j >= 0 ==> j < |slots[i]| && Matches(m, slots[i][j].neigh, slots[i][j].nexthop)
      ensures j < 0 ==> NoMatch(m, slots[i])
    {
      j := 0;
      while j < |slots[i]|
        invariant 0 <= j <= |slots[i]|
        invariant forall k :: 0 <= k < j ==> !Matches(m, slots[i][k].neigh, slots[i][k].nexthop)
      {
        if Matches(m, slots[i][j].neigh, slots[i][j].nexthop) { return; }
        j := j + 1;
      }
      return -1;
    }

    /** flush_neighbour_routes and flush_interface_routes: whatever is installed
        and reordered on the way, the walk ends and exactly the matching routes
        are gone. */
    method FlushMatching(m: Match)
      requires Valid()
      modifies this`slots, this`kernel, this`sources
      ensures Valid()
      ensures forall q :: Wires(SlotFor(slots, q)) == Unmatched(m, Wires(SlotFor(old(slots), q)))
      ensures forall q :: Reaches(old(View(q)), now, View(q)) && (old(Served(q)) ==> Served(q))
    {
      hide Reaches, Counts, SlotFor, SlotMap, AllOk, Flushing, NoMatch, MatchFree, XrouteAt, SourcesAt, Sorted, SlotOk, Served, UniqueXroutes, Flushed, Wires, View;
      CoreTable();
      ghost var t := slots;
      forall q ensures Reaches(View(q), now, View(q)) { ReachesItself(View(q), now); }
      FlushingStart(t, m);
      MatchFreeNone(m, t);
      var i := 0;
      while i < |slots|
        invariant Valid() && TableOk(slots) && i <= |slots| && Flushing(t, slots, m)
        invariant MatchFree(m, slots, i)
        invariant forall q :: Reaches(old(View(q)), now, View(q)) && (old(Served(q)) ==> Served(q))
        decreases Total(slots), |slots| - i
      {
        var j := FindMatch(i, m);
        if j < 0 {
          MatchFreeMore(m, slots, i);
          i := i + 1;
        } else {
          ghost var u := slots;
          label L:
          FlushOne(i, j);
          MatchFreeSame(m, u, slots, i);
          FlushingOn(t, u, slots, m, i, j);
          forall q ensures Reaches(old(View(q)), now, View(q)) {
            ReachesTrans(old(View(q)), now, old@L(View(q)), View(q));
          }
        }
      }
      FlushingDone(t, slots, m);
    }

    static lemma {:induction false} FlushingStart(t: Table, m: Match)
      requires TableOk(t)
      ensures Flushing(t, t, m)
    {
    }

    /** One flush of the walk. */
    method FlushOne(i: nat, j: nat)
      requires Valid() && i < |slots| && j < |slots[i]|
      modifies this`slots, this`kernel, this`sources
      ensures Valid() && TableOk(slots) && i <= |slots| && Flushed(old(slots), slots, i, j)
      ensures Total(slots) < Total(old(slots)) && slots[..i] == old(slots)[..i]
      ensures forall q :: Reaches(old(View(q)), now, View(q)) && (old(Served(q)) ==> Served(q))
    {
      hide Reaches, Counts, AllOk, Served, View, UniqueXroutes, Wires, SlotFor;
      CoreTable();
      ghost var u := slots;
      forall q ensures Reaches(View(q), now, View(q)) { ReachesItself(View(q), now); }
      FlushRoute(i, j);
      CoreTable();
      FlushedTotal(u, slots, i, j);
    }

    method FlushHead(i: nat)
      requires Valid() && i < |slots|
      modifies this`slots, this`kernel, this`sources
      ensures Valid() && Flushed(old(slots), slots, i, 0)
      ensures forall q :: Reaches(old(View(q)), now, View(q))
    {
      hide Reaches, Counts, AllOk, Flushed, Shuffled, UniqueXroutes, View, SlotFor, Served, Sorted;
      CoreTable();
      ghost var t, p := slots, slots[i][0].prefix;
      forall q ensures Reaches(View(q), now, View(q)) { ReachesItself(View(q), now); }
      UninstallAt(i);
      CoreTable();
      CountsMoved(t, slots, i, sources, None);
      ghost var u, x := slots, View(p);
      FlushRoute(i, 0);
      MovedFlushed(t, u, slots, i, 0);
      ReachesTrans(old(View(p)), now, x, View(p));
    }

    /** flush_all_routes: nothing is left, in the table or in the kernel, and
        every source has been released. */
    method FlushAllRoutes()
      requires Valid()
      modifies this`slots, this`kernel, this`sources
      ensures Valid() && slots == [] && kernel == map[] && forall sk :: sk in sources ==> sources[sk].count == 0
      ensures forall q :: Reaches(old(View(q)), now, View(q))
    {
      hide Reaches, Counts, SlotFor, SlotMap, XrouteAt, SourcesAt, Sorted, SlotOk, FibFor, Wires, View, AllOk, UniqueXroutes;
      CoreTable();
      forall q ensures Reaches(View(q), now, View(q)) { ReachesItself(View(q), now); }
      var i := |slots| - 1;
      while i >= 0
        invariant Valid() && TableOk(slots) && |slots| == i + 1
        invariant forall q :: Reaches(old(View(q)), now, View(q))
      {
        while i < |slots|
          invariant Valid() && TableOk(slots) && i <= |slots| <= i + 1
          invariant forall q :: Reaches(old(View(q)), now, View(q))
          decreases Total(slots)
        {
          ghost var t := slots;
          label L:
          FlushHead(i);
          CoreTable();
          FlushedTotal(t, slots, i, 0);
          forall q ensures Reaches(old(View(q)), now, View(q)) {
            ReachesTrans(old(View(q)), now, old@L(View(q)), View(q));
          }
        }
        i := i - 1;
      }
      EmptyTable();
    }

    lemma {:induction false} EmptyTable()
      requires Valid() && slots == []
      ensures kernel == map[] && forall sk :: sk in sources ==> sources[sk].count == 0
    {
      forall q ensures SlotFor(slots, q) == [] { NoSlotFor(slots, q); }
      forall p ensures p !in kernel {
        assert PrefixOk(SlotFor(slots, p), p, Lookup(kernel, p), XrouteAt(xroutes, p), sources, id, kernelMetric);
      }
    }

    // --------------------------------------------------------------
    // Changing metrics
    // --------------------------------------------------------------

    static function Remetered(e: Entry, refmetric: U16, cost: U16, add: U16, sm: U16, now: int): Entry {
      e.(r := e.r.(refmetric := refmetric, cost := cost, addMetric := add), smoothed := sm, smoothedTime := now)
    }

    /** change_route_metric: the kernel follows when the route is installed, and
        the smoothed metric is brought up to date with the old metric first. */
    method ChangeRouteMetric(i: nat, j: nat, refmetric: U16, cost: U16, add: U16) returns (sm: U16)
      requires Core() && i < |slots| && j < |slots[i]|
      modifies this`slots, this`kernel
      ensures Core()
      ensures slots == old(slots)[i := old(slots[i])[j := Remetered(old(slots[i][j]), refmetric, cost, add, sm, now)]]
      ensures if halfLife == 0 then sm == RouteMetric(slots[i][j].r)
              else Between(old(RouteMetric(slots[i][j].r)), old(slots[i][j].smoothed), sm)
    {
      ghost var t, k := slots, kernel;
      var e := slots[i][j];
      PrefixOkAt(slots, i, kernel, xroutes, sources, id, kernelMetric);
      var r := e.r.(refmetric := refmetric, cost := cost, addMetric := add);
      var from := MetricToKernel(RouteMetric(e.r), kernelMetric);
      var to := MetricToKernel(RouteMetric(r), kernelMetric);
      if e.r.installed && from != to {
        KernelModify(e.prefix, FibEntryOf(e.nexthop, e.neigh.ifindex, from), FibEntryOf(e.nexthop, e.neigh.ifindex, to));
      }
      var time: int;
      ghost var fits;
      sm, time, fits := RouteSmoothedMetric(RouteMetric(e.r), e.smoothed, e.smoothedTime, now, halfLife);
      if halfLife == 0 { sm := RouteMetric(r); }
      var s := slots[i][j := Remetered(e, refmetric, cost, add, sm, now)];
      UpdateSlotOk(slots[i], j, s[j]);
      hide TableOk, SlotMap;
      ReplaceKeepsAll(t, i, s, k, kernel, xroutes, sources, id, kernelMetric);
      slots := slots[i := s];
    }

    /** retract_route; its callers may set the seqno first. */
    method RetractRoute(i: nat, j: nat, seqno: U16)
      requires Core() && i < |slots| && j < |slots[i]|
      modifies this`slots, this`kernel
      ensures Core() && AlteredAt(old(slots), slots, i) && j < |slots[i]| && slots[i] == old(slots[i])[j := slots[i][j]]
      ensures Reaches(old(View(slots[i][0].prefix)), now, View(slots[i][0].prefix))
      ensures slots[i][j] == Remetered(old(slots[i][j]).(r := old(slots[i][j]).r.(seqno := seqno)), INFINITY, INFINITY, 0, slots[i][j].smoothed, now)
    {
      hide AllOk, Altered, Reaches, SlotFor, UpdateFeasible, FibFor, XrouteAt;
      CoreTable();
      ghost var x := View(slots[i][0].prefix);
      var d := slots[i][j];
      PrefixOkAt(slots, i, kernel, xroutes, sources, id, kernelMetric);
      var e := d.(r := d.r.(seqno := seqno));
      SetFields(i, j, e);
      var sm := ChangeRouteMetric(i, j, INFINITY, INFINITY, 0);
      ghost var f := Remetered(e, INFINITY, INFINITY, 0, sm, now);
      assert old(slots[i])[j := e][j := f] == old(slots[i])[j := f];
      RouteUpdated(old(slots), slots, i, j, f);
      ReachesByStep(x, now, Retract(KeyOf(f), seqno));
    }

    /** Assigning fields of a route that neither the kernel nor the order of the
        table depends on. */
    method SetFields(i: nat, j: nat, e: Entry)
      requires Core() && i < |slots| && j < |slots[i]|
      requires LinkOf(e) == LinkOf(slots[i][j]) && e.prefix == slots[i][j].prefix && e.r.installed == slots[i][j].r.installed
      requires RouteMetric(e.r) == RouteMetric(slots[i][j].r) && SourceKey(e.r.id, e.prefix) in sources && e.r.id != id
      modifies this`slots
      ensures Core() && slots == old(slots)[i := old(slots[i])[j := e]]
    {
      PrefixOkAt(slots, i, kernel, xroutes, sources, id, kernelMetric);
      UpdateSlotOk(slots[i], j, e);
      ReplaceKeepsAll(slots, i, slots[i][j := e], kernel, kernel, xroutes, sources, id, kernelMetric);
      slots := slots[i := slots[i][j := e]];
    }

    /** change_route_metric when only the link's cost or the filter changed. */
    method Recosted(i: nat, j: nat, cost: U16, add: U16)
      requires Core() && i < |slots| && j < |slots[i]|
      modifies this`slots, this`kernel
      ensures Core() && AlteredAt(old(slots), slots, i) && j < |slots[i]| && slots[i] == old(slots[i])[j := slots[i][j]]
      ensures slots[i][j] == Remetered(old(slots[i][j]), old(slots[i][j]).r.refmetric, cost, add, slots[i][j].smoothed, now)
      ensures RecostedView(old(View(slots[i][0].prefix)), KeyOf(slots[i][j]), cost, add, View(slots[i][0].prefix))
    {
      ghost var e := slots[i][j];
      var sm := ChangeRouteMetric(i, j, slots[i][j].r.refmetric, cost, add);
      ghost var f := Remetered(e, e.r.refmetric, cost, add, sm, now);
      RouteUpdated(old(slots), slots, i, j, f);
      hide AllOk, AlteredAt;
    }

    /** `y` is `x` after the link's cost changed. */
    ghost predicate RecostedView(x: Node, key: Key, cost: U16, add: U16, y: Node)
      reads this`now
    {
      Can(x, now, Recost(key, cost, add)) && y == Do(x, now, Recost(key, cost, add))
    }

    /** A route after its metric was looked at again: retracted if it has expired
        and was not yet, else with the link's cost of now. */
    static function Remeasured(r: Route, expired: bool, seqno: U16, cost: U16, add: U16): Route {
      if !expired then r.(cost := cost, addMetric := add)
      else if r.refmetric >= INFINITY then r
      else r.(seqno := SeqnoPlus(seqno, 1), refmetric := INFINITY, cost := INFINITY, addMetric := 0)
    }

    /** An expired route has an infinite metric and, if it had not before, a number that
        makes it better than anything its source has said; another has the metric of the
        new cost. */
    static lemma {:induction false} RemeasuredMeans(r: Route, seqno: U16, cost: U16, add: U16)
      ensures var e := Remeasured(r, true, seqno, cost, add);
              && RouteMetric(e) == INFINITY && e.id == r.id && e.installed == r.installed
              && (r.refmetric < INFINITY ==> SeqnoCompare(e.seqno, seqno) > 0)
      ensures var e := Remeasured(r, false, seqno, cost, add);
              && RouteMetric(e) == MinInf(r.refmetric as int + cost as int + add as int)
              && e.id == r.id && e.seqno == r.seqno && e.refmetric == r.refmetric && e.installed == r.installed
    {
    }

    /** update_route_metric: the route's metric is looked at again, and the change
        is acted upon if there is one, in the metric or in the smoothed metric.  `x`
        is the prefix once a new cost is taken over. */
    method UpdateRouteMetric(i: nat, j: nat, cost: U16, add: U16) returns (changed: bool, ghost e: Entry, ghost x: Node)
      requires Valid() && i < |slots| && j < |slots[i]|
      modifies this`slots, this`kernel
      ensures Valid() && AlteredAt(old(slots), slots, i) && (old(Served(slots[i][0].prefix)) ==> Served(slots[i][0].prefix))
      ensures if old(RouteExpired(slots[i][j])) then x == old(View(slots[i][0].prefix))
              else RecostedView(old(View(slots[i][0].prefix)), old(KeyOf(slots[i][j])), cost, add, x)
      ensures Reaches(x, now, View(slots[i][0].prefix))
      ensures SourceKey(old(slots[i][j].r.id), old(slots[i][j].prefix)) in sources
      ensures e.r == Remeasured(old(slots[i][j]).r, old(RouteExpired(slots[i][j])),
                                sources[SourceKey(old(slots[i][j].r.id), old(slots[i][j].prefix))].src.seqno, cost, add)
      ensures RouteMetric(e.r) != old(RouteMetric(slots[i][j].r)) ==> changed
      ensures e == old(slots[i][j]).(r := e.r, smoothed := e.smoothed, smoothedTime := e.smoothedTime)
      ensures if changed then Acted(old(slots[i])[j := e], j, slots[i][0].prefix, slots[i]) else slots[i] == old(slots[i])[j := e]
      ensures Wires(slots[i]) == Wires(old(slots[i])[j := e])
    {
      hide AllOk, Reaches, Shuffled, Altered, Wires, Counts, ServedIn, XrouteAt, SourcesAt, SlotMap, UniqueXroutes, UpdateFeasible, Acted, RecostedView, View;
      CoreTable();
      var p := slots[i][0].prefix;
      SlotForAt(slots, i);
      RouteHasSource(i, j);
      ghost var t, was := slots, Served(p);
      changed, x := Remeasure(i, j, cost, add);
      e := slots[i][j];
      ghost var t1, x1 := slots, View(p);
      CoreTable();
      if changed {
        Act(p, i, j);
        MovedAltered(t1, slots, i);
        AlteredTrans(t, t1, slots, i);
        ReachesTrans(x, now, x1, View(p));
        CoreTable();
      }
      CountsAltered(t, slots, i, sources, None);
      SlotForAt(slots, i);
      if was { StillServed(p, t[i], j, e, slots[i], changed); }
    }

    lemma {:induction false} StillServed(p: Prefix, s: Slot, j: nat, e: Entry, r: Slot, changed: bool)
      requires j < |s| && ServedIn(s, XrouteAt(xroutes, p), sources, now) && e.r.installed == s[j].r.installed
      requires if changed then Acted(s[j := e], j, p, r) else r == s[j := e]
      requires RouteExpired(e) || (FeasibleIn(sources, now, e) == FeasibleIn(sources, now, s[j]) && RouteExpired(e) == RouteExpired(s[j]))
      ensures ServedIn(r, XrouteAt(xroutes, p), sources, now)
    {
      hide XrouteAt, UpdateFeasible, FeasibleIn;
      if !changed {
        assert SmoothEq(r, r);
        if XrouteAt(xroutes, p).None? && UsableIn(sources, now, e) { assert UsableIn(sources, now, s[j]); }
      }
      ServedKept(s, j, e, r, XrouteAt(xroutes, p), sources, now);
    }

    /** What retract_neighbour_routes does to one route: it is retracted, and the
        change acted upon only if its metric was finite.  A served prefix stays served
        exactly if the route was retracted already, had a finite metric or has
        expired, or the prefix is redistributed or has an installed route. */
    method RetractNeighbourRoute(i: nat, j: nat, neigh: Neighbour) returns (ghost e: Entry)
      requires Valid() && i < |slots| && j < |slots[i]|
      modifies this`slots, this`kernel
      ensures Valid() && AlteredAt(old(slots), slots, i)
      ensures Reaches(old(View(slots[i][0].prefix)), now, View(slots[i][0].prefix))
      ensures var d := old(slots[i][j]);
              if d.neigh != neigh || d.r.refmetric == INFINITY then slots == old(slots) && kernel == old(kernel)
              else
                && e == Remetered(d, INFINITY, INFINITY, 0, e.smoothed, now) && Wires(slots[i]) == Wires(old(slots[i])[j := e])
                && if RouteMetric(d.r) != INFINITY then Acted(old(slots[i])[j := e], j, slots[i][0].prefix, slots[i])
                   else slots[i] == old(slots[i])[j := e]
      ensures var d := old(slots[i][j]);
              old(Served(slots[i][0].prefix)) ==>
                (Served(slots[i][0].prefix) <==>
                 (d.neigh == neigh && d.r.refmetric != INFINITY ==>
                    RouteMetric(d.r) != INFINITY || RouteExpired(d) || XrouteAt(xroutes, d.prefix).Some? || old(slots[i][0].r.installed)))
    {
      hide AllOk, Reaches, Shuffled, Altered, Wires, Counts, ServedIn, XrouteAt, SourcesAt, SlotMap, UniqueXroutes, UpdateFeasible, Acted;
      CoreTable();
      e := slots[i][j];
      var p := slots[i][0].prefix;
      assert slots[i][j].prefix == p;
      SlotForAt(slots, i);
      ghost var t, was, x := slots, Served(p), View(p);
      SmoothKeepsView(i);
      MovedAltered(slots, slots, i);
      ReachesItself(x, now);
      if slots[i][j].neigh != neigh || slots[i][j].r.refmetric == INFINITY { return; }
      var oldmetric := RouteMetric(slots[i][j].r);
      RetractRoute(i, j, slots[i][j].r.seqno);
      e := slots[i][j];
      CoreTable();
      if oldmetric != INFINITY {
        ghost var t1, x1 := slots, View(p);
        hide View;
        Act(p, i, j);
        MovedAltered(t1, slots, i);
        AlteredTrans(t, t1, slots, i);
        ReachesTrans(x, now, x1, View(p));
        CoreTable();
      }
      CountsAltered(t, slots, i, sources, None);
      SlotForAt(slots, i);
      if was { RetractedServed(p, t[i], j, e, slots[i], oldmetric != INFINITY); }
    }

    lemma {:induction false} RetractedServed(p: Prefix, s: Slot, j: nat, e: Entry, r: Slot, changed: bool)
      requires j < |s| && ServedIn(s, XrouteAt(xroutes, p), sources, now)
      requires e.r.installed == s[j].r.installed && e.time == s[j].time && e.holdTime == s[j].holdTime && e.r.refmetric == INFINITY
      requires if changed then Acted(s[j := e], j, p, r) else r == s[j := e]
      ensures ServedIn(r, XrouteAt(xroutes, p), sources, now)
              <==> changed || RouteExpired(s[j]) || XrouteAt(xroutes, p).Some? || s[0].r.installed
    {
      hide XrouteAt;
      assert FeasibleIn(sources, now, e);
      if changed {
        hide UpdateFeasible;
        ServedKept(s, j, e, r, XrouteAt(xroutes, p), sources, now);
      } else if RouteExpired(s[j]) {
        hide UpdateFeasible;
        assert SmoothEq(r, r);
        ServedKept(s, j, e, r, XrouteAt(xroutes, p), sources, now);
      } else {
        assert r[j] == e && UsableIn(sources, now, r[j]);
      }
    }

    method Remeasure(i: nat, j: nat, cost: U16, add: U16) returns (changed: bool, ghost x: Node)
      requires Core() && i < |slots| && j < |slots[i]| && SourceKey(slots[i][j].r.id, slots[i][j].prefix) in sources
      modifies this`slots, this`kernel
      ensures Core() && AlteredAt(old(slots), slots, i) && j < |slots[i]| && slots[i] == old(slots[i])[j := slots[i][j]]
      ensures if old(RouteExpired(slots[i][j])) then x == old(View(slots[i][0].prefix))
              else RecostedView(old(View(slots[i][0].prefix)), old(KeyOf(slots[i][j])), cost, add, x)
      ensures Reaches(x, now, View(slots[i][0].prefix))
      ensures RouteMetric(slots[i][j].r) != old(RouteMetric(slots[i][j].r)) ==> changed
      ensures slots[i][j].r == Remeasured(old(slots[i][j]).r, old(RouteExpired(slots[i][j])),
                                          sources[SourceKey(old(slots[i][j].r.id), old(slots[i][j].prefix))].src.seqno, cost, add)
      ensures slots[i][j] == old(slots[i][j]).(r := slots[i][j].r, smoothed := slots[i][j].smoothed, smoothedTime := slots[i][j].smoothedTime)
    {
      hide AllOk, Reaches, Shuffled, Altered, SlotMap, SourcesAt, XrouteAt, RecostedView, View, SlotFor, Refreshed, FreshKept;
      CoreTable();
      ghost var t := slots;
      var oldmetric := RouteMetric(slots[i][j].r);
      x := View(slots[i][0].prefix);
      var osm := SmoothedMetric(i, j);
      SmoothKeepsView(i);
      MovedAltered(t, slots, i);
      ReachesItself(x, now);
      ghost var t1 := slots;
      var e := slots[i][j];
      if RouteExpired(e) {
        if e.r.refmetric >= INFINITY { return false, x; }
        var src := sources[SourceKey(e.r.id, e.prefix)].src;
        RetractRoute(i, j, SeqnoPlus(src.seqno, 1));
        changed := oldmetric < INFINITY;
        AlteredTrans(t, t1, slots, i);
      } else {
        changed := Reprice(i, j, cost, add, oldmetric, osm);
        AlteredTrans(t, t1, slots, i);
        x := View(slots[i][0].prefix);
        ReachesItself(x, now);
      }
    }

    /** The second half of update_route_metric, for a route that has not expired. */
    method Reprice(i: nat, j: nat, cost: U16, add: U16, oldmetric: U16, osm: U16) returns (changed: bool)
      requires Core() && i < |slots| && j < |slots[i]| && oldmetric == RouteMetric(slots[i][j].r)
      modifies this`slots, this`kernel
      ensures Core() && AlteredAt(old(slots), slots, i) && j < |slots[i]| && slots[i] == old(slots[i])[j := slots[i][j]]
      ensures RecostedView(old(View(slots[i][0].prefix)), old(KeyOf(slots[i][j])), cost, add, View(slots[i][0].prefix))
      ensures RouteMetric(slots[i][j].r) != oldmetric ==> changed
      ensures var e := old(slots[i][j]);
              slots[i][j] == Remetered(e, e.r.refmetric, cost, add, slots[i][j].smoothed, now)
    {
      hide AllOk, Shuffled, Altered, SlotMap, SourcesAt, XrouteAt, RecostedView;
      CoreTable();
      ghost var t := slots;
      Recosted(i, j, cost, add);
      CoreTable();
      ghost var t2, x2 := slots, View(slots[i][0].prefix);
      changed := RouteMetric(slots[i][j].r) != oldmetric;
      if !changed {
        var sm := SmoothedMetric(i, j);
        SmoothAgain(t2, i, x2);
        changed := sm != osm;
        MovedAltered(t2, slots, i);
        AlteredTrans(t, t2, slots, i);
      }
    }

    lemma {:induction false} SmoothAgain(t: Table, i: nat, x: Node)
      requires Core() && TableOk(t) && i < |t| == |slots| && slots == t[i := slots[i]] && SmoothEq(t[i], slots[i])
      requires x == View(slots[i][0].prefix).(routes := SlotMap(SlotFor(t, t[i][0].prefix)))
      ensures Moved(t, slots, i) && View(slots[i][0].prefix) == x
    {
      ReplaceSlot(t, i, slots[i]);
      SmoothShuffled(t[i], slots[i]);
      SmoothEqMap(t[i], slots[i]);
      SlotForAt(slots, i);
      SlotForAt(t, i);
    }

    // --------------------------------------------------------------
    // Receiving an update
    // --------------------------------------------------------------

    /** find_source with create set. */
    method FindOrCreateSource(k: SourceKey, seqno: U16)
      requires Valid()
      modifies this`sources
      ensures Valid() && k in sources && OthersSame(k.prefix) && Served(k.prefix) == old(Served(k.prefix))
      ensures sources == if k in old(sources) then old(sources) else old(sources)[k := Counted(Source(seqno, INFINITY, now), 0)]
      ensures View(k.prefix) == old(View(k.prefix)).(sources := FindSource(old(View(k.prefix)).sources, k.id, seqno, now))
    {
      assert k in sources <==> k.id in View(k.prefix).sources by { SourcesAtKey(sources, k.prefix, k.id); }
      hide AllOk, Counts, View, UniqueXroutes, Served;
      if k !in sources { NewSource(k, Source(seqno, INFINITY, now)); }
    }

    method NewSource(k: SourceKey, src: Source)
      requires Valid() && k !in sources
      modifies this`sources
      ensures Valid() && OthersSame(k.prefix) && sources == old(sources)[k := Counted(src, 0)] && Served(k.prefix) == old(Served(k.prefix))
      ensures View(k.prefix) == old(View(k.prefix)).(sources := old(View(k.prefix)).sources[k.id := src])
    {
      hide AllOk, Counts, SlotFor, SlotMap, XrouteAt, UniqueXroutes, Sorted, SlotOk, SourcesAt, ServedIn;
      CountsNewSource(slots, kernel, xroutes, sources, id, kernelMetric, k, src);
      CoreTable();
      ServedEverywhere(slots, kernel, xroutes, sources, sources[k := Counted(src, 0)], id, kernelMetric, now);
      sources := sources[k := Counted(src, 0)];
      forall q ensures SourcesAt(sources, q)
                    == if k.prefix == q then SourcesAt(old(sources), q)[k.id := src] else SourcesAt(old(sources), q) {
        SourcesAtSet(old(sources), k, Counted(src, 0), q);
      }
    }

    /** retain_source */
    method RetainSource(k: SourceKey)
      requires Core() && k in sources
      modifies this`sources
      ensures Core() && sources == Retain(old(sources), k) && forall p :: View(p) == old(View(p)) && Served(p) == old(Served(p))
    {
      hide SlotFor, XrouteAt, Sorted, SlotOk, FibFor, SourcesAt;
      sources := sources[k := sources[k].(count := sources[k].count + 1)];
      forall p ensures SourcesAt(sources, p) == SourcesAt(old(sources), p) { SourcesAtSame(sources, old(sources), p); }
      assert forall q :: PrefixOk(SlotFor(slots, q), q, Lookup(kernel, q), XrouteAt(xroutes, q), old(sources), id, kernelMetric);
    }

    /** insert_route: a route that is not installed goes to the end of its slot. */
    method InsertRoute(e: Entry) returns (i: nat)
      requires Core() && !e.r.installed && SourceKey(e.r.id, e.prefix) in sources && e.r.id != id
      requires KeyOf(e) !in Keys(SlotFor(slots, e.prefix))
      modifies this`slots
      ensures Core() && i < |slots| && slots[i] == SlotFor(old(slots), e.prefix) + [e]
      ensures OnlySlot(old(slots), slots, e.prefix, SlotFor(old(slots), e.prefix) + [e])
    {
      var at, n := FindRouteSlot(e.prefix);
      InsertKeepsAll(slots, at, n, e, kernel, xroutes, sources, id, kernelMetric);
      hide AllOk;
      if at < 0 {
        slots := slots[..n] + [[e]] + slots[n..];
        i := n;
      } else {
        slots := slots[at := slots[at] + [e]];
        i := at;
      }
    }

    ghost function WithRoute(x: Node, key: Key, r: Route): Node { x.(routes := x.routes[key := r]) }

    lemma {:induction false} RouteHasSource(i: nat, j: nat)
      requires Core() && i < |slots| && j < |slots[i]|
      ensures TableOk(slots) && SourceKey(slots[i][j].r.id, slots[i][0].prefix) in sources
    {
      PrefixOkAt(slots, i, kernel, xroutes, sources, id, kernelMetric);
    }

    /** The routes to `q` are all for `q`, and their sources are there. */
    lemma {:induction false} SlotSources(q: Prefix)
      requires Core()
      ensures forall k :: 0 <= k < |SlotFor(slots, q)| ==>
                SlotFor(slots, q)[k].prefix == q && SourceKey(SlotFor(slots, q)[k].r.id, SlotFor(slots, q)[k].prefix) in sources
    {
      EntriesOf(slots, q, kernel, xroutes, sources, id, kernelMetric);
    }

    lemma {:induction false} CoreTable()
      requires Core()
      ensures TableOk(slots)
    {
    }

    /** A new route is inserted and its source retained. */
    method AddRoute(e: Entry) returns (i: nat)
      requires Valid() && !e.r.installed && SourceKey(e.r.id, e.prefix) in sources && e.r.id != id
      requires KeyOf(e) !in Keys(SlotFor(slots, e.prefix))
      modifies this`slots, this`sources
      ensures Valid() && OthersSame(e.prefix) && i < |slots| && slots[i][0].prefix == e.prefix
      ensures View(e.prefix) == WithRoute(old(View(e.prefix)), KeyOf(e), e.r)
      ensures slots[i] == SlotFor(old(slots), e.prefix) + [e] && SlotFor(slots, e.prefix) == slots[i]
      ensures sources == Retain(old(sources), SourceKey(e.r.id, e.prefix))
      ensures old(Served(e.prefix)) ==> ServedIn(SlotFor(old(slots), e.prefix), XrouteAt(xroutes, e.prefix), sources, now)
    {
      hide AllOk, Counts, SlotMap, Refs, Keys, ServedIn, XrouteAt, SourcesAt, UniqueXroutes;
      CoreTable();
      SlotUnique(e.prefix);
      SlotMapAppend(SlotFor(slots, e.prefix), e);
      i := InsertRoute(e);
      CoreTable();
      CountsInserted(old(slots), slots, e, sources);
      ServedEverywhere(old(slots), kernel, xroutes, sources, Retain(sources, SourceKey(e.r.id, e.prefix)), id, kernelMetric, now);
      hide SlotFor;
      RetainSource(SourceKey(e.r.id, e.prefix));
    }

    lemma {:induction false} SlotUnique(p: Prefix)
      requires Core()
      ensures UniqueKeys(SlotFor(slots, p))
    {
      if SlotFor(slots, p) != [] { ghost var i := SlotForIndex(slots, p); }
    }

    /** The update that a route is from. */
    static function Held(e: Entry): Update { Update(e.r.id, e.r.seqno, e.r.refmetric) }

    /** The new route's turn in consider_route. */
    method AcceptNew(e: Entry) returns (done: bool)
      requires Valid() && !e.r.installed && SourceKey(e.r.id, e.prefix) in sources && e.r.id != id
      requires KeyOf(e) !in Keys(SlotFor(slots, e.prefix))
      modifies this`slots, this`kernel, this`sources
      ensures Valid() && OthersSame(e.prefix) && (old(Served(e.prefix)) ==> Served(e.prefix))
      ensures Reaches(WithRoute(old(View(e.prefix)), KeyOf(e), e.r), now, View(e.prefix))
      ensures sources == Retain(old(sources), SourceKey(e.r.id, e.prefix))
      ensures var s := SlotFor(old(slots), e.prefix);
              Considered(s + [e], |s|, done, SlotFor(slots, e.prefix))
      ensures Heard(SlotFor(old(slots), e.prefix), SlotFor(slots, e.prefix), KeyOf(e), Held(e), e.r.cost, e.r.addMetric, true, e.time, e.holdTime)
    {
      hide AllOk, Reaches, Counts, SlotMap, Keys, SlotFor, XrouteAt, SourcesAt, ServedIn, Considered, UniqueXroutes, WithRoute, Kept, UpdateFeasible, Heard, Refs, Wires;
      CoreTable();
      SlotUnique(e.prefix);
      ghost var s, was := SlotFor(slots, e.prefix), Served(e.prefix);
      var i := AddRoute(e);
      CoreTable();
      HeadFacts(i);
      ghost var t := slots;
      done := ConsiderRoute(i, |slots[i]| - 1);
      CoreTable();
      CountsMoved(t, slots, i, sources, None);
      ConsideredKept(t[i], |t[i]| - 1, done, slots[i]);
      SlotForAt(slots, i);
      MovedAltered(t, slots, i);
      HeardNew(s, e, slots[i], Held(e), e.r.cost, e.r.addMetric, e.time, e.holdTime);
      if was { ServedNew(s, e, slots[i], XrouteAt(xroutes, e.prefix), sources, now); }
    }

    /** An update after which the route counts as heard of. */
    predicate Refreshes(u: Update, feasible: bool) { (feasible || keepUnfeasible) && u.refmetric < INFINITY }

    /** The fields of a route that an update changes before its metric. */
    function Repointed(e: Entry, u: Update, hold: int, feasible: bool): Entry
      reads this`now
    {
      e.(r := e.r.(id := u.id, seqno := u.seqno, installed := e.r.installed && (feasible || u.id == e.r.id)),
         time := if Refreshes(u, feasible) then now else e.time,
         holdTime := hold)
    }

    method Repoint(i: nat, j: nat, u: Update, hold: int, feasible: bool) returns (lost: bool)
      requires Core() && i < |slots| && j < |slots[i]| && SourceKey(u.id, slots[i][0].prefix) in sources && u.id != id
      modifies this`slots, this`kernel, this`sources
      ensures Core() && sources == Retain(old(sources), SourceKey(u.id, old(slots[i][0].prefix)))
      ensures slots == old(slots)[i := old(slots[i])[j := Repointed(old(slots[i][j]), u, hold, feasible)]]
      ensures lost <==> !feasible && old(slots[i][j].r.installed) && u.id != old(slots[i][j].r.id)
      ensures forall q :: SourcesAt(sources, q) == old(SourcesAt(sources, q))
    {
      hide AllOk, PrefixOk, XrouteAt, SlotFor, SourcesAt, UniqueKeys;
      ghost var t: Table := slots;
      CoreTable();
      var e := slots[i][j];
      PrefixOkAt(slots, i, kernel, xroutes, sources, id, kernelMetric);
      lost := !feasible && e.r.installed && u.id != e.r.id;
      if lost {
        PrefixHeadOnly(i, j);
        UninstallRoute(i);
      }
      assert e.prefix == slots[i][0].prefix && slots[i][0].prefix == t[i][0].prefix;
      var f := Repointed(e, u, hold, feasible);
      assert slots[i][j := f] == t[i][j := f];
      SetFields(i, j, f);
      assert slots == t[i := t[i][j := f]];
      RetainSource(SourceKey(u.id, e.prefix));
      forall q ensures SourcesAt(sources, q) == SourcesAt(old(sources), q) { SourcesAtSame(old(sources), sources, q); }
    }

    /** Everything an update changes in a route that is there. */
    method Overwrite(i: nat, j: nat, u: Update, cost: U16, add: U16, hold: int, feasible: bool) returns (lost: bool, ghost f: Entry)
      requires Core() && i < |slots| && j < |slots[i]| && SourceKey(u.id, slots[i][0].prefix) in sources && u.id != id
      modifies this`slots, this`kernel, this`sources
      ensures Core() && sources == Retain(old(sources), SourceKey(u.id, old(slots[i][0].prefix)))
      ensures forall q :: SourcesAt(sources, q) == old(SourcesAt(sources, q))
      ensures slots == old(slots)[i := old(slots[i])[j := f]] && (!lost ==> f.r.installed == old(slots[i][j].r.installed))
      ensures f.r == AcceptedRoute(old(slots[i][j].r), u, cost, add, feasible)
      ensures LinkOf(f) == LinkOf(old(slots[i][j])) && f.prefix == old(slots[i][j].prefix)
      ensures Says(f, u, cost, add, if Refreshes(u, feasible) then now else old(slots[i][j].time), hold)
    {
      ghost var t: Table, d := slots, slots[i][j];
      lost := Repoint(i, j, u, hold, feasible);
      hide AllOk, SourcesAt;
      var sm := ChangeRouteMetric(i, j, u.refmetric, cost, add);
      ghost var e := Repointed(d, u, hold, feasible);
      f := Remetered(e, u.refmetric, cost, add, sm, now);
      assert t[i][j := e][j := f] == t[i][j := f];
    }

    /** What an update does to a route that is there, before the change is acted
        upon; the old source is still held. */
    method TakeOver(p: Prefix, i: nat, j: nat, u: Update, cost: U16, add: U16, hold: int, feasible: bool) returns (lost: bool, ghost f: Entry)
      requires Valid() && i < |slots| && j < |slots[i]| && slots[i][0].prefix == p
      requires SourceKey(u.id, p) in sources && u.id != id
      modifies this`slots, this`kernel, this`sources
      ensures Core() && i < |slots| && j < |slots[i]| && slots[i][0].prefix == p && OthersSame(p)
      ensures slots[i] == old(slots[i])[j := f] && (!lost ==> f.r.installed == old(slots[i][j].r.installed))
      ensures old(Served(p)) ==> ServedIn(old(slots[i]), XrouteAt(xroutes, p), sources, now)
      ensures Counts(slots, sources, Some(SourceKey(old(slots[i][j].r.id), p))) && sources.Keys == old(sources).Keys
      ensures View(p) == WithRoute(old(View(p)), old(KeyOf(slots[i][j])),
                                   AcceptedRoute(old(slots[i][j].r), u, cost, add, feasible))
      ensures LinkOf(f) == LinkOf(old(slots[i][j]))
      ensures Says(f, u, cost, add, if Refreshes(u, feasible) then now else old(slots[i][j].time), hold)
    {
      hide AllOk, Counts, SlotMap, SlotFor, XrouteAt, SourcesAt, ServedIn, UniqueXroutes;
      CoreTable();
      ghost var k := kernel;
      SlotForAt(slots, i);
      lost, f := Overwrite(i, j, u, cost, add, hold, feasible);
      CoreTable();
      ServedEverywhere(old(slots), k, xroutes, old(sources), sources, id, kernelMetric, now);
      RouteReassigned(old(slots), slots, i, j, f);
      ServedElsewhere(old(slots), slots, p, k, xroutes, old(sources), sources, id, kernelMetric, now);
      CountsReassigned(old(slots), slots, i, j, f, old(sources));
    }

    /** What acting upon a change to the route at `j` of slot `s` leaves in `r`. */
    ghost predicate Acted(s: Slot, j: nat, p: Prefix, r: Slot)
      requires j < |s|
      reads this`now, this`sources, this`xroutes
    {
      Kept(s, r) && (XrouteAt(xroutes, p).None? && RouteFeasible(s[j]) ==> r[0].r.installed)
    }

    /** route_changed, with what it leaves. */
    method Act(p: Prefix, i: nat, j: nat)
      requires Core() && i < |slots| && j < |slots[i]| && slots[i][0].prefix == p
      modifies this`slots, this`kernel
      ensures Core() && Rearranged(i) && Acted(old(slots[i]), j, p, slots[i])
    {
      hide AllOk, Reaches, Shuffled, Considered, Challenged, XrouteAt, Kept;
      HeadFacts(i);
      ghost var s := slots[i];
      ghost var mid, better, next, done, again := RouteChanged(i, j);
      ChangedKept(s, j, mid, better, next, done, again, slots[i]);
    }

    /** route_lost for a prefix that has a slot, with what it leaves. */
    method Recover(p: Prefix, i: nat)
      requires Core() && i < |slots| && slots[i][0].prefix == p
      modifies this`slots, this`kernel
      ensures Core() && Rearranged(i) && Kept(old(slots[i]), slots[i])
      ensures ServedIn(slots[i], XrouteAt(xroutes, p), sources, now)
    {
      hide AllOk, Reaches, Shuffled, Chosen, XrouteAt, Kept, ServedIn, SlotMap, SourcesAt;
      HeadFacts(i);
      CoreTable();
      SlotForAt(slots, i);
      ghost var s, t := slots[i], slots;
      ghost var at, mid, best, done := RouteLost(p);
      if at < 0 {
        assert false;
      } else {
        CoreTable();
        OneSlot(t, i, at);
        ChosenServed(s, mid, best, done, slots[i]);
      }
    }

    /** After a change to the route at `j`: route_changed, and route_lost if the
        change took the installed route away. */
    method Settle(p: Prefix, i: nat, j: nat, lost: bool)
      requires Core() && i < |slots| && j < |slots[i]| && slots[i][0].prefix == p
      modifies this`slots, this`kernel
      ensures Core() && Rearranged(i) && OthersSame(p) && Acted(old(slots[i]), j, p, slots[i])
      ensures lost ==> ServedIn(slots[i], XrouteAt(xroutes, p), sources, now)
    {
      hide AllOk, Reaches, Shuffled, XrouteAt, ServedIn, SlotMap, SourcesAt, UpdateFeasible;
      CoreTable();
      ghost var t, x := slots, View(p);
      Act(p, i, j);
      if lost {
        ghost var t1, x1, s1 := slots, View(p), slots[i];
        Recover(p, i);
        KeptTrans(t[i], s1, slots[i]);
        hide Kept;
        MovedTrans(t, t1, slots, i);
        ReachesTrans(x, now, x1, View(p));
      }
    }

    /** update_route for the route `d` at `j`, but for releasing its old source. */
    method Revise(p: Prefix, i: nat, j: nat, d: Entry, u: Update, cost: U16, add: U16, hold: int, feasible: bool)
      requires Valid() && i < |slots| && j < |slots[i]| && slots[i][0].prefix == p && slots[i][j] == d
      requires SourceKey(u.id, p) in sources && u.id != id
      modifies this`slots, this`kernel, this`sources
      ensures Core() && OthersSame(p) && (old(Served(p)) ==> Served(p))
      ensures Counts(slots, sources, Some(SourceKey(d.r.id, p))) && sources.Keys == old(sources).Keys
      ensures Reaches(WithRoute(old(View(p)), KeyOf(d), AcceptedRoute(d.r, u, cost, add, feasible)), now, View(p))
      ensures Heard(old(slots[i]), SlotFor(slots, p), KeyOf(d), u, cost, add, Refreshes(u, feasible), now, hold)
    {
      hide AllOk, Counts, Reaches, View, WithRoute, AcceptedRoute, UniqueXroutes, Sorted, ServedIn, Kept, XrouteAt, SlotFor, UpdateFeasible, Heard, Refs, Wires, UniqueKeys;
      CoreTable();
      ghost var s0, was := slots[i], Served(p);
      ghost var f;
      var lost;
      lost, f := TakeOver(p, i, j, u, cost, add, hold, feasible);
      ghost var t := slots;
      CoreTable();
      Settle(p, i, j, lost);
      CoreTable();
      CountsMoved(t, slots, i, sources, Some(SourceKey(d.r.id, p)));
      SlotForAt(slots, i);
      MovedAltered(t, slots, i);
      HeardExisting(s0, j, f, slots[i], u, cost, add, Refreshes(u, feasible), now, hold);
      if was && !lost { ServedKept(s0, j, f, slots[i], XrouteAt(xroutes, p), sources, now); }
    }

    /** update_route for a route that is there. */
    method UpdateExisting(p: Prefix, i: nat, j: nat, d: Entry, u: Update, cost: U16, add: U16, hold: int, feasible: bool)
      requires Valid() && i < |slots| && j < |slots[i]| && slots[i][0].prefix == p && slots[i][j] == d
      requires SourceKey(u.id, p) in sources && u.id != id
      modifies this`slots, this`kernel, this`sources
      ensures Valid() && OthersSame(p) && (old(Served(p)) ==> Served(p))
      ensures Reaches(WithRoute(old(View(p)), KeyOf(d), AcceptedRoute(d.r, u, cost, add, feasible)), now, View(p))
      ensures Heard(old(slots[i]), SlotFor(slots, p), KeyOf(d), u, cost, add, Refreshes(u, feasible), now, hold)
    {
      hide AllOk, Counts, Reaches, View, WithRoute, AcceptedRoute, UniqueXroutes, Sorted, SlotOk, Served, Heard, SlotFor;
      CoreTable();
      RouteHasSource(i, j);
      Revise(p, i, j, d, u, cost, add, hold, feasible);
      CoreTable();
      ReleaseSource(SourceKey(d.r.id, p));
    }

    static function HoldTime(interval: U16): int {
      var h := (4 * interval as int) / 100 + interval as int / 50;
      if h > 15 then h else 15
    }

    /** The source of an update, as find_source finds or creates it. */
    function SourceFor(u: Update, p: Prefix): Source
      reads this`now, this`sources
    {
      var k := SourceKey(u.id, p);
      if k in sources then sources[k].src else Source(u.seqno, INFINITY, now)
    }

    /** update_route takes the update on. */
    predicate Takes(u: Update, p: Prefix, add: U16, martian: bool)
      reads this`now, this`sources
    {
      && u.id != id && !martian && add < INFINITY && u.refmetric < INFINITY
      && (keepUnfeasible || UpdateFeasible(SourceFor(u, p), now, u.seqno, u.refmetric))
    }

    /** The route update_route makes from an update. */
    function NewRoute(u: Update, p: Prefix, interval: U16, neigh: Neighbour, nexthop: nat, cost: U16, add: U16): Entry
      reads this`now
    {
      var r := Route(u.id, u.seqno, u.refmetric, cost, add, false);
      var m := RouteMetric(r);
      Entry(p, neigh, nexthop, r, now, HoldTime(interval), if m > INFINITY / 2 then m else INFINITY / 2, now)
    }

    /** update_route.  A router's own id, a martian prefix and a filtered update
        change nothing; any other update is accepted as the protocol says, and
        what follows it are local steps on that prefix alone.  A new route goes to
        the end of its slot and is considered.  The route of an
        existing key is what the update says, and if that is taken as old as now; no other
        route is changed. */
    method UpdateRoute(u: Update, p: Prefix, interval: U16, neigh: Neighbour, nexthop: nat, cost: U16, add: U16, martian: bool)
      returns (ghost done: bool)
      requires Valid()
      modifies this`slots, this`kernel, this`sources
      ensures Valid() && OthersSame(p) && (old(Served(p)) ==> Served(p))
      ensures u.id == id || martian || add >= INFINITY ==> slots == old(slots) && sources == old(sources) && kernel == old(kernel)
      ensures u.id == id || martian || add >= INFINITY
           || Reaches(DoAccept(old(View(p)), now, Key(neigh.id, nexthop), u, cost, add, keepUnfeasible), now, View(p))
      ensures Key(neigh.id, nexthop) !in Keys(SlotFor(old(slots), p)) && old(Takes(u, p, add, martian)) ==>
                var s := SlotFor(old(slots), p);
                && Considered(s + [NewRoute(u, p, interval, neigh, nexthop, cost, add)], |s|, done, SlotFor(slots, p))
                && SourceFor(u, p) == old(SourceFor(u, p)) && SourceKey(u.id, p) in sources
      ensures u.id != id && !martian && add < INFINITY ==>
                Heard(SlotFor(old(slots), p), SlotFor(slots, p), Key(neigh.id, nexthop), u, cost, add,
                      old(Takes(u, p, add, martian)), now, HoldTime(interval))
    {
      hide AllOk, Counts, Reaches, View, DoAccept, WithRoute, AcceptedRoute, SlotFor, Keys, Served, UniqueXroutes, Considered, Heard, HoldTime, SlotOk, UniqueKeys;
      CoreTable();
      SlotUnique(p);
      done := false;
      if u.id == id || martian || add >= INFINITY { return; }
      var i, j, feasible := Prepare(u, p, Key(neigh.id, nexthop), cost, add);
      if i >= 0 {
        UpdateExisting(p, i, j, slots[i][j], u, cost, add, HoldTime(interval), feasible);
      } else if u.refmetric < INFINITY && (feasible || keepUnfeasible) {
        var switched := AcceptNew(NewRoute(u, p, interval, neigh, nexthop, cost, add));
        done := switched;
      } else {
        ReachesItself(View(p), now);
        HeardNone(SlotFor(slots, p), Key(neigh.id, nexthop), u, cost, add, now, HoldTime(interval));
      }
    }

    /** A new route starts with a smoothed metric that is no better than half of infinity
        and than its metric, so that it has to prove itself. */
    lemma {:induction false} NewRouteWaits(u: Update, p: Prefix, interval: U16, neigh: Neighbour, nexthop: nat, cost: U16, add: U16)
      ensures var e := NewRoute(u, p, interval, neigh, nexthop, cost, add);
              && e.smoothed >= RouteMetric(e.r) && e.smoothed >= 0x7FFF && e.smoothedTime == now
              && (e.smoothed == RouteMetric(e.r) || e.smoothed == 0x7FFF)
    {
    }

    /** A route outlives five announcements in a row that are lost. */
    static lemma {:induction false} HoldsFive(interval: U16)
      ensures HoldTime(interval) >= 15 && 100 * HoldTime(interval) >= 5 * interval
      ensures HoldTime(interval) > 15 ==> 100 * HoldTime(interval) <= 6 * interval
    {
    }

    /** The lookups of update_route, and what accepting the update comes to. */
    method Prepare(u: Update, p: Prefix, key: Key, cost: U16, add: U16) returns (i: int, j: int, feasible: bool)
      requires Valid() && u.id != id
      modifies this`sources
      ensures Valid() && SourceKey(u.id, p) in sources && OthersSame(p) && Served(p) == old(Served(p))
      ensures SourceFor(u, p) == old(SourceFor(u, p)) && feasible == UpdateFeasible(SourceFor(u, p), now, u.seqno, u.refmetric)
      ensures i >= 0 ==>
                && i < |slots| && key in Keys(SlotFor(slots, p)) && slots[i] == SlotFor(slots, p)
                && 0 <= j < |slots[i]| && KeyOf(slots[i][j]) == key && slots[i][0].prefix == p
                && DoAccept(old(View(p)), now, key, u, cost, add, keepUnfeasible)
                   == WithRoute(View(p), key, AcceptedRoute(slots[i][j].r, u, cost, add, feasible))
      ensures i < 0 ==>
                && key !in Keys(SlotFor(slots, p))
                && DoAccept(old(View(p)), now, key, u, cost, add, keepUnfeasible)
                   == if u.refmetric >= INFINITY || (!feasible && !keepUnfeasible) then View(p)
                      else WithRoute(View(p), key, Route(u.id, u.seqno, u.refmetric, cost, add, false))
    {
      hide AllOk, Counts, DoAccept, WithRoute, AcceptedRoute, SlotFor, SourcesAt, XrouteAt, SlotMap, UpdateFeasible, FindSource, ServedIn, UniqueXroutes, Sorted;
      CoreTable();
      ghost var x := View(p);
      FindOrCreateSource(SourceKey(u.id, p), u.seqno);
      feasible := UpdateFeasible(sources[SourceKey(u.id, p)].src, now, u.seqno, u.refmetric);
      SourcesAtKey(sources, p, u.id);
      CoreTable();
      i, j := FindRoute(p, key);
      if i >= 0 {
        AcceptFound(x, p, i, j, u, cost, add, feasible);
      } else {
        AcceptMissing(x, p, key, u, cost, add, feasible);
      }
    }

    /** DoAccept on a route that is there. */
    lemma {:induction false} AcceptFound(x: Node, p: Prefix, i: nat, j: nat, u: Update, cost: U16, add: U16, feasible: bool)
      requires Core() && i < |slots| && j < |slots[i]| && slots[i] == SlotFor(slots, p) && x.id == id != u.id
      requires View(p) == x.(sources := FindSource(x.sources, u.id, u.seqno, now))
      requires u.id in View(p).sources && feasible == UpdateFeasible(View(p).sources[u.id], now, u.seqno, u.refmetric)
      ensures DoAccept(x, now, KeyOf(slots[i][j]), u, cost, add, keepUnfeasible)
           == WithRoute(View(p), KeyOf(slots[i][j]), AcceptedRoute(slots[i][j].r, u, cost, add, feasible))
      ensures slots[i][0].prefix == p
    {
      SlotMapAt(slots[i], j);
      hide SlotMap;
      ghost var k := SlotForIndex(slots, p);
      OneSlotIs(i, k);
    }

    lemma {:induction false} OneSlotIs(i: nat, k: nat)
      requires Core() && i < |slots| && k < |slots| && slots[i] == slots[k]
      ensures i == k
    {
      OneSlot(slots, i, k);
    }

    /** DoAccept without a route to accept into. */
    lemma {:induction false} AcceptMissing(x: Node, p: Prefix, key: Key, u: Update, cost: U16, add: U16, feasible: bool)
      requires Core() && key !in Keys(SlotFor(slots, p)) && x.id == id != u.id
      requires View(p) == x.(sources := FindSource(x.sources, u.id, u.seqno, now))
      requires u.id in View(p).sources && feasible == UpdateFeasible(View(p).sources[u.id], now, u.seqno, u.refmetric)
      ensures DoAccept(x, now, key, u, cost, add, keepUnfeasible)
           == if u.refmetric >= INFINITY || (!feasible && !keepUnfeasible) then View(p)
              else WithRoute(View(p), key, Route(u.id, u.seqno, u.refmetric, cost, add, false))
    {
      SlotMapKeys(SlotFor(slots, p));
    }

    // --------------------------------------------------------------
    // Redistributed routes, sources, announcements
    // --------------------------------------------------------------

    /** xroute_add_new_route: a redistributed route of a better metric than the
        one there, if any, goes into the array, and Babel's own route leaves the
        kernel. */
    method XrouteAddNewRoute(p: Prefix, metric: U16, martian: bool) returns (changed: bool)
      requires Valid()
      modifies this`slots, this`kernel, this`xroutes
      ensures Valid() && OthersSame(p) && Reaches(old(View(p)), now, View(p)) && (old(Served(p)) ==> Served(p))
      ensures changed <==> !martian && metric < INFINITY
                           && (XrouteAt(old(xroutes), p).Some? ==> metric < XrouteAt(old(xroutes), p).value)
      ensures XrouteAt(xroutes, p) == if changed then Some(metric) else XrouteAt(old(xroutes), p)
      ensures SlotFor(slots, p) == if changed then Cleared(SlotFor(old(slots), p)) else SlotFor(old(slots), p)
    {
      hide AllOk, Reaches, Counts, SlotMap, XrouteAt, SourcesAt, UniqueXroutes, AddedXroute, SlotFor;
      CoreTable();
      ReachesItself(View(p), now);
      if martian || metric >= INFINITY { return false; }
      var k := FindXroute(p);
      if k >= 0 && xroutes[k].metric <= metric { return false; }
      changed := true;
      AddedXroutes(xroutes, k, p, metric);
      ghost var x := View(p);
      ClearInstalled(p);
      CoreTable();
      ghost var x1 := View(p);
      SetXroutes(p, AddedXroute(xroutes, k, p, metric));
      ReachesTrans(x, now, x1, View(p));
    }

    static function Cleared(s: Slot): Slot { if s == [] then [] else Uninstalled(s) }

    /** The installed route to `p`, if any, is uninstalled. */
    method ClearInstalled(p: Prefix)
      requires Valid()
      modifies this`slots, this`kernel
      ensures Valid() && OthersSame(p) && Reaches(old(View(p)), now, View(p))
      ensures SlotFor(slots, p) == Cleared(SlotFor(old(slots), p))
    {
      CoreTable();
      ReachesItself(View(p), now);
      var i, n := FindRouteSlot(p);
      if i >= 0 {
        UninstallAt(i);
        CoreTable();
        hide AllOk, Reaches, Counts, SlotMap, XrouteAt, SourcesAt, Shuffled;
        CountsMoved(old(slots), slots, i, sources, None);
        SlotForAt(slots, i);
      }
    }

    method SetXroutes(p: Prefix, ys: seq<Xroute>)
      requires Valid() && UniqueXroutes(ys) && forall q :: q != p ==> XrouteAt(ys, q) == XrouteAt(xroutes, q)
      requires XrouteAt(ys, p).Some? ==> SlotFor(slots, p) == [] || !SlotFor(slots, p)[0].r.installed
      modifies this`xroutes
      ensures Valid() && OthersSame(p) && xroutes == ys && Reaches(old(View(p)), now, View(p))
    {
      hide AllOk, Reaches, Counts, SlotMap, XrouteAt, SourcesAt, UniqueXroutes, SlotFor, ServedIn;
      CoreTable();
      XrouteKeepsAll(slots, p, xroutes, ys, kernel, sources, id, kernelMetric);
      XrouteStep(p, XrouteAt(ys, p));
      xroutes := ys;
    }

    lemma {:induction false} XrouteStep(p: Prefix, x: Option<U16>)
      requires Core() && (x.Some? ==> SlotFor(slots, p) == [] || !SlotFor(slots, p)[0].r.installed)
      ensures Reaches(View(p), now, View(p).(xroute := x))
    {
      ghost var s := SlotFor(slots, p);
      if s != [] { ghost var i := SlotForIndex(slots, p); }
      if x.Some? {
        forall k | k in SlotMap(s) ensures !SlotMap(s)[k].installed { NothingInstalled(s, k); }
      }
      hide AllOk, SlotMap, XrouteAt, SourcesAt, SlotFor;
      ReachesByStep(View(p), now, SetXroute(x));
    }

    /** Where a redistributed route is, none of Babel's is installed, so that when
        it goes the prefix is served exactly if there is no usable route: nothing
        is installed in its place. */
    lemma {:induction false} ServedWithoutXroute(p: Prefix)
      requires Core() && XrouteAt(xroutes, p).Some?
      ensures ServedIn(SlotFor(slots, p), None, sources, now)
              <==> forall k :: 0 <= k < |SlotFor(slots, p)| ==> !UsableIn(sources, now, SlotFor(slots, p)[k])
    {
      assert PrefixOk(SlotFor(slots, p), p, Lookup(kernel, p), XrouteAt(xroutes, p), sources, id, kernelMetric);
      hide SlotFor, XrouteAt, UpdateFeasible;
    }

    /** flush_xroute, as babel_route_delete calls it on what find_xroute finds.  It
        does not look for a route to install instead. */
    method XrouteDelete(p: Prefix)
      requires Valid()
      modifies this`xroutes
      ensures Valid() && XrouteAt(xroutes, p).None? && OthersSame(p) && Reaches(old(View(p)), now, View(p))
      ensures XrouteAt(old(xroutes), p).Some? ==>
                (Served(p) <==> forall k :: 0 <= k < |SlotFor(slots, p)| ==> !UsableIn(sources, now, SlotFor(slots, p)[k]))
    {
      hide AllOk, Reaches, Counts, SlotMap, XrouteAt, SourcesAt, UniqueXroutes, RemovedXroute, SlotFor, ServedIn, UsableIn;
      CoreTable();
      ReachesItself(View(p), now);
      var k := FindXroute(p);
      if k < 0 { return; }
      ServedWithoutXroute(p);
      RemovedXroutes(xroutes, k);
      SetXroutes(p, RemovedXroute(xroutes, k));
    }

    /** A prefix's only route, once considered, is installed exactly if nothing forbids
        it, and is otherwise as it was. */
    lemma {:induction false} ConsideredAlone(e: Entry, done: bool, s: Slot)
      requires !e.r.installed && Considered([e], 0, done, s)
      ensures done == Eligible(e) && |s| == 1
      ensures s[0] == e.(r := e.r.(installed := done), smoothed := s[0].smoothed, smoothedTime := s[0].smoothedTime)
    {
      hide XrouteAt, UpdateFeasible;
      var seen: Slot :| Seen([e], seen, 0) && done == Wants(seen, 0) && s == if done then SwitchedTo(seen, 0) else seen;
      SeenFields([e], seen, 0);
      assert seen == [seen[0]];
    }

    /** expire_sources: exactly the stale sources without a reference go. */
    method ExpireSources()
      requires Valid()
      modifies this`sources
      ensures Valid() && sources == Expired(old(sources), now) && forall q :: Served(q) == old(Served(q))
      ensures forall sk :: sk in sources <==>
                sk in old(sources) && (old(sources)[sk].count > 0 || old(sources)[sk].src.time + SOURCE_GC_TIME >= now)
      ensures forall sk :: sk in sources ==>
                var o, c := old(sources)[sk], sources[sk];
                c == o.(src := o.src.(time := c.src.time)) && c.src.time == if o.src.time > now then now else o.src.time
    {
      ExpiredMeans(sources, now);
      hide ServedIn, SlotFor, XrouteAt;
      ExpiredKeepsAll(slots, kernel, xroutes, sources, id, kernelMetric, now);
      ServedAllExpired(slots, kernel, xroutes, sources, id, kernelMetric, now);
      ghost var o := sources;
      var todo := sources.Keys;
      hide AllOk, Counts, Expired, ExpireOne, HalfExpired, UniqueXroutes;
      assert HalfExpired(o, sources, todo, now) by { ExpireStart(o); }
      while todo != {}
        invariant todo <= o.Keys && HalfExpired(o, sources, todo, now)
        decreases todo
      {
        var sk :| sk in todo;
        ExpireStep(o, sources, todo, sk, now);
        todo := todo - {sk};
        sources := ExpireOne(sources, sk, now);
      }
      ExpireDone(o, sources, now);
    }

    lemma {:induction false} ExpireStart(o: Sources)
      ensures HalfExpired(o, o, o.Keys, now)
    {
    }

    /** update_source, as it follows the announcement of an installed route. */
    method Announce(i: nat, noninterfering: bool, factor: nat)
      requires Valid() && i < |slots| && slots[i][0].r.installed
      modifies this`sources
      ensures Valid() && OthersSame(slots[i][0].prefix) && Served(slots[i][0].prefix)
      ensures var p, a := slots[i][0].prefix, Announced(KeyOf(slots[i][0]), noninterfering, factor);
              Can(old(View(p)), now, a) && View(p) == Do(old(View(p)), now, a)
      ensures var sk := SourceKey(slots[i][0].r.id, slots[i][0].prefix);
              && sk in sources
              && if AnnouncedMetric(slots[i][0].r, noninterfering, factor) < INFINITY
                 then !Stale(sources[sk].src, now + SOURCE_GC_TIME) else sources == old(sources)
    {
      AnnounceStep(i, noninterfering, factor);
      CoreTable();
      SlotForAt(slots, i);
      hide AllOk, Counts, View, Can, Do, UpdateSource, AnnouncedMetric, UniqueXroutes, SlotOk, XrouteAt, SlotFor;
      var r, k := slots[i][0].r, SourceKey(slots[i][0].r.id, slots[i][0].prefix);
      var src := UpdateSource(sources[k].src, now, r.seqno, AnnouncedMetric(r, noninterfering, factor));
      UpdateSourceFresh(sources[k].src, now, r.seqno, AnnouncedMetric(r, noninterfering, factor), now + SOURCE_GC_TIME);
      SetSource(k, src);
    }

    lemma {:induction false} AnnounceStep(i: nat, noninterfering: bool, factor: nat)
      requires Core() && i < |slots| && slots[i][0].r.installed
      ensures var r, p := slots[i][0].r, slots[i][0].prefix;
              var a, k := Announced(KeyOf(slots[i][0]), noninterfering, factor), SourceKey(r.id, p);
              && k in sources && Can(View(p), now, a)
              && Do(View(p), now, a) == View(p).(sources := View(p).sources[r.id :=
                   UpdateSource(sources[k].src, now, r.seqno, AnnouncedMetric(r, noninterfering, factor))])
    {
      PrefixOkAt(slots, i, kernel, xroutes, sources, id, kernelMetric);
      SlotMapAt(slots[i], 0);
      SourcesAtKey(sources, slots[i][0].prefix, slots[i][0].r.id);
      hide AllOk, SlotMap, SourcesAt, SlotFor, XrouteAt, UpdateSource, AnnouncedMetric, SlotOk;
    }

    /** A source's distance changes, its references do not. */
    method SetSource(k: SourceKey, src: Source)
      requires Valid() && k in sources
      modifies this`sources
      ensures Valid() && OthersSame(k.prefix)
      ensures View(k.prefix) == old(View(k.prefix)).(sources := old(View(k.prefix)).sources[k.id := src])
      ensures sources == old(sources)[k := old(sources[k]).(src := src)]
    {
      hide SlotFor, XrouteAt, Sorted, SlotOk, FibFor, Refs, UniqueXroutes, SourcesAt, ServedIn;
      forall q | q != k.prefix
        ensures ServedIn(SlotFor(slots, q), XrouteAt(xroutes, q), sources[k := sources[k].(src := src)], now) == Served(q)
      {
        SlotSources(q);
        ServedSources(SlotFor(slots, q), XrouteAt(xroutes, q), sources, sources[k := sources[k].(src := src)], now);
      }
      sources := sources[k := sources[k].(src := src)];
      forall q ensures SourcesAt(sources, q)
                    == if k.prefix == q then SourcesAt(old(sources), q)[k.id := src] else SourcesAt(old(sources), q) {
        SourcesAtSet(old(sources), k, sources[k], q);
      }
      assert forall q :: PrefixOk(SlotFor(slots, q), q, Lookup(kernel, q), XrouteAt(xroutes, q), old(sources), id, kernelMetric);
    }
  }
}
