/**
 What holds between the Babel route table, the kernel's table, the redistributed
 routes and the sources (babeld/route.c, source.c, xroute.c, kernel.c), prefix
 by prefix, and how changing one slot keeps it.
 */
module BabelState {
  import opened Common
  import opened BabelNode
  import opened BabelSlots

  datatype SourceKey = SourceKey(id: RouterId, prefix: Prefix)

  /** struct source: the feasibility distance and its reference count. */
  datatype Counted = Counted(src: Source, count: nat)

  type Sources = map<SourceKey, Counted>

  datatype Xroute = Xroute(prefix: Prefix, metric: U16)

  /** What zebra_route hands to zebra for a prefix. */
  datatype FibEntry = Blackhole | Via(nexthop: nat, ifindex: nat, metric: nat)

  type Kernel = map<Prefix, FibEntry>

  const KERNEL_INFINITY := 0xFFFF

  function MetricToKernel(metric: U16, kernelMetric: nat): nat {
    if metric < INFINITY then kernelMetric else KERNEL_INFINITY
  }

  function FibEntryOf(nexthop: nat, ifindex: nat, metric: nat): FibEntry {
    if metric >= KERNEL_INFINITY then Blackhole else Via(nexthop, ifindex, metric)
  }

  function FibOf(e: Entry, kernelMetric: nat): FibEntry {
    FibEntryOf(e.nexthop, e.neigh.ifindex, MetricToKernel(RouteMetric(e.r), kernelMetric))
  }

  /** What the kernel should hold for a slot: its installed head, if any. */
  function FibFor(s: Slot, kernelMetric: nat): Option<FibEntry> {
    if s != [] && s[0].r.installed then Some(FibOf(s[0], kernelMetric)) else None
  }

  function Lookup<K, V>(m: map<K, V>, k: K): Option<V> { if k in m then Some(m[k]) else None }

  /** find_xroute: the first entry of the array for a prefix. */
  function XrouteAt(xs: seq<Xroute>, p: Prefix): Option<U16> {
    if xs == [] then None else if xs[0].prefix == p then Some(xs[0].metric) else XrouteAt(xs[1..], p)
  }

  /** One prefix in order: the kernel mirrors the installed head, which exists
      only without a redistributed route, every route's source is there, and no
      route is for the router's own id. */
  ghost predicate PrefixOk(s: Slot, p: Prefix, fib: Option<FibEntry>, xroute: Option<U16>, sources: Sources, id: RouterId, kernelMetric: nat) {
    && fib == FibFor(s, kernelMetric)
    && (s != [] && s[0].r.installed ==> xroute.None?)
    && (forall j :: 0 <= j < |s| ==> SourceKey(s[j].r.id, p) in sources && s[j].r.id != id)
  }

  ghost predicate AllOk(t: Table, kernel: Kernel, xs: seq<Xroute>, sources: Sources, id: RouterId, kernelMetric: nat) {
    && TableOk(t)
    && forall p :: PrefixOk(SlotFor(t, p), p, Lookup(kernel, p), XrouteAt(xs, p), sources, id, kernelMetric)
  }

  /** Replacing slot `i` and the kernel's entry for its prefix keeps all in order. */
  lemma {:induction false} ReplaceKeepsAll(t: Table, i: nat, s: Slot, kernel: Kernel, kernel': Kernel,
                                           xs: seq<Xroute>, sources: Sources, id: RouterId, kernelMetric: nat)
    requires AllOk(t, kernel, xs, sources, id, kernelMetric) && i < |t| && SlotOk(s) && s[0].prefix == t[i][0].prefix
    requires forall q :: q != s[0].prefix ==> Lookup(kernel', q) == Lookup(kernel, q)
    requires PrefixOk(s, s[0].prefix, Lookup(kernel', s[0].prefix), XrouteAt(xs, s[0].prefix), sources, id, kernelMetric)
    ensures AllOk(t[i := s], kernel', xs, sources, id, kernelMetric)
    ensures OnlySlot(t, t[i := s], s[0].prefix, s)
  {
    ReplaceSlot(t, i, s);
    hide TableOk, SlotOk, PrefixOk, SlotFor;
    forall p ensures PrefixOk(SlotFor(t[i := s], p), p, Lookup(kernel', p), XrouteAt(xs, p), sources, id, kernelMetric) {
      assert PrefixOk(SlotFor(t, p), p, Lookup(kernel, p), XrouteAt(xs, p), sources, id, kernelMetric);
    }
  }

  lemma {:induction false} PrefixOkAt(t: Table, i: nat, kernel: Kernel, xs: seq<Xroute>, sources: Sources, id: RouterId, kernelMetric: nat)
    requires AllOk(t, kernel, xs, sources, id, kernelMetric) && i < |t|
    ensures var p := t[i][0].prefix;
            SlotOk(t[i]) && SlotFor(t, p) == t[i]
            && PrefixOk(t[i], p, Lookup(kernel, p), XrouteAt(xs, p), sources, id, kernelMetric)
  {
    SlotForAt(t, i);
    var p := t[i][0].prefix;
    assert PrefixOk(SlotFor(t, p), p, Lookup(kernel, p), XrouteAt(xs, p), sources, id, kernelMetric);
  }

  // ------------------------------------------------------------------
  // Installing and switching in a slot
  // ------------------------------------------------------------------

  function SetInstalled(e: Entry, b: bool): Entry { e.(r := e.r.(installed := b)) }

  /** install_route: the route at `j` becomes installed and goes to the head. */
  function InstalledAt(s: Slot, j: nat): Slot
    requires j < |s|
  {
    ToFront(s[j := SetInstalled(s[j], true)], j)
  }

  function Uninstalled(s: Slot): Slot
    requires s != []
  {
    s[0 := SetInstalled(s[0], false)]
  }

  /** switch_routes, with or without an installed route to switch from. */
  function SwitchedTo(s: Slot, j: nat): Slot
    requires j < |s|
  {
    InstalledAt(Uninstalled(s), j)
  }

  lemma {:induction false} SwitchedOk(s: Slot, j: nat)
    requires SlotOk(s) && j < |s|
    ensures SlotOk(SwitchedTo(s, j)) && |SwitchedTo(s, j)| == |s|
    ensures SwitchedTo(s, j)[0] == SetInstalled(s[j], true)
    ensures SlotMap(SwitchedTo(s, j))
         == SlotMap(s)[KeyOf(s[0]) := s[0].r.(installed := false)][KeyOf(s[j]) := s[j].r.(installed := true)]
    ensures forall id :: Refs(SwitchedTo(s, j), id) == Refs(s, id)
    ensures forall e :: e in SwitchedTo(s, j) ==> exists i :: 0 <= i < |s| && SetInstalled(s[i], e.r.installed) == e
  {
    var u := Uninstalled(s);
    UpdateSlotOk(s, 0, u[0]);
    SlotMapUpdate(s, 0, u[0]);
    ToFrontSlotOk(u, j, SetInstalled(u[j], true));
    forall id ensures Refs(SwitchedTo(s, j), id) == Refs(s, id) {
      RefsUpdate(s, 0, u[0], id);
      RefsUpdate(u, j, SetInstalled(u[j], true), id);
      RefsToFront(u[j := SetInstalled(u[j], true)], j, id);
    }
    hide SlotOk, SlotMap, Refs;
    forall e | e in SwitchedTo(s, j) ensures exists i :: 0 <= i < |s| && SetInstalled(s[i], e.r.installed) == e {
      SwitchedMember(s, j, e);
    }
  }

  lemma {:induction false} SwitchedMember(s: Slot, j: nat, e: Entry)
    requires j < |s| && e in SwitchedTo(s, j)
    ensures exists i :: 0 <= i < |s| && SetInstalled(s[i], e.r.installed) == e
  {
    var u := Uninstalled(s);
    var v := u[j := SetInstalled(u[j], true)];
    assert e in v;
    var i :| 0 <= i < |v| && v[i] == e;
    assert SetInstalled(s[i], e.r.installed) == e;
  }

  // ------------------------------------------------------------------
  // Changes that only touch smoothing
  // ------------------------------------------------------------------

  /** Equal but for the smoothed metric and its time stamp. */
  ghost predicate SmoothEq(s: Slot, t: Slot) {
    |s| == |t| && forall j :: 0 <= j < |s| ==> t[j] == s[j].(smoothed := t[j].smoothed, smoothedTime := t[j].smoothedTime)
  }

  lemma {:induction false} SmoothEqMap(s: Slot, t: Slot)
    requires SmoothEq(s, t)
    ensures SlotMap(t) == SlotMap(s) && forall id :: Refs(t, id) == Refs(s, id)
    decreases s
  {
    if s != [] {
      assert SmoothEq(s[1..], t[1..]) by {
        assert forall j :: 0 <= j < |s[1..]| ==> s[1..][j] == s[j + 1] && t[1..][j] == t[j + 1];
      }
      SmoothEqMap(s[1..], t[1..]);
    }
  }

  lemma {:induction false} SmoothEqOk(s: Slot, t: Slot)
    requires SmoothEq(s, t) && SlotOk(s)
    ensures SlotOk(t) && t[0].prefix == s[0].prefix
  {
  }

  // ------------------------------------------------------------------
  // Switching as protocol steps
  // ------------------------------------------------------------------

  lemma {:induction false} SlotMapInstalled(s: Slot, k: Key)
    requires SlotOk(s) && k in SlotMap(s)
    ensures SlotMap(s)[k].installed ==> k == KeyOf(s[0]) && s[0].r.installed
  {
    SlotMapKeys(s);
    var e :| e in s && KeyOf(e) == k;
    var j :| 0 <= j < |s| && s[j] == e;
    SlotMapAt(s, j);
  }

  lemma {:induction false} SwitchSteps(x: Node, now: int, s: Slot, j: nat)
    requires SlotOk(s) && j < |s| && x.routes == SlotMap(s) && x.xroute.None? && !s[j].r.installed
    requires s[j].r.id in x.sources && UpdateFeasible(x.sources[s[j].r.id], now, s[j].r.seqno, s[j].r.refmetric)
    requires s[0].r.installed ==> RouteMetric(s[j].r) < INFINITY
    ensures Reaches(x, now, x.(routes := SlotMap(SwitchedTo(s, j))))
  {
    SlotMapAt(s, 0);
    SlotMapAt(s, j);
    SwitchedOk(s, j);
    forall k | k in SlotMap(s) ensures SlotMap(s)[k].installed ==> k == KeyOf(s[0]) && s[0].r.installed {
      SlotMapInstalled(s, k);
    }
    var a := if s[0].r.installed then Switch(KeyOf(s[0]), KeyOf(s[j])) else Install(KeyOf(s[j]));
    hide SlotMap, SlotOk, UpdateFeasible;
    assert !s[0].r.installed ==> SlotMap(s)[KeyOf(s[0]) := s[0].r.(installed := false)] == SlotMap(s);
    assert Can(x, now, a);
    ReachesByStep(x, now, a);
  }

  /** The order in which consider_route prefers a route to the installed one. */
  predicate Beats(e: Entry, installed: Entry) {
    && RouteMetric(e.r) < INFINITY
    && (RouteMetric(installed.r) >= INFINITY
        || (RouteMetric(installed.r) >= RouteMetric(e.r) && installed.smoothed > e.smoothed))
  }

  /** Each switch lowers (is infinite, smoothed metric) of the installed route. */
  ghost predicate Lower(e: Entry, f: Entry) {
    RouteMetric(e.r) < INFINITY && (RouteMetric(f.r) >= INFINITY || e.smoothed < f.smoothed)
  }

  // ------------------------------------------------------------------
  // The same routes in another order
  // ------------------------------------------------------------------

  ghost function LinkOf(e: Entry): (Neighbour, nat) { (e.neigh, e.nexthop) }

  /** A route without what selection changes: installation and smoothing. */
  ghost function Wire(e: Entry): Entry { e.(r := e.r.(installed := false), smoothed := 0, smoothedTime := 0) }

  ghost function Wires(s: Slot): set<Entry> { set e | e in s :: Wire(e) }

  /** `t` holds the routes of `s`, whatever their order, installation and smoothing. */
  ghost predicate Shuffled(s: Slot, t: Slot) {
    |t| == |s| && Wires(t) == Wires(s) && Altered(s, t)
  }

  /** `t` has as many routes as `s`, for the same sources. */
  ghost predicate Altered(s: Slot, t: Slot) { |t| == |s| && forall id :: Refs(t, id) == Refs(s, id) }

  lemma {:induction false} WiresEach(s: Slot, t: Slot)
    requires |s| == |t| && forall j :: 0 <= j < |s| ==> Wire(t[j]) == Wire(s[j])
    ensures Wires(t) == Wires(s)
  {
    WiresFound(s, t);
    WiresFound(t, s);
  }

  lemma {:induction false} WiresFound(s: Slot, t: Slot)
    requires |s| == |t| && forall j :: 0 <= j < |s| ==> Wire(t[j]) == Wire(s[j])
    ensures Wires(t) <= Wires(s)
  {
    hide Wire;
    forall x | x in Wires(t) ensures x in Wires(s) {
      var e :| e in t && Wire(e) == x;
      var i :| 0 <= i < |t| && t[i] == e;
      assert Wire(t[i]) == Wire(s[i]) && s[i] in s;
    }
  }

  lemma {:induction false} WiresToFront(s: Slot, j: nat)
    requires j < |s|
    ensures Wires(ToFront(s, j)) == Wires(s)
  {
    hide Wire;
    forall e ensures e in ToFront(s, j) <==> e in s { SameRoutes(s, j, e); }
    hide ToFront;
  }

  lemma {:induction false} SameRoutes(s: Slot, j: nat, e: Entry)
    requires j < |s|
    ensures e in ToFront(s, j) <==> e in s
  {
    assert s == s[..j] + [s[j]] + s[j + 1..];
  }

  /** The routes of a slot `s` as they are in `t` after an update for `key`: that route
      is what the update says, and held for `hold`; if it was `taken` it is as old as
      `now`, else as old as it was; and the other routes are as they were. */
  ghost predicate Heard(s: Slot, t: Slot, key: Key, u: Update, cost: U16, add: U16, taken: bool, now: int, hold: int) {
    && Keys(t) == Keys(s) + (if taken then {key} else {})
    && (forall e :: e in t && KeyOf(e) == key ==>
          && e.r == Route(u.id, u.seqno, u.refmetric, cost, add, e.r.installed)
          && e.holdTime == hold && (taken ==> e.time == now))
    && (forall d, e :: d in s && e in t && KeyOf(e) == KeyOf(d) ==>
          if KeyOf(d) == key then !taken ==> e.time == d.time else Wire(e) == Wire(d))
  }

  /** The entry that an update makes. */
  ghost predicate Says(f: Entry, u: Update, cost: U16, add: U16, time: int, hold: int) {
    f.r == Route(u.id, u.seqno, u.refmetric, cost, add, f.r.installed) && f.time == time && f.holdTime == hold
  }

  /** A route is alive up to its hold time and no longer. */
  lemma {:induction false} AliveUntil(e: Entry, now: int, hold: int, sources: Sources)
    requires e.time == now && e.holdTime == hold
    ensures forall later :: UsableIn(sources, later, e) ==> later <= now + hold
    ensures forall later :: later <= now + hold && FeasibleIn(sources, later, e) ==> UsableIn(sources, later, e)
  {
  }

  lemma {:induction false} WiresKeys(s: Slot, t: Slot)
    requires Wires(t) == Wires(s)
    ensures Keys(t) == Keys(s) && forall e :: e in t ==> exists d :: d in s && Wire(d) == Wire(e)
  {
    forall e | e in t ensures exists d :: d in s && Wire(d) == Wire(e) { assert Wire(e) in Wires(t); }
    forall k | k in Keys(t) ensures k in Keys(s) {
      var e :| e in t && KeyOf(e) == k;
      var d :| d in s && Wire(d) == Wire(e);
    }
    forall k | k in Keys(s) ensures k in Keys(t) {
      var d :| d in s && KeyOf(d) == k;
      assert Wire(d) in Wires(s);
      var e :| e in t && Wire(e) == Wire(d);
    }
  }

  lemma {:induction false} SameKeySame(s: Slot, d: Entry, e: Entry)
    requires UniqueKeys(s) && d in s && e in s && KeyOf(d) == KeyOf(e)
    ensures d == e
  {
    var i :| 0 <= i < |s| && s[i] == d;
    var j :| 0 <= j < |s| && s[j] == e;
  }

  lemma {:induction false} HeardExisting(s: Slot, j: nat, f: Entry, t: Slot, u: Update, cost: U16, add: U16, taken: bool, now: int, hold: int)
    requires UniqueKeys(s) && j < |s| && LinkOf(f) == LinkOf(s[j]) && Wires(t) == Wires(s[j := f])
    requires Says(f, u, cost, add, if taken then now else s[j].time, hold)
    ensures Heard(s, t, KeyOf(f), u, cost, add, taken, now, hold)
  {
    var x := s[j := f];
    UpdateUnique(s, j, f);
    WiresKeys(x, t);
    KeysUpdated(s, j, f);
    hide Keys, Wires;
    forall e | e in t ensures KeyOf(e) == KeyOf(f) ==> Wire(e) == Wire(f) {
      var d :| d in x && Wire(d) == Wire(e);
      assert x[j] == f;
      if KeyOf(e) == KeyOf(f) { SameKeySame(x, d, f); }
    }
    forall d, e | d in s && e in t && KeyOf(e) == KeyOf(d) && KeyOf(d) != KeyOf(f) ensures Wire(e) == Wire(d) {
      var c :| c in x && Wire(c) == Wire(e);
      StillThere(s, j, f, d);
      SameKeySame(x, c, d);
    }
    forall d | d in s && KeyOf(d) == KeyOf(f) ensures d == s[j] { SameKeySame(s, d, s[j]); }
    forall e | e in t && KeyOf(e) == KeyOf(f)
      ensures e.r == Route(u.id, u.seqno, u.refmetric, cost, add, e.r.installed) && e.holdTime == hold && e.time == f.time
    {
      SameWire(e, f);
    }
  }

  lemma {:induction false} SameWire(e: Entry, f: Entry)
    requires Wire(e) == Wire(f)
    ensures e.r == f.r.(installed := e.r.installed) && e.time == f.time && e.holdTime == f.holdTime && KeyOf(e) == KeyOf(f)
  {
    assert Wire(e).r == Wire(f).r && Wire(e).time == Wire(f).time && Wire(e).holdTime == Wire(f).holdTime;
    assert Wire(e).neigh == Wire(f).neigh && Wire(e).nexthop == Wire(f).nexthop;
  }

  lemma {:induction false} StillThere(s: Slot, j: nat, f: Entry, d: Entry)
    requires j < |s| && LinkOf(f) == LinkOf(s[j]) && d in s && KeyOf(d) != KeyOf(f)
    ensures d in s[j := f]
  {
    var i :| 0 <= i < |s| && s[i] == d;
    assert s[j := f][i] == d;
  }

  lemma {:induction false} KeysUpdated(s: Slot, j: nat, f: Entry)
    requires j < |s| && KeyOf(f) == KeyOf(s[j])
    ensures Keys(s[j := f]) == Keys(s) && KeyOf(f) in Keys(s)
  {
    var u := s[j := f];
    forall k | k in Keys(s) ensures k in Keys(u) {
      var e :| e in s && KeyOf(e) == k;
      var i :| 0 <= i < |s| && s[i] == e;
      assert u[i] in u && KeyOf(u[i]) == k;
    }
    forall k | k in Keys(u) ensures k in Keys(s) {
      var e :| e in u && KeyOf(e) == k;
      var i :| 0 <= i < |u| && u[i] == e;
      assert s[i] in s && KeyOf(s[i]) == k;
    }
    assert s[j] in s;
  }

  lemma {:induction false} HeardNew(s: Slot, f: Entry, t: Slot, u: Update, cost: U16, add: U16, now: int, hold: int)
    requires UniqueKeys(s) && KeyOf(f) !in Keys(s) && Wires(t) == Wires(s + [f]) && Says(f, u, cost, add, now, hold)
    ensures Heard(s, t, KeyOf(f), u, cost, add, true, now, hold)
  {
    var x := s + [f];
    WiresKeys(x, t);
    KeysConcat(s, [f]);
    KeysSingle(f);
    hide Wires;
    forall e | e in t && KeyOf(e) == KeyOf(f)
      ensures e.r == Route(u.id, u.seqno, u.refmetric, cost, add, e.r.installed) && e.holdTime == hold && e.time == now
    {
      var d :| d in x && Wire(d) == Wire(e);
      SameWire(e, d);
      assert d in s ==> KeyOf(d) in Keys(s);
    }
    forall d, e | d in s && e in t && KeyOf(e) == KeyOf(d) ensures Wire(e) == Wire(d) && KeyOf(d) != KeyOf(f) {
      assert KeyOf(d) in Keys(s);
      var c :| c in x && Wire(c) == Wire(e);
      SameWire(e, c);
      SameKeySame(s, c, d);
    }
  }

  lemma {:induction false} HeardNone(s: Slot, key: Key, u: Update, cost: U16, add: U16, now: int, hold: int)
    requires UniqueKeys(s) && key !in Keys(s)
    ensures Heard(s, s, key, u, cost, add, false, now, hold)
  {
    forall e | e in s ensures KeyOf(e) != key { assert KeyOf(e) in Keys(s); }
    forall d, e | d in s && e in s && KeyOf(e) == KeyOf(d) ensures d == e { SameKeySame(s, d, e); }
  }

  lemma {:induction false} ShuffledTrans(s: Slot, t: Slot, u: Slot)
    requires Shuffled(s, t) && Shuffled(t, u)
    ensures Shuffled(s, u)
  {
  }

  lemma {:induction false} SmoothShuffled(s: Slot, t: Slot)
    requires SmoothEq(s, t)
    ensures Shuffled(s, t)
  {
    SmoothEqMap(s, t);
    WiresEach(s, t);
    hide Refs, Wires;
  }

  lemma {:induction false} WiresConcat(s: Slot, t: Slot)
    ensures Wires(s + t) == Wires(s) + Wires(t)
  {
    hide Wire;
    forall l | l in Wires(s) + Wires(t) ensures l in Wires(s + t) {
      if l in Wires(s) {
        var e :| e in s && Wire(e) == l;
        assert e in s + t;
      } else {
        var e :| e in t && Wire(e) == l;
        assert e in s + t;
      }
    }
  }

  lemma {:induction false} WiresSingle(e: Entry)
    ensures Wires([e]) == {Wire(e)}
  {
    assert e in [e];
  }

  lemma {:induction false} SwitchShuffled(s: Slot, j: nat)
    requires SlotOk(s) && j < |s|
    ensures Shuffled(s, SwitchedTo(s, j))
  {
    hide SlotOk, SlotMap, Refs, Wires;
    SwitchedOk(s, j);
    var u := Uninstalled(s);
    var v := u[j := SetInstalled(u[j], true)];
    WiresEach(s, v);
    WiresToFront(v, j);
  }

  lemma {:induction false} WiresWithout(s: Slot, j: nat)
    requires UniqueKeys(s) && j < |s|
    ensures Wires(Without(s, j)) == Wires(s) - {Wire(s[j])}
  {
    hide Wires;
    var x, y := s[..j], s[j + 1..];
    assert s == x + [s[j]] + y;
    WiresConcat(x + [s[j]], y);
    WiresConcat(x, [s[j]]);
    WiresConcat(x, y);
    WiresSingle(s[j]);
    assert forall e :: e in x || e in y ==> KeyOf(e) != KeyOf(s[j]);
    WireElsewhere(x, s[j]);
    WireElsewhere(y, s[j]);
  }

  lemma {:induction false} WireKey(d: Entry, e: Entry)
    ensures Wire(d) == Wire(e) ==> KeyOf(d) == KeyOf(e)
  {
    if Wire(d) == Wire(e) { SameWire(d, e); }
  }

  lemma {:induction false} WireElsewhere(s: Slot, e: Entry)
    requires forall d :: d in s ==> KeyOf(d) != KeyOf(e)
    ensures Wire(e) !in Wires(s)
  {
    forall d | d in s ensures Wire(d) != Wire(e) { WireKey(d, e); }
  }

  lemma {:induction false} UpdateShuffled(s: Slot, j: nat, e: Entry)
    requires j < |s| && Wire(e) == Wire(s[j])
    ensures Shuffled(s, s[j := e])
  {
    hide Wires, Refs;
    SameWire(e, s[j]);
    WiresEach(s, s[j := e]);
    UpdateAltered(s, j, e);
  }

  lemma {:induction false} UpdateAltered(s: Slot, j: nat, e: Entry)
    requires j < |s| && e.r.id == s[j].r.id
    ensures Altered(s, s[j := e])
  {
    hide Refs;
    forall id ensures Refs(s[j := e], id) == Refs(s, id) { RefsUpdate(s, j, e, id); }
  }

  /** Only slot `i` changed, and only the prefix it is for. */
  ghost predicate SlotOnly(t: Table, u: Table, i: nat) {
    && i < |t| == |u| && SlotsOk(t) && SlotsOk(u)
    && u == t[i := u[i]] && u[i][0].prefix == t[i][0].prefix
    && forall q :: q != t[i][0].prefix ==> SlotFor(u, q) == SlotFor(t, q)
  }

  lemma {:induction false} OneSlot(t: Table, i: nat, at: nat)
    requires TableOk(t) && i < |t| && at < |t| && t[i][0].prefix == t[at][0].prefix
    ensures i == at
  {
    assert forall a, b :: 0 <= a < b < |t| ==> t[a][0].prefix != t[b][0].prefix;
  }

  /** Slot `i` holds the routes it held, in another order. */
  ghost predicate Moved(t: Table, u: Table, i: nat) { SlotOnly(t, u, i) && Shuffled(t[i], u[i]) }

  /** Slot `i` holds as many routes as it held, for the same sources. */
  ghost predicate AlteredAt(t: Table, u: Table, i: nat) { SlotOnly(t, u, i) && Altered(t[i], u[i]) }

  lemma {:induction false} MovedAltered(t: Table, u: Table, i: nat)
    requires Moved(t, u, i)
    ensures AlteredAt(t, u, i) && Wires(u[i]) == Wires(t[i])
  {
  }

  lemma {:induction false} AlteredTrans(t: Table, u: Table, v: Table, i: nat)
    requires AlteredAt(t, u, i) && AlteredAt(u, v, i)
    ensures AlteredAt(t, v, i)
  {
    hide Refs;
    assert v == t[i := v[i]];
  }

  lemma {:induction false} MovedTrans(t: Table, u: Table, v: Table, i: nat)
    requires Moved(t, u, i) && Moved(u, v, i)
    ensures Moved(t, v, i)
  {
    ShuffledTrans(t[i], u[i], v[i]);
    hide Shuffled;
    assert v == t[i := v[i]];
  }

  /** One route of slot `i` changed and kept its link and source. */
  lemma {:induction false} RouteUpdated(t: Table, u: Table, i: nat, j: nat, e: Entry)
    requires TableOk(t) && TableOk(u) && i < |t| && j < |t[i]| && u == t[i := t[i][j := e]]
    requires LinkOf(e) == LinkOf(t[i][j]) && e.prefix == t[i][j].prefix && e.r.id == t[i][j].r.id
    ensures AlteredAt(t, u, i)
    ensures var m := SlotMap(SlotFor(t, t[i][0].prefix));
            && SlotMap(SlotFor(u, t[i][0].prefix)) == m[KeyOf(e) := e.r]
            && KeyOf(e) in m && m[KeyOf(e)] == t[i][j].r
  {
    UpdateAltered(t[i], j, e);
    SlotForAt(t, i);
    SlotForAt(u, i);
    SlotMapUpdate(t[i], j, e);
    SlotMapAt(t[i], j);
    hide Altered, SlotMap;
    ReplaceSlot(t, i, u[i]);
  }

  /** One route of slot `i` changed, perhaps its source too. */
  lemma {:induction false} RouteReassigned(t: Table, u: Table, i: nat, j: nat, e: Entry)
    requires TableOk(t) && TableOk(u) && i < |t| && j < |t[i]| && u == t[i := t[i][j := e]]
    requires LinkOf(e) == LinkOf(t[i][j]) && e.prefix == t[i][j].prefix
    ensures SlotOnly(t, u, i) && OnlySlot(t, u, t[i][0].prefix, t[i][j := e])
    ensures SlotMap(SlotFor(u, t[i][0].prefix)) == SlotMap(SlotFor(t, t[i][0].prefix))[KeyOf(e) := e.r]
  {
    SlotForAt(t, i);
    SlotForAt(u, i);
    SlotMapUpdate(t[i], j, e);
    hide SlotMap;
    ReplaceSlot(t, i, u[i]);
  }

  // ------------------------------------------------------------------
  // Removing and adding a route
  // ------------------------------------------------------------------

  /** flush_route unlinks a route, and its slot when that was the last one. */
  function FlushedTable(t: Table, i: nat, j: nat): Table
    requires i < |t| && j < |t[i]|
  {
    var rest := Without(t[i], j);
    if rest == [] then t[..i] + t[i + 1..] else t[i := rest]
  }

  /** `u` is `t` without the route at `j` of slot `i`, that slot perhaps rearranged. */
  ghost predicate Flushed(t: Table, u: Table, i: nat, j: nat) {
    && SlotsOk(t) && SlotsOk(u) && i < |t| && j < |t[i]|
    && (if |t[i]| == 1 then u == t[..i] + t[i + 1..]
        else |u| == |t| && u == t[i := u[i]] && |u[i]| == |t[i]| - 1 && u[i][0].prefix == t[i][0].prefix)
    && Wires(SlotFor(u, t[i][0].prefix)) == Wires(t[i]) - {Wire(t[i][j])}
    && forall q :: q != t[i][0].prefix ==> SlotFor(u, q) == SlotFor(t, q)
  }

  lemma {:induction false} FlushedIndex(t: Table, u: Table, i: nat, j: nat, at: nat)
    requires TableOk(t) && TableOk(u) && Flushed(t, u, i, j) && at < |u| && u[at][0].prefix == t[i][0].prefix
    ensures |t[i]| > 1 && at == i
  {
    var w: Table := t[..i] + t[i + 1..];
    assert forall k :: 0 <= k < |t| && k != i ==> t[k][0].prefix != t[i][0].prefix;
    assert forall k :: 0 <= k < |w| ==> w[k] == t[if k < i then k else k + 1];
  }

  lemma {:induction false} FlushedMoved(t: Table, u: Table, v: Table, i: nat, j: nat)
    requires TableOk(u) && TableOk(v) && Flushed(t, u, i, j) && |t[i]| > 1 && Moved(u, v, i)
    ensures Flushed(t, v, i, j)
  {
    SlotForAt(u, i);
    SlotForAt(v, i);
    assert v == t[i := v[i]];
  }

  lemma {:induction false} MovedFlushed(t: Table, u: Table, v: Table, i: nat, j: nat)
    requires TableOk(t) && TableOk(u) && Moved(t, u, i) && Flushed(u, v, i, j) && j < |t[i]| && Wire(u[i][j]) == Wire(t[i][j])
    ensures Flushed(t, v, i, j)
  {
    assert |t[i]| == 1 ==> v == t[..i] + t[i + 1..];
    assert |t[i]| > 1 ==> v == t[i := v[i]];
  }

  lemma {:induction false} AllOkFrom(t: Table, u: Table, p: Prefix, s: Slot, kernel: Kernel, xs: seq<Xroute>,
                                     sources: Sources, sources': Sources, id: RouterId, kernelMetric: nat)
    requires AllOk(t, kernel, xs, sources, id, kernelMetric) && TableOk(u) && OnlySlot(t, u, p, s)
    requires sources.Keys <= sources'.Keys
    requires PrefixOk(s, p, Lookup(kernel, p), XrouteAt(xs, p), sources', id, kernelMetric)
    ensures AllOk(u, kernel, xs, sources', id, kernelMetric)
  {
    forall q ensures PrefixOk(SlotFor(u, q), q, Lookup(kernel, q), XrouteAt(xs, q), sources', id, kernelMetric) {
      assert PrefixOk(SlotFor(t, q), q, Lookup(kernel, q), XrouteAt(xs, q), sources, id, kernelMetric);
      hide SlotFor, FibFor, XrouteAt;
    }
  }

  lemma {:induction false} FlushKeepsAll(t: Table, i: nat, j: nat, kernel: Kernel, xs: seq<Xroute>, sources: Sources, id: RouterId, kernelMetric: nat)
    requires AllOk(t, kernel, xs, sources, id, kernelMetric) && i < |t| && j < |t[i]| && !t[i][j].r.installed
    ensures AllOk(FlushedTable(t, i, j), kernel, xs, sources, id, kernelMetric)
    ensures OnlySlot(t, FlushedTable(t, i, j), t[i][0].prefix, Without(t[i], j))
    ensures Flushed(t, FlushedTable(t, i, j), i, j)
  {
    var p, rest := t[i][0].prefix, Without(t[i], j);
    PrefixOkAt(t, i, kernel, xs, sources, id, kernelMetric);
    WithoutSlotOk(t[i], j);
    WiresWithout(t[i], j);
    if rest == [] { RemoveSlot(t, i); } else { ReplaceSlot(t, i, rest); }
    assert forall k :: 0 <= k < |rest| ==> rest[k] == t[i][if k < j then k else k + 1];
    hide SlotFor, SlotOk, TableOk;
    AllOkFrom(t, FlushedTable(t, i, j), p, rest, kernel, xs, sources, sources, id, kernelMetric);
  }

  /** insert_route: at the end of its slot, or in a new slot at `n`. */
  function InsertedTable(t: Table, i: int, n: nat, e: Entry): Table
    requires i < |t| && (i < 0 ==> n <= |t|)
  {
    if i < 0 then t[..n] + [[e]] + t[n..] else t[i := t[i] + [e]]
  }

  lemma {:induction false} InsertKeepsAll(t: Table, i: int, n: nat, e: Entry, kernel: Kernel, xs: seq<Xroute>, sources: Sources, id: RouterId, kernelMetric: nat)
    requires AllOk(t, kernel, xs, sources, id, kernelMetric) && i < |t|
    requires if i < 0 then Gap(t, e.prefix, n) else t[i][0].prefix == e.prefix && KeyOf(e) !in Keys(t[i])
    requires !e.r.installed && SourceKey(e.r.id, e.prefix) in sources && e.r.id != id
    ensures AllOk(InsertedTable(t, i, n, e), kernel, xs, sources, id, kernelMetric)
    ensures OnlySlot(t, InsertedTable(t, i, n, e), e.prefix, SlotFor(t, e.prefix) + [e])
  {
    var s := SlotFor(t, e.prefix);
    if i < 0 {
      AppendSlotOk([], e);
      assert [] + [e] == [e];
      InsertSlot(t, n, [e]);
      assert s + [e] == [e];
    } else {
      SlotForAt(t, i);
      AppendSlotOk(t[i], e);
      ReplaceSlot(t, i, t[i] + [e]);
    }
    assert PrefixOk(s, e.prefix, Lookup(kernel, e.prefix), XrouteAt(xs, e.prefix), sources, id, kernelMetric);
    hide SlotFor, SlotOk, TableOk;
    AllOkFrom(t, InsertedTable(t, i, n, e), e.prefix, s + [e], kernel, xs, sources, sources, id, kernelMetric);
  }

  // ------------------------------------------------------------------
  // Flushing all routes of a kind
  // ------------------------------------------------------------------

  predicate V4Mapped(addr: nat) { addr / 0x1_0000_0000 == 0xFFFF }

  /** What flush_neighbour_routes and flush_interface_routes look for. */
  datatype Match = OfNeighbour(id: nat) | OfInterface(ifindex: nat, v4only: bool)

  predicate Matches(m: Match, neigh: Neighbour, nexthop: nat) {
    match m
    case OfNeighbour(id) => neigh.id == id
    case OfInterface(ifindex, v4only) => neigh.ifindex == ifindex && (v4only ==> V4Mapped(nexthop))
  }

  /** The routes that stay when all that match are flushed. */
  ghost function Unmatched(m: Match, ws: set<Entry>): set<Entry> {
    set w | w in ws && !Matches(m, w.neigh, w.nexthop)
  }

  /** Those of other neighbours; or of other interfaces, and when only IPv4 is flushed
      those with a next hop outside ::ffff:0:0/96. */
  lemma {:induction false} UnmatchedMeans(ws: set<Entry>, w: Entry, id: nat, ifindex: nat)
    requires w in ws
    ensures w in Unmatched(OfNeighbour(id), ws) <==> w.neigh.id != id
    ensures w in Unmatched(OfInterface(ifindex, false), ws) <==> w.neigh.ifindex != ifindex
    ensures w in Unmatched(OfInterface(ifindex, true), ws)
            <==> w.neigh.ifindex != ifindex || w.nexthop < 0xFFFF_0000_0000 || w.nexthop >= 0x1_0000_0000_0000
  {
  }

  ghost predicate NoMatch(m: Match, s: Slot) {
    forall j :: 0 <= j < |s| ==> !Matches(m, s[j].neigh, s[j].nexthop)
  }

  /** So far only matching routes have gone. */
  ghost predicate Flushing(t: Table, u: Table, m: Match)
    requires SlotsOk(t) && SlotsOk(u)
  {
    forall q :: Unmatched(m, Wires(SlotFor(t, q))) <= Wires(SlotFor(u, q)) <= Wires(SlotFor(t, q))
  }

  lemma {:induction false} FlushingOn(t: Table, u: Table, v: Table, m: Match, i: nat, j: nat)
    requires TableOk(t) && TableOk(u) && TableOk(v) && Flushing(t, u, m) && Flushed(u, v, i, j)
    requires Matches(m, u[i][j].neigh, u[i][j].nexthop)
    ensures Flushing(t, v, m)
  {
    SlotForAt(u, i);
    hide SlotFor, Wires;
    forall q ensures Unmatched(m, Wires(SlotFor(t, q))) <= Wires(SlotFor(v, q)) <= Wires(SlotFor(t, q)) {
      assert Unmatched(m, Wires(SlotFor(t, q))) <= Wires(SlotFor(u, q)) <= Wires(SlotFor(t, q));
    }
  }

  /** The first `i` slots have no route that matches. */
  ghost predicate MatchFree(m: Match, t: Table, i: nat) { i <= |t| && forall k :: 0 <= k < i ==> NoMatch(m, t[k]) }

  lemma {:induction false} MatchFreeNone(m: Match, t: Table)
    ensures MatchFree(m, t, 0)
  {
  }

  lemma {:induction false} MatchFreeMore(m: Match, t: Table, i: nat)
    requires MatchFree(m, t, i) && i < |t| && NoMatch(m, t[i])
    ensures MatchFree(m, t, i + 1)
  {
    hide NoMatch;
  }

  lemma {:induction false} MatchFreeSame(m: Match, t: Table, u: Table, i: nat)
    requires MatchFree(m, t, i) && i <= |u| && u[..i] == t[..i]
    ensures MatchFree(m, u, i)
  {
    hide NoMatch;
    forall k | 0 <= k < i ensures NoMatch(m, u[k]) { assert u[k] == u[..i][k] == t[..i][k] == t[k]; }
  }

  lemma {:induction false} FlushingDone(t: Table, u: Table, m: Match)
    requires TableOk(t) && TableOk(u) && Flushing(t, u, m) && MatchFree(m, u, |u|)
    ensures forall q :: Wires(SlotFor(u, q)) == Unmatched(m, Wires(SlotFor(t, q)))
  {
    forall q ensures Wires(SlotFor(u, q)) == Unmatched(m, Wires(SlotFor(t, q))) {
      assert Unmatched(m, Wires(SlotFor(t, q))) <= Wires(SlotFor(u, q)) <= Wires(SlotFor(t, q));
      if SlotFor(u, q) != [] {
        var k := SlotForIndex(u, q);
        assert NoMatch(m, u[k]);
      }
    }
  }

  /** How many routes the table holds. */
  ghost function Total(t: Table): nat { if t == [] then 0 else |t[0]| + Total(t[1..]) }

  lemma {:induction false} TotalConcat(t: Table, u: Table)
    ensures Total(t + u) == Total(t) + Total(u)
  {
    if t == [] {
      assert t + u == u;
    } else {
      assert (t + u)[1..] == t[1..] + u;
      TotalConcat(t[1..], u);
    }
  }

  lemma {:induction false} TotalSplit(t: Table, i: nat)
    requires i < |t|
    ensures Total(t) == Total(t[..i]) + |t[i]| + Total(t[i + 1..])
  {
    assert t == t[..i] + ([t[i]] + t[i + 1..]);
    TotalConcat(t[..i], [t[i]] + t[i + 1..]);
    assert ([t[i]] + t[i + 1..])[1..] == t[i + 1..];
  }

  lemma {:induction false} FlushedTotal(t: Table, u: Table, i: nat, j: nat)
    requires Flushed(t, u, i, j)
    ensures Total(u) == Total(t) - 1 && i <= |u| && u[..i] == t[..i]
  {
    TotalSplit(t, i);
    if |t[i]| == 1 {
      TotalConcat(t[..i], t[i + 1..]);
    } else {
      TotalSplit(u, i);
      assert u[..i] == t[..i] && u[i + 1..] == t[i + 1..];
    }
  }

  // ------------------------------------------------------------------
  // Redistributed routes
  // ------------------------------------------------------------------

  ghost predicate UniqueXroutes(xs: seq<Xroute>) {
    forall i, j :: 0 <= i < j < |xs| ==> xs[i].prefix != xs[j].prefix
  }

  lemma {:induction false} XrouteAtIndex(xs: seq<Xroute>, k: nat)
    requires UniqueXroutes(xs) && k < |xs|
    ensures XrouteAt(xs, xs[k].prefix) == Some(xs[k].metric)
  {
    if k > 0 { XrouteAtIndex(xs[1..], k - 1); }
  }

  lemma {:induction false} XrouteAtNone(xs: seq<Xroute>, p: Prefix)
    ensures XrouteAt(xs, p).None? <==> forall k :: 0 <= k < |xs| ==> xs[k].prefix != p
  {
    if xs != [] {
      XrouteAtNone(xs[1..], p);
      assert forall k :: 0 < k < |xs| ==> xs[k] == xs[1..][k - 1];
    }
  }

  /** Arrays with the same entries answer alike. */
  lemma {:induction false} XrouteAtSame(xs: seq<Xroute>, ys: seq<Xroute>, p: Prefix)
    requires UniqueXroutes(xs) && UniqueXroutes(ys)
    requires forall k :: 0 <= k < |xs| && xs[k].prefix == p ==> xs[k] in ys
    requires forall k :: 0 <= k < |ys| && ys[k].prefix == p ==> ys[k] in xs
    ensures XrouteAt(ys, p) == XrouteAt(xs, p)
  {
    XrouteAtNone(xs, p);
    XrouteAtNone(ys, p);
    if k :| 0 <= k < |xs| && xs[k].prefix == p {
      XrouteAtIndex(xs, k);
      var l :| 0 <= l < |ys| && ys[l] == xs[k];
      XrouteAtIndex(ys, l);
    }
  }

  /** The array after add_xroute: a lower metric replaces, a new prefix goes last. */
  function AddedXroute(xs: seq<Xroute>, k: int, p: Prefix, metric: U16): seq<Xroute>
    requires k < |xs|
  {
    if k >= 0 then xs[k := xs[k].(metric := metric)] else xs + [Xroute(p, metric)]
  }

  lemma {:induction false} AddedXrouteAt(xs: seq<Xroute>, k: int, p: Prefix, metric: U16, q: Prefix)
    requires UniqueXroutes(xs) && k < |xs|
    requires if k >= 0 then xs[k].prefix == p else XrouteAt(xs, p).None?
    ensures UniqueXroutes(AddedXroute(xs, k, p, metric))
    ensures XrouteAt(AddedXroute(xs, k, p, metric), q) == if q == p then Some(metric) else XrouteAt(xs, q)
  {
    var ys := AddedXroute(xs, k, p, metric);
    XrouteAtNone(xs, p);
    assert UniqueXroutes(ys);
    if q == p {
      XrouteAtIndex(ys, if k >= 0 then k else |xs|);
    } else {
      assert forall l :: 0 <= l < |xs| && xs[l].prefix == q ==> ys[l] == xs[l];
      XrouteAtSame(xs, ys, q);
    }
  }

  lemma {:induction false} AddedXroutes(xs: seq<Xroute>, k: int, p: Prefix, metric: U16)
    requires UniqueXroutes(xs) && k < |xs| && (if k >= 0 then xs[k].prefix == p else XrouteAt(xs, p).None?)
    ensures UniqueXroutes(AddedXroute(xs, k, p, metric))
    ensures forall q :: XrouteAt(AddedXroute(xs, k, p, metric), q) == if q == p then Some(metric) else XrouteAt(xs, q)
  {
    hide XrouteAt, UniqueXroutes, AddedXroute;
    AddedXrouteAt(xs, k, p, metric, p);
    forall q ensures XrouteAt(AddedXroute(xs, k, p, metric), q) == if q == p then Some(metric) else XrouteAt(xs, q) {
      AddedXrouteAt(xs, k, p, metric, q);
    }
  }

  /** flush_xroute: the last entry takes the place of the one that goes. */
  function RemovedXroute(xs: seq<Xroute>, k: nat): seq<Xroute>
    requires k < |xs|
  {
    xs[k := xs[|xs| - 1]][..|xs| - 1]
  }

  lemma {:induction false} RemovedXrouteAt(xs: seq<Xroute>, k: nat, q: Prefix)
    requires UniqueXroutes(xs) && k < |xs|
    ensures UniqueXroutes(RemovedXroute(xs, k))
    ensures XrouteAt(RemovedXroute(xs, k), q) == if q == xs[k].prefix then None else XrouteAt(xs, q)
  {
    var ys := RemovedXroute(xs, k);
    assert forall l :: 0 <= l < |ys| ==> ys[l] == xs[if l == k then |xs| - 1 else l];
    if q == xs[k].prefix {
      XrouteAtNone(ys, q);
    } else {
      assert forall l :: 0 <= l < |xs| && l != k ==> xs[l] == ys[if l == |xs| - 1 then k else l];
      XrouteAtSame(xs, ys, q);
    }
  }

  lemma {:induction false} RemovedXroutes(xs: seq<Xroute>, k: nat)
    requires UniqueXroutes(xs) && k < |xs|
    ensures UniqueXroutes(RemovedXroute(xs, k))
    ensures forall q :: XrouteAt(RemovedXroute(xs, k), q) == if q == xs[k].prefix then None else XrouteAt(xs, q)
  {
    hide XrouteAt, UniqueXroutes, RemovedXroute;
    RemovedXrouteAt(xs, k, xs[k].prefix);
    forall q ensures XrouteAt(RemovedXroute(xs, k), q) == if q == xs[k].prefix then None else XrouteAt(xs, q) {
      RemovedXrouteAt(xs, k, q);
    }
  }

  /** Changing the redistributed route of one prefix keeps all in order, if
      nothing is installed there. */
  lemma {:induction false} XrouteKeepsAll(t: Table, p: Prefix, xs: seq<Xroute>, ys: seq<Xroute>, kernel: Kernel, sources: Sources, id: RouterId, kernelMetric: nat)
    requires AllOk(t, kernel, xs, sources, id, kernelMetric)
    requires forall q :: q != p ==> XrouteAt(ys, q) == XrouteAt(xs, q)
    requires XrouteAt(ys, p).Some? ==> SlotFor(t, p) == [] || !SlotFor(t, p)[0].r.installed
    ensures AllOk(t, kernel, ys, sources, id, kernelMetric)
  {
    hide SlotFor, XrouteAt, FibFor, Sorted, SlotOk;
    forall q ensures PrefixOk(SlotFor(t, q), q, Lookup(kernel, q), XrouteAt(ys, q), sources, id, kernelMetric) {
      assert PrefixOk(SlotFor(t, q), q, Lookup(kernel, q), XrouteAt(xs, q), sources, id, kernelMetric);
    }
  }

  /** Only the head could be installed, and it is not. */
  lemma {:induction false} NothingInstalled(s: Slot, k: Key)
    requires (s == [] || (SlotOk(s) && !s[0].r.installed)) && k in SlotMap(s)
    ensures !SlotMap(s)[k].installed
  {
    if s != [] { SlotMapInstalled(s, k); }
  }

  // ------------------------------------------------------------------
  // Expiring sources
  // ------------------------------------------------------------------

  /** expire_sources brings back a time stamp from the future first. */
  function Clamped(src: Source, now: int): Source { if src.time > now then src.(time := now) else src }

  predicate Outlives(c: Counted, now: int) { c.count > 0 || !Stale(Clamped(c.src, now), now) }

  function Expired(sources: Sources, now: int): Sources {
    map sk | sk in sources && Outlives(sources[sk], now) :: sources[sk].(src := Clamped(sources[sk].src, now))
  }

  lemma {:induction false} ExpiredAt(sources: Sources, now: int, sk: SourceKey)
    requires sk in sources
    ensures Lookup(Expired(sources, now), sk)
         == if Outlives(sources[sk], now) then Some(sources[sk].(src := Clamped(sources[sk].src, now))) else None
  {
  }

  lemma {:induction false} ExpiredMeans(m: Sources, now: int)
    ensures var r := Expired(m, now);
            && (forall sk :: sk in r <==> sk in m && (m[sk].count > 0 || m[sk].src.time + SOURCE_GC_TIME >= now))
            && (forall sk :: sk in r ==>
                  r[sk] == m[sk].(src := m[sk].src.(time := r[sk].src.time))
                  && r[sk].src.time == if m[sk].src.time > now then now else m[sk].src.time)
  {
  }

  /** One turn of expire_sources. */
  function ExpireOne(m: Sources, sk: SourceKey, now: int): Sources
    requires sk in m
  {
    var c := if m[sk].src.time > now then m[sk].(src := m[sk].src.(time := now)) else m[sk];
    if Stale(c.src, now) && c.count == 0 then m - {sk} else m[sk := c]
  }

  /** `m` is `o` with all but the sources of `todo` looked at. */
  ghost predicate HalfExpired(o: Sources, m: Sources, todo: set<SourceKey>, now: int) {
    forall sk :: Lookup(m, sk) == Lookup(if sk in todo then o else Expired(o, now), sk)
  }

  lemma {:induction false} ExpireStep(o: Sources, m: Sources, todo: set<SourceKey>, sk: SourceKey, now: int)
    requires HalfExpired(o, m, todo, now) && sk in todo && todo <= o.Keys
    ensures sk in m && HalfExpired(o, ExpireOne(m, sk, now), todo - {sk}, now)
  {
    ExpiredAt(o, now, sk);
    hide Expired;
    assert Lookup(m, sk) == Lookup(o, sk);
    var m', todo' := ExpireOne(m, sk, now), todo - {sk};
    forall k ensures Lookup(m', k) == Lookup(if k in todo' then o else Expired(o, now), k) {
      assert Lookup(m, k) == Lookup(if k in todo then o else Expired(o, now), k);
    }
  }

  lemma {:induction false} ExpireDone(o: Sources, m: Sources, now: int)
    requires HalfExpired(o, m, {}, now)
    ensures m == Expired(o, now)
  {
    var e := Expired(o, now);
    hide Expired;
    assert forall sk :: sk in m <==> Lookup(m, sk).Some?;
    assert forall sk :: sk in e <==> Lookup(e, sk).Some?;
    assert forall sk :: sk in e ==> Lookup(m, sk) == Lookup(e, sk);
  }

  /** A source in use is never freed, so nothing that refers to one breaks. */
  lemma {:induction false} ExpiredKeepsAll(t: Table, kernel: Kernel, xs: seq<Xroute>, sources: Sources, id: RouterId, kernelMetric: nat, now: int)
    requires AllOk(t, kernel, xs, sources, id, kernelMetric) && Counts(t, sources, None)
    ensures AllOk(t, kernel, xs, Expired(sources, now), id, kernelMetric) && Counts(t, Expired(sources, now), None)
  {
    hide FibFor, XrouteAt, Sorted, SlotOk;
    forall q ensures PrefixOk(SlotFor(t, q), q, Lookup(kernel, q), XrouteAt(xs, q), Expired(sources, now), id, kernelMetric) {
      var s := SlotFor(t, q);
      assert PrefixOk(s, q, Lookup(kernel, q), XrouteAt(xs, q), sources, id, kernelMetric);
      hide SlotFor;
      forall j | 0 <= j < |s| ensures SourceKey(s[j].r.id, q) in Expired(sources, now) {
        RefsPositive(s, j);
      }
    }
  }

  lemma {:induction false} RefsPositive(s: Slot, j: nat)
    requires j < |s|
    ensures Refs(s, s[j].r.id) > 0
  {
    RefsSplit(s, j, s[j].r.id);
  }

  // ------------------------------------------------------------------
  // Reference counts
  // ------------------------------------------------------------------

  /** Each source's count is the number of routes that point at it, and one more
      for a reference that is being moved. */
  ghost predicate Counts(t: Table, sources: Sources, held: Option<SourceKey>)
    requires SlotsOk(t)
  {
    forall sk :: sk in sources ==>
      sources[sk].count == Refs(SlotFor(t, sk.prefix), sk.id) + (if held == Some(sk) then 1 else 0)
  }

  /** retain_source */
  function Retain(sources: Sources, k: SourceKey): Sources
    requires k in sources
  {
    sources[k := sources[k].(count := sources[k].count + 1)]
  }

  /** release_source */
  function Release(sources: Sources, k: SourceKey): Sources
    requires k in sources && sources[k].count > 0
  {
    sources[k := sources[k].(count := sources[k].count - 1)]
  }

  lemma {:induction false} CountsMoved(t: Table, u: Table, i: nat, sources: Sources, held: Option<SourceKey>)
    requires TableOk(t) && TableOk(u) && Moved(t, u, i) && Counts(t, sources, held)
    ensures Counts(u, sources, held)
  {
    hide Counts;
    MovedAltered(t, u, i);
    CountsAltered(t, u, i, sources, held);
  }

  lemma {:induction false} CountsAltered(t: Table, u: Table, i: nat, sources: Sources, held: Option<SourceKey>)
    requires TableOk(t) && TableOk(u) && AlteredAt(t, u, i) && Counts(t, sources, held)
    ensures Counts(u, sources, held)
  {
    SlotForAt(t, i);
    SlotForAt(u, i);
    hide SlotFor, Refs, TableOk, SlotOk;
    assert forall sk: SourceKey :: Refs(SlotFor(u, sk.prefix), sk.id) == Refs(SlotFor(t, sk.prefix), sk.id);
  }

  lemma {:induction false} CountsFlushed(t: Table, u: Table, i: nat, j: nat, sources: Sources)
    requires TableOk(t) && SlotsOk(u) && i < |t| && j < |t[i]| && Counts(t, sources, None)
    requires OnlySlot(t, u, t[i][0].prefix, Without(t[i], j))
    ensures Counts(u, sources, Some(SourceKey(t[i][j].r.id, t[i][0].prefix)))
  {
    SlotForAt(t, i);
    hide SlotFor, Refs, TableOk, SlotOk, Without;
    forall sk | sk in sources ensures Refs(SlotFor(t, sk.prefix), sk.id) == Refs(SlotFor(u, sk.prefix), sk.id)
      + (if sk == SourceKey(t[i][j].r.id, t[i][0].prefix) then 1 else 0)
    {
      RefsWithout(t[i], j, sk.id);
    }
  }

  lemma {:induction false} CountsInserted(t: Table, u: Table, e: Entry, sources: Sources)
    requires SlotsOk(t) && SlotsOk(u) && Counts(t, sources, None) && SourceKey(e.r.id, e.prefix) in sources
    requires OnlySlot(t, u, e.prefix, SlotFor(t, e.prefix) + [e])
    ensures Counts(u, Retain(sources, SourceKey(e.r.id, e.prefix)), None)
  {
    forall sk | sk in sources ensures Refs(SlotFor(u, sk.prefix), sk.id) == Refs(SlotFor(t, sk.prefix), sk.id)
      + (if sk == SourceKey(e.r.id, e.prefix) then 1 else 0)
    {
      RefsConcat(SlotFor(t, e.prefix), [e], sk.id);
      RefsSingle(e, sk.id);
      hide SlotFor, Refs, SlotOk;
    }
  }

  lemma {:induction false} RefsSingle(e: Entry, id: RouterId)
    ensures Refs([e], id) == if e.r.id == id then 1 else 0
  {
    assert [e][1..] == [];
  }

  /** Pointing a route at another source: retain the new one, still hold the old. */
  lemma {:induction false} CountsReassigned(t: Table, u: Table, i: nat, j: nat, e: Entry, sources: Sources)
    requires TableOk(t) && SlotsOk(u) && i < |t| && j < |t[i]| && Counts(t, sources, None)
    requires OnlySlot(t, u, t[i][0].prefix, t[i][j := e]) && SourceKey(e.r.id, t[i][0].prefix) in sources
    ensures Counts(u, Retain(sources, SourceKey(e.r.id, t[i][0].prefix)), Some(SourceKey(t[i][j].r.id, t[i][0].prefix)))
  {
    var p := t[i][0].prefix;
    SlotForAt(t, i);
    hide SlotFor, Refs, TableOk, SlotOk;
    forall sk | sk in sources
      ensures Refs(SlotFor(u, sk.prefix), sk.id) + (if sk == SourceKey(t[i][j].r.id, p) then 1 else 0)
           == Refs(SlotFor(t, sk.prefix), sk.id) + (if sk == SourceKey(e.r.id, p) then 1 else 0)
    {
      RefsUpdate(t[i], j, e, sk.id);
    }
  }

  /** A new source starts with no references, and no route points at it yet. */
  lemma {:induction false} CountsNewSource(t: Table, kernel: Kernel, xs: seq<Xroute>, sources: Sources, id: RouterId, kernelMetric: nat,
                                           k: SourceKey, src: Source)
    requires AllOk(t, kernel, xs, sources, id, kernelMetric) && Counts(t, sources, None) && k !in sources
    ensures AllOk(t, kernel, xs, sources[k := Counted(src, 0)], id, kernelMetric)
    ensures Counts(t, sources[k := Counted(src, 0)], None)
  {
    var s := SlotFor(t, k.prefix);
    assert PrefixOk(s, k.prefix, Lookup(kernel, k.prefix), XrouteAt(xs, k.prefix), sources, id, kernelMetric);
    RefsNone(s, k.id);
    hide SlotFor, FibFor, XrouteAt, TableOk, Refs;
    assert forall q :: PrefixOk(SlotFor(t, q), q, Lookup(kernel, q), XrouteAt(xs, q), sources, id, kernelMetric);
  }

  lemma {:induction false} RefsNone(s: Slot, id: RouterId)
    requires forall j :: 0 <= j < |s| ==> s[j].r.id != id
    ensures Refs(s, id) == 0
  {
    if s != [] { RefsNone(s[1..], id); }
  }

  /** The distances a router keeps for one prefix. */
  function SourcesAt(m: Sources, p: Prefix): map<RouterId, Source> {
    map id | id in (set sk | sk in m && sk.prefix == p :: sk.id) && SourceKey(id, p) in m :: m[SourceKey(id, p)].src
  }

  lemma {:induction false} SourcesAtKey(m: Sources, p: Prefix, id: RouterId)
    ensures id in SourcesAt(m, p) <==> SourceKey(id, p) in m
    ensures SourceKey(id, p) in m ==> SourcesAt(m, p)[id] == m[SourceKey(id, p)].src
  {
    if SourceKey(id, p) in m { assert SourceKey(id, p).prefix == p; }
  }

  /** Counting references does not touch the distances. */
  lemma {:induction false} SourcesAtSame(m: Sources, m': Sources, p: Prefix)
    requires m.Keys == m'.Keys && forall sk :: sk in m ==> m[sk].src == m'[sk].src
    ensures SourcesAt(m, p) == SourcesAt(m', p)
  {
    forall id ensures id in SourcesAt(m, p) <==> id in SourcesAt(m', p)
    ensures id in SourcesAt(m, p) ==> SourcesAt(m, p)[id] == SourcesAt(m', p)[id] {
      SourcesAtKey(m, p, id);
      SourcesAtKey(m', p, id);
    }
  }

  lemma {:induction false} SourcesAtSet(m: Sources, k: SourceKey, c: Counted, p: Prefix)
    ensures SourcesAt(m[k := c], p) == if k.prefix == p then SourcesAt(m, p)[k.id := c.src] else SourcesAt(m, p)
  {
    var m' := m[k := c];
    var r := if k.prefix == p then SourcesAt(m, p)[k.id := c.src] else SourcesAt(m, p);
    forall id ensures id in SourcesAt(m', p) <==> id in r
    ensures id in r ==> SourcesAt(m', p)[id] == r[id] {
      SourcesAtKey(m, p, id);
      SourcesAtKey(m', p, id);
    }
  }

  // ------------------------------------------------------------------
  // No usable route is left unused
  // ------------------------------------------------------------------

  /** route_feasible; a source that is not there counts as feasible, as a null
      pointer does in update_feasible. */
  predicate FeasibleIn(sources: Sources, now: int, e: Entry) {
    SourceKey(e.r.id, e.prefix) in sources
    ==> UpdateFeasible(sources[SourceKey(e.r.id, e.prefix)].src, now, e.r.seqno, e.r.refmetric)
  }

  /** Feasible and not expired. */
  predicate UsableIn(sources: Sources, now: int, e: Entry) { e.time >= now - e.holdTime && FeasibleIn(sources, now, e) }

  /** If a prefix has a usable route and is not redistributed, one is installed. */
  ghost predicate ServedIn(s: Slot, xroute: Option<U16>, sources: Sources, now: int) {
    xroute.None? && (exists k :: 0 <= k < |s| && UsableIn(sources, now, s[k])) ==> s[0].r.installed
  }

  /** Nothing that was installed has gone without a replacement; if nothing is
      installed, nothing was moved either. */
  ghost predicate Kept(s: Slot, r: Slot) {
    s != [] && r != [] && (s[0].r.installed ==> r[0].r.installed) && (r[0].r.installed || SmoothEq(s, r))
  }

  lemma {:induction false} SmoothEqTrans(s: Slot, t: Slot, u: Slot)
    requires SmoothEq(s, t) && SmoothEq(t, u)
    ensures SmoothEq(s, u)
  {
  }

  lemma {:induction false} SmoothKept(s: Slot, t: Slot)
    requires SmoothEq(s, t) && s != []
    ensures Kept(s, t)
  {
  }

  lemma {:induction false} KeptTrans(s: Slot, t: Slot, u: Slot)
    requires Kept(s, t) && Kept(t, u)
    ensures Kept(s, u)
  {
    if !u[0].r.installed { SmoothEqTrans(s, t, u); }
  }

  /** Counting references, and sources of other routes, make no difference. */
  lemma {:induction false} ServedSources(s: Slot, xroute: Option<U16>, m: Sources, m': Sources, now: int)
    requires forall k :: 0 <= k < |s| ==>
               var sk := SourceKey(s[k].r.id, s[k].prefix);
               sk in m && sk in m' && m'[sk].src == m[sk].src
    ensures ServedIn(s, xroute, m', now) == ServedIn(s, xroute, m, now)
  {
    assert forall k :: 0 <= k < |s| ==> UsableIn(m', now, s[k]) == UsableIn(m, now, s[k]);
  }

  lemma {:induction false} ServedElsewhere(t: Table, u: Table, p: Prefix, kernel: Kernel, xs: seq<Xroute>, m: Sources, m': Sources,
                                           id: RouterId, kernelMetric: nat, now: int)
    requires AllOk(t, kernel, xs, m, id, kernelMetric) && SlotsOk(u) && forall q :: q != p ==> SlotFor(u, q) == SlotFor(t, q)
    requires m.Keys <= m'.Keys && forall sk :: sk in m ==> m'[sk].src == m[sk].src
    ensures forall q :: q != p ==> ServedIn(SlotFor(u, q), XrouteAt(xs, q), m', now) == ServedIn(SlotFor(t, q), XrouteAt(xs, q), m, now)
  {
    forall q | q != p
      ensures ServedIn(SlotFor(t, q), XrouteAt(xs, q), m', now) == ServedIn(SlotFor(t, q), XrouteAt(xs, q), m, now)
    {
      EntriesOf(t, q, kernel, xs, m, id, kernelMetric);
      hide SlotFor, XrouteAt, AllOk, ServedIn;
      ServedSources(SlotFor(t, q), XrouteAt(xs, q), m, m', now);
    }
  }

  /** The routes to `q` are all for `q`, and their sources are there. */
  lemma {:induction false} EntriesOf(t: Table, q: Prefix, kernel: Kernel, xs: seq<Xroute>, m: Sources, id: RouterId, kernelMetric: nat)
    requires AllOk(t, kernel, xs, m, id, kernelMetric)
    ensures forall k :: 0 <= k < |SlotFor(t, q)| ==>
              SlotFor(t, q)[k].prefix == q && SourceKey(SlotFor(t, q)[k].r.id, SlotFor(t, q)[k].prefix) in m
  {
    assert PrefixOk(SlotFor(t, q), q, Lookup(kernel, q), XrouteAt(xs, q), m, id, kernelMetric);
    if SlotFor(t, q) != [] { var i := SlotForIndex(t, q); }
  }

  /** A change to the route at `j`, acted upon, leaves the prefix served. */
  lemma {:induction false} ServedKept(s: Slot, j: nat, e: Entry, r: Slot, xroute: Option<U16>, sources: Sources, now: int)
    requires j < |s| && ServedIn(s, xroute, sources, now) && Kept(s[j := e], r) && (j == 0 ==> e.r.installed == s[0].r.installed)
    requires xroute.None? && UsableIn(sources, now, e) ==> r[0].r.installed
    ensures ServedIn(r, xroute, sources, now)
  {
    if xroute.None? && !r[0].r.installed {
      forall k | 0 <= k < |r| ensures !UsableIn(sources, now, r[k]) {
        assert UsableIn(sources, now, r[k]) == UsableIn(sources, now, s[j := e][k]);
        if k != j { assert s[j := e][k] == s[k]; }
      }
    }
  }

  /** The same for a new route at the end of the slot. */
  lemma {:induction false} ServedNew(s: Slot, e: Entry, r: Slot, xroute: Option<U16>, sources: Sources, now: int)
    requires ServedIn(s, xroute, sources, now) && Kept(s + [e], r)
    requires xroute.None? && FeasibleIn(sources, now, e) ==> r[0].r.installed
    ensures ServedIn(r, xroute, sources, now)
  {
    if xroute.None? && !r[0].r.installed {
      forall k | 0 <= k < |r| ensures !UsableIn(sources, now, r[k]) {
        assert UsableIn(sources, now, r[k]) == UsableIn(sources, now, (s + [e])[k]);
        if k < |s| { assert (s + [e])[k] == s[k] && (s + [e])[0] == s[0]; }
      }
    }
  }

  /** The same for a route that is gone. */
  lemma {:induction false} ServedWithout(s: Slot, j: nat, xroute: Option<U16>, sources: Sources, now: int)
    requires j < |s| && ServedIn(s, xroute, sources, now) && !s[j].r.installed
    ensures ServedIn(Without(s, j), xroute, sources, now)
  {
    var r := Without(s, j);
    if xroute.None? {
      if k :| 0 <= k < |r| && UsableIn(sources, now, r[k]) {
        assert r[k] == s[if k < j then k else k + 1];
        assert j != 0 && r[0] == s[0];
      }
    }
  }

  lemma {:induction false} ServedEverywhere(t: Table, kernel: Kernel, xs: seq<Xroute>, m: Sources, m': Sources,
                                            id: RouterId, kernelMetric: nat, now: int)
    requires AllOk(t, kernel, xs, m, id, kernelMetric)
    requires m.Keys <= m'.Keys && forall sk :: sk in m ==> m'[sk].src == m[sk].src
    ensures forall q :: ServedIn(SlotFor(t, q), XrouteAt(xs, q), m', now) == ServedIn(SlotFor(t, q), XrouteAt(xs, q), m, now)
  {
    forall q ensures ServedIn(SlotFor(t, q), XrouteAt(xs, q), m', now) == ServedIn(SlotFor(t, q), XrouteAt(xs, q), m, now) {
      EntriesOf(t, q, kernel, xs, m, id, kernelMetric);
      hide SlotFor, XrouteAt, AllOk, ServedIn;
      ServedSources(SlotFor(t, q), XrouteAt(xs, q), m, m', now);
    }
  }

  /** Expiring sources makes no difference to the routes that have one. */
  lemma {:induction false} ServedExpired(s: Slot, xroute: Option<U16>, m: Sources, now: int)
    requires forall k :: 0 <= k < |s| ==> SourceKey(s[k].r.id, s[k].prefix) in m && m[SourceKey(s[k].r.id, s[k].prefix)].count > 0
    ensures ServedIn(s, xroute, Expired(m, now), now) == ServedIn(s, xroute, m, now)
  {
    forall k | 0 <= k < |s| ensures UsableIn(Expired(m, now), now, s[k]) == UsableIn(m, now, s[k]) {
      ExpiredAt(m, now, SourceKey(s[k].r.id, s[k].prefix));
    }
    hide Expired, UsableIn;
  }

  lemma {:induction false} ServedAllExpired(t: Table, kernel: Kernel, xs: seq<Xroute>, m: Sources, id: RouterId, kernelMetric: nat, now: int)
    requires AllOk(t, kernel, xs, m, id, kernelMetric) && Counts(t, m, None)
    ensures forall q :: ServedIn(SlotFor(t, q), XrouteAt(xs, q), Expired(m, now), now) == ServedIn(SlotFor(t, q), XrouteAt(xs, q), m, now)
  {
    forall q ensures ServedIn(SlotFor(t, q), XrouteAt(xs, q), Expired(m, now), now) == ServedIn(SlotFor(t, q), XrouteAt(xs, q), m, now) {
      var s := SlotFor(t, q);
      EntriesOf(t, q, kernel, xs, m, id, kernelMetric);
      hide SlotFor, XrouteAt, AllOk, ServedIn, Expired;
      forall k | 0 <= k < |s| ensures m[SourceKey(s[k].r.id, s[k].prefix)].count > 0 { RefsPositive(s, k); }
      ServedExpired(s, XrouteAt(xs, q), m, now);
    }
  }
}
