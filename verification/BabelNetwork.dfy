/**
 Any number of Babel routers exchanging updates for one prefix over links that
 lose, reorder and duplicate messages, and per-source loop freedom (sections
 2.4, 3.5.1 and 3.7.3 of RFC 6126).

 `grounded` is a history variable: the installed routes whose source was given
 to them by a finite feasible update.  The protocol code does not keep it.
 */
module BabelNetwork {
  import opened Common
  import opened BabelNode

  datatype Message = Message(from: nat, u: Update)

  datatype Net = Net(now: int, nodes: seq<Node>, messages: set<Message>, grounded: set<(nat, Key)>)

  datatype Action =
    | Local(n: nat, a: Step)
    | Deliver(n: nat, m: Message, via: nat, cost: U16, addMetric: U16, keepUnfeasible: bool)
    | SendRoute(n: nat, key: Key, noninterfering: bool, factor: nat, outMetric: nat)
    | SendOwn(n: nat, outMetric: nat)
    | SendRetraction(n: nat)
    | Lose(kept: set<Message>)
    | Tick(seconds: nat)

  /** What really_send_update puts in the packet after its output filter. */
  function Filtered(metric: U16, outMetric: nat): U16 { MinInf(metric as int + outMetric) }

  ghost predicate Enabled(s: Net, a: Action) {
    match a
    case Local(n, st) => n < |s.nodes| && !st.Accept? && !st.Announced? && PositiveStep(st) && Can(s.nodes[n], s.now, st)
    case Deliver(n, m, _, cost, _, _) => n < |s.nodes| && m in s.messages && cost >= 1
    case SendRoute(n, k, noninterfering, factor, _) =>
      n < |s.nodes| && Can(s.nodes[n], s.now, Announced(k, noninterfering, factor))
    case SendOwn(n, _) => n < |s.nodes| && s.nodes[n].xroute.Some?
    case SendRetraction(n) => n < |s.nodes|
    case Lose(kept) => kept <= s.messages
    case Tick(_) => true
  }

  /** Accepting a finite feasible update grounds a route; taking over another
      source in any other way ungrounds it. */
  ghost function GroundedAfterDeliver(s: Net, n: nat, key: Key, u: Update): set<(nat, Key)>
    requires n < |s.nodes|
  {
    var node := s.nodes[n];
    if u.id == node.id || key !in node.routes then s.grounded
    else
      var src := FindSource(node.sources, u.id, u.seqno, s.now)[u.id];
      if u.refmetric < INFINITY && UpdateFeasible(src, s.now, u.seqno, u.refmetric) then s.grounded + {(n, key)}
      else if u.id != node.routes[key].id then s.grounded - {(n, key)}
      else s.grounded
  }

  /** Installing grounds a route exactly when it is not a retracted one. */
  ghost function GroundedAfterStep(s: Net, n: nat, st: Step): set<(nat, Key)>
    requires n < |s.nodes| && Can(s.nodes[n], s.now, st)
  {
    if st.Install? || st.Switch? then
      if s.nodes[n].routes[st.key].refmetric < INFINITY then s.grounded + {(n, st.key)} else s.grounded - {(n, st.key)}
    else s.grounded
  }

  ghost function Next(s: Net, a: Action): Net
    requires Enabled(s, a)
  {
    match a
    case Local(n, st) =>
      s.(nodes := s.nodes[n := Do(s.nodes[n], s.now, st)], grounded := GroundedAfterStep(s, n, st))
    case Deliver(n, m, via, cost, add, keep) =>
      var key := Key(m.from, via);
      s.(nodes := s.nodes[n := DoAccept(s.nodes[n], s.now, key, m.u, cost, add, keep)],
         grounded := GroundedAfterDeliver(s, n, key, m.u))
    case SendRoute(n, k, noninterfering, factor, out) =>
      var r := s.nodes[n].routes[k];
      var metric := AnnouncedMetric(r, noninterfering, factor);
      s.(nodes := s.nodes[n := Do(s.nodes[n], s.now, Announced(k, noninterfering, factor))],
         messages := s.messages + {Message(n, Update(r.id, r.seqno, Filtered(metric, out)))})
    case SendOwn(n, out) =>
      var u := Update(s.nodes[n].id, s.nodes[n].myseqno, Filtered(s.nodes[n].xroute.value, out));
      s.(messages := s.messages + {Message(n, u)})
    case SendRetraction(n) =>
      s.(messages := s.messages + {Message(n, Update(s.nodes[n].id, s.nodes[n].myseqno, INFINITY))})
    case Lose(kept) => s.(messages := kept)
    case Tick(seconds) => s.(now := s.now + seconds)
  }

  // ------------------------------------------------------------------
  // Standing assumptions: live sources and sequence numbers in half a circle
  // ------------------------------------------------------------------

  ghost predicate Fresh(s: Net) {
    forall n, id :: 0 <= n < |s.nodes| && id in s.nodes[n].sources ==> !Stale(s.nodes[n].sources[id], s.now)
  }

  ghost predicate WindowFor(s: Net, id: RouterId, base: U16) {
    && (forall n :: 0 <= n < |s.nodes| && id in s.nodes[n].sources ==> InWindow(base, s.nodes[n].sources[id].seqno))
    && (forall n, k :: 0 <= n < |s.nodes| && k in s.nodes[n].routes && s.nodes[n].routes[k].id == id
            && s.nodes[n].routes[k].refmetric < INFINITY
          ==> InWindow(base, s.nodes[n].routes[k].seqno))
    && (forall m :: m in s.messages && m.u.id == id ==> InWindow(base, m.u.seqno))
  }

  ghost predicate HasWindow(s: Net, id: RouterId) { exists base: U16 :: WindowFor(s, id, base) }

  ghost predicate Windowed(s: Net) { forall id: RouterId :: HasWindow(s, id) }

  // ------------------------------------------------------------------
  // The invariant
  // ------------------------------------------------------------------

  ghost predicate Distinct(s: Net) {
    forall i, j :: 0 <= i < j < |s.nodes| ==> s.nodes[i].id != s.nodes[j].id
  }

  /** Node `b` has committed itself to a distance at least as good as `u`. */
  ghost predicate Backed(s: Net, b: nat, u: Update) {
    && b < |s.nodes|
    && (u.refmetric < INFINITY && u.id != s.nodes[b].id ==>
          u.id in s.nodes[b].sources
          && AtLeastAsGood(s.nodes[b].sources[u.id].seqno, s.nodes[b].sources[u.id].metric, u.seqno, u.refmetric))
  }

  /** The feasibility distance of `b` is strictly better than that of `a`. */
  ghost predicate Descends(s: Net, a: nat, b: nat, id: RouterId) {
    && a < |s.nodes| && b < |s.nodes|
    && (id != s.nodes[b].id ==>
          id in s.nodes[a].sources && id in s.nodes[b].sources
          && Better(s.nodes[b].sources[id].seqno, s.nodes[b].sources[id].metric,
                    s.nodes[a].sources[id].seqno, s.nodes[a].sources[id].metric))
  }

  ghost predicate MessagesBacked(s: Net) { forall m :: m in s.messages ==> Backed(s, m.from, m.u) }

  ghost predicate RoutesBacked(s: Net) {
    forall n, k :: 0 <= n < |s.nodes| && k in s.nodes[n].routes ==> Backed(s, k.peer, Held(s.nodes[n].routes[k]))
  }

  /** The update a route was last given. */
  function Held(r: Route): Update { Update(r.id, r.seqno, r.refmetric) }

  ghost predicate EdgesDescend(s: Net) {
    forall n, k :: 0 <= n < |s.nodes| && k in s.nodes[n].routes && s.nodes[n].routes[k].installed && (n, k) in s.grounded
      ==> Descends(s, n, k.peer, s.nodes[n].routes[k].id)
  }

  ghost predicate NodesOk(s: Net) { forall n :: 0 <= n < |s.nodes| ==> NodeInv(s.nodes[n]) && PositiveCosts(s.nodes[n]) }

  ghost predicate Inv(s: Net) {
    NodesOk(s) && Distinct(s) && MessagesBacked(s) && RoutesBacked(s) && EdgesDescend(s)
  }

  // ------------------------------------------------------------------
  // Order inside a window
  // ------------------------------------------------------------------

  lemma {:induction false} AtLeastTrans(base: U16, a: U16, x: U16, b: U16, y: U16, c: U16, z: U16)
    requires InWindow(base, a) && InWindow(base, b) && InWindow(base, c)
    requires AtLeastAsGood(a, x, b, y) && AtLeastAsGood(b, y, c, z)
    ensures AtLeastAsGood(a, x, c, z)
    ensures Better(a, x, b, y) || Better(b, y, c, z) ==> Better(a, x, c, z)
  {
    hide Rank, Better, AtLeastAsGood;
    BetterIsRank(base, a, x, b, y);
    BetterIsRank(base, b, y, c, z);
    BetterIsRank(base, a, x, c, z);
  }

  // ------------------------------------------------------------------
  // Every action keeps the invariant
  // ------------------------------------------------------------------

  /** Only node `n` changed, and it kept its id and every source it had. */
  ghost predicate OnlyNode(s: Net, t: Net, n: nat) {
    && n < |s.nodes| == |t.nodes|
    && t.nodes[n].id == s.nodes[n].id
    && (forall i :: 0 <= i < |s.nodes| && i != n ==> t.nodes[i] == s.nodes[i])
  }

  ghost predicate KeepsSources(x: Node, y: Node) {
    forall id :: id in x.sources ==> id in y.sources && y.sources[id] == x.sources[id]
  }

  lemma {:induction false} BackedKept(s: Net, t: Net, n: nat, b: nat, u: Update)
    requires OnlyNode(s, t, n) && KeepsSources(s.nodes[n], t.nodes[n]) && Backed(s, b, u)
    ensures Backed(t, b, u)
  {
  }

  lemma {:induction false} DescendsKept(s: Net, t: Net, n: nat, a: nat, b: nat, id: RouterId)
    requires OnlyNode(s, t, n) && KeepsSources(s.nodes[n], t.nodes[n]) && Descends(s, a, b, id)
    ensures Descends(t, a, b, id)
  {
  }

  /** The sources for `id` lie in the window at `base` and none is stale. */
  ghost predicate SourcesIn(s: Net, id: RouterId, base: U16) {
    forall n :: 0 <= n < |s.nodes| && id in s.nodes[n].sources ==>
      InWindow(base, s.nodes[n].sources[id].seqno) && !Stale(s.nodes[n].sources[id], s.now)
  }

  /** A route that holds a finite update better than our own distance descends. */
  lemma {:induction false} FeasibleDescends(s: Net, a: nat, b: nat, u: Update, base: U16)
    requires a < |s.nodes| && Backed(s, b, u) && u.refmetric < INFINITY
    requires SourcesIn(s, u.id, base) && InWindow(base, u.seqno)
    requires u.id in s.nodes[a].sources && UpdateFeasible(s.nodes[a].sources[u.id], s.now, u.seqno, u.refmetric)
    ensures Descends(s, a, b, u.id)
  {
    if u.id != s.nodes[b].id {
      var fa, fb := s.nodes[a].sources[u.id], s.nodes[b].sources[u.id];
      assert Better(u.seqno, u.refmetric, fa.seqno, fa.metric);
      AtLeastTrans(base, fb.seqno, fb.metric, u.seqno, u.refmetric, fa.seqno, fa.metric);
    }
  }

  lemma {:induction false} MessagesStayBacked(s: Net, t: Net, n: nat)
    requires OnlyNode(s, t, n) && KeepsSources(s.nodes[n], t.nodes[n]) && MessagesBacked(s) && t.messages == s.messages
    ensures MessagesBacked(t)
  {
    forall m | m in t.messages ensures Backed(t, m.from, m.u) {
      BackedKept(s, t, n, m.from, m.u);
    }
  }

  /** Routes stay backed when those of node `n` hold nothing finite and new. */
  lemma {:induction false} RoutesStayBacked(s: Net, t: Net, n: nat)
    requires OnlyNode(s, t, n) && KeepsSources(s.nodes[n], t.nodes[n]) && RoutesBacked(s)
    requires forall k :: k in t.nodes[n].routes ==>
               (k in s.nodes[n].routes && (Held(t.nodes[n].routes[k]) == Held(s.nodes[n].routes[k])
                                           || t.nodes[n].routes[k].refmetric == INFINITY))
               || Backed(s, k.peer, Held(t.nodes[n].routes[k]))
    ensures RoutesBacked(t)
  {
    forall i, k | 0 <= i < |t.nodes| && k in t.nodes[i].routes ensures Backed(t, k.peer, Held(t.nodes[i].routes[k])) {
      if i != n {
        BackedKept(s, t, n, k.peer, Held(s.nodes[i].routes[k]));
      } else {
        assert k in s.nodes[n].routes ==> Backed(s, k.peer, Held(s.nodes[n].routes[k]));
        BackedKept(s, t, n, k.peer, Held(t.nodes[n].routes[k]));
      }
    }
  }

  lemma {:induction false} EdgesStillDescend(s: Net, t: Net, n: nat)
    requires OnlyNode(s, t, n) && KeepsSources(s.nodes[n], t.nodes[n]) && EdgesDescend(s)
    requires forall i, k :: i != n ==> ((i, k) in t.grounded <==> (i, k) in s.grounded)
    requires forall k :: k in t.nodes[n].routes && t.nodes[n].routes[k].installed && (n, k) in t.grounded ==>
               (k in s.nodes[n].routes && s.nodes[n].routes[k].installed && (n, k) in s.grounded
                && s.nodes[n].routes[k].id == t.nodes[n].routes[k].id)
               || Descends(t, n, k.peer, t.nodes[n].routes[k].id)
    ensures EdgesDescend(t)
  {
    forall i, k | 0 <= i < |t.nodes| && k in t.nodes[i].routes && t.nodes[i].routes[k].installed && (i, k) in t.grounded
      ensures Descends(t, i, k.peer, t.nodes[i].routes[k].id)
    {
      if i != n {
        DescendsKept(s, t, n, i, k.peer, s.nodes[i].routes[k].id);
      } else if !Descends(t, n, k.peer, t.nodes[n].routes[k].id) {
        DescendsKept(s, t, n, n, k.peer, s.nodes[n].routes[k].id);
      }
    }
  }

  lemma {:induction false} NodesStayOk(s: Net, t: Net, n: nat)
    requires NodesOk(s) && Distinct(s) && OnlyNode(s, t, n) && NodeInv(t.nodes[n]) && PositiveCosts(t.nodes[n])
    ensures NodesOk(t) && Distinct(t)
  {
  }

  lemma {:induction false} FindWindow(s: Net, id: RouterId) returns (base: U16)
    requires Windowed(s) && Fresh(s)
    ensures WindowFor(s, id, base) && SourcesIn(s, id, base)
  {
    assert HasWindow(s, id);
    base :| WindowFor(s, id, base);
  }

  lemma {:induction false} LocalKeepsInv(s: Net, n: nat, st: Step)
    requires Inv(s) && Fresh(s) && Windowed(s) && Enabled(s, Local(n, st))
    ensures Inv(Next(s, Local(n, st)))
  {
    hide Do, NodeInv, PositiveCosts, UpdateFeasible, RouteMetric;
    var t := Next(s, Local(n, st));
    StepKeepsNodeInv(s.nodes[n], s.now, st);
    StepKeepsCosts(s.nodes[n], s.now, st);
    LocalFrame(s.nodes[n], s.now, st);
    NodesStayOk(s, t, n);
    MessagesStayBacked(s, t, n);
    RoutesStayBacked(s, t, n);
    if (st.Install? || st.Switch?) && s.nodes[n].routes[st.key].refmetric < INFINITY {
      var r := s.nodes[n].routes[st.key];
      assert Backed(s, st.key.peer, Held(r));
      var base := FindWindow(s, r.id);
      FeasibleDescends(s, n, st.key.peer, Held(r), base);
      DescendsKept(s, t, n, n, st.key.peer, r.id);
    }
    EdgesStillDescend(s, t, n);
  }

  /** What a local step leaves alone, apart from an accepted update or an announcement. */
  lemma {:induction false} LocalFrame(n: Node, now: int, st: Step)
    requires NodeInv(n) && Can(n, now, st) && !st.Accept? && !st.Announced?
    ensures var m := Do(n, now, st);
            && KeepsSources(n, m)
            && (forall k :: k in m.routes
                  ==> k in n.routes && m.routes[k].id == n.routes[k].id
                      && (Held(m.routes[k]) == Held(n.routes[k]) || m.routes[k].refmetric == INFINITY))
            && (forall k :: k in m.routes && m.routes[k].installed
                  ==> (if st.Install? || st.Switch? then k == st.key else n.routes[k].installed))
  {
  }

  lemma {:induction false} DeliverFrame(x: Node, now: int, key: Key, u: Update, cost: U16, add: U16, keep: bool)
    requires NodeInv(x)
    ensures var y := DoAccept(x, now, key, u, cost, add, keep);
            && KeepsSources(x, y) && y.id == x.id && RoutesAfter(x, y, key, u)
            && (u.id != x.id ==> y.sources == FindSource(x.sources, u.id, u.seqno, now))
  {
  }

  /** An installed, grounded route was grounded before or just took a feasible update. */
  ghost predicate GroundedRightly(s: Net, t: Net, n: nat, key: Key, u: Update)
    requires n < |s.nodes| == |t.nodes|
  {
    var x, y := s.nodes[n], t.nodes[n];
    key in y.routes && y.routes[key].installed && (n, key) in t.grounded ==>
      key in x.routes && x.routes[key].installed
      && (((n, key) in s.grounded && x.routes[key].id == y.routes[key].id) || (u.id != x.id && TookFeasible(t, n, u)))
  }

  ghost predicate TookFeasible(t: Net, n: nat, u: Update)
    requires n < |t.nodes|
  {
    u.refmetric < INFINITY && u.id in t.nodes[n].sources
    && UpdateFeasible(t.nodes[n].sources[u.id], t.now, u.seqno, u.refmetric)
  }

  lemma {:induction false} DeliverEdge(s: Net, a: Action)
    requires a.Deliver? && Enabled(s, a) && NodeInv(s.nodes[a.n])
    ensures GroundedRightly(s, Next(s, a), a.n, Key(a.m.from, a.via), a.m.u)
  {
  }

  lemma {:induction false} DeliverWindow(s: Net, t: Net, n: nat, u: Update, base: U16)
    requires SourcesIn(s, u.id, base) && InWindow(base, u.seqno) && OnlyNode(s, t, n) && t.now == s.now
    requires t.nodes[n].sources == FindSource(s.nodes[n].sources, u.id, u.seqno, s.now)
    ensures SourcesIn(t, u.id, base)
  {
  }

  /** A route of node `n` other than `key` is untouched; `key` now holds `u`. */
  ghost predicate RoutesAfter(x: Node, y: Node, key: Key, u: Update) {
    && (forall k :: k in y.routes && k != key ==> k in x.routes && y.routes[k] == x.routes[k])
    && (key in y.routes && u.id != x.id ==> Held(y.routes[key]) == u)
    && (u.id == x.id ==> y == x)
  }

  lemma {:induction false} DeliverDescends(s: Net, t: Net, n: nat, m: Message)
    requires Fresh(s) && Windowed(s) && OnlyNode(s, t, n) && t.now == s.now && m in s.messages
    requires t.nodes[n].sources == FindSource(s.nodes[n].sources, m.u.id, m.u.seqno, s.now)
    requires Backed(t, m.from, m.u) && TookFeasible(t, n, m.u)
    ensures Descends(t, n, m.from, m.u.id)
  {
    var base := FindWindow(s, m.u.id);
    assert InWindow(base, m.u.seqno);
    DeliverWindow(s, t, n, m.u, base);
    FeasibleDescends(t, n, m.from, m.u, base);
  }

  lemma {:induction false} DeliverEdges(s: Net, t: Net, n: nat, m: Message, key: Key)
    requires Inv(s) && Fresh(s) && Windowed(s) && OnlyNode(s, t, n) && t.now == s.now && m in s.messages && key.peer == m.from
    requires KeepsSources(s.nodes[n], t.nodes[n]) && RoutesAfter(s.nodes[n], t.nodes[n], key, m.u)
    requires m.u.id != s.nodes[n].id ==> t.nodes[n].sources == FindSource(s.nodes[n].sources, m.u.id, m.u.seqno, s.now)
    requires GroundedRightly(s, t, n, key, m.u)
    requires forall i, k :: i != n || k != key ==> ((i, k) in t.grounded <==> (i, k) in s.grounded)
    ensures EdgesDescend(t)
  {
    assert Backed(s, m.from, m.u);
    BackedKept(s, t, n, m.from, m.u);
    hide UpdateFeasible, NodeInv;
    if m.u.id != s.nodes[n].id && TookFeasible(t, n, m.u) { DeliverDescends(s, t, n, m); }
    EdgesStillDescend(s, t, n);
  }

  lemma {:induction false} DeliverRoutes(s: Net, t: Net, n: nat, m: Message, key: Key)
    requires Inv(s) && OnlyNode(s, t, n) && m in s.messages && key.peer == m.from
    requires KeepsSources(s.nodes[n], t.nodes[n]) && RoutesAfter(s.nodes[n], t.nodes[n], key, m.u)
    ensures RoutesBacked(t)
  {
    assert Backed(s, m.from, m.u);
    RoutesStayBacked(s, t, n);
  }

  lemma {:induction false} DeliverKeepsInv(s: Net, a: Action)
    requires Inv(s) && Fresh(s) && Windowed(s) && a.Deliver? && Enabled(s, a)
    ensures Inv(Next(s, a))
  {
    var n, m, key, t := a.n, a.m, Key(a.m.from, a.via), Next(s, a);
    StepKeepsNodeInv(s.nodes[n], s.now, Accept(key, m.u, a.cost, a.addMetric, a.keepUnfeasible));
    StepKeepsCosts(s.nodes[n], s.now, Accept(key, m.u, a.cost, a.addMetric, a.keepUnfeasible));
    DeliverFrame(s.nodes[n], s.now, key, m.u, a.cost, a.addMetric, a.keepUnfeasible);
    DeliverEdge(s, a);
    DeliverGrounded(s, n, key, m.u);
    assert OnlyNode(s, t, n) && t.now == s.now && t.messages == s.messages;
    hide Next, DoAccept, NodeInv, GroundedAfterDeliver;
    NodesStayOk(s, t, n);
    MessagesStayBacked(s, t, n);
    DeliverRoutes(s, t, n, m, key);
    DeliverEdges(s, t, n, m, key);
  }

  lemma {:induction false} DeliverGrounded(s: Net, n: nat, key: Key, u: Update)
    requires n < |s.nodes|
    ensures forall i, k :: i != n || k != key ==> ((i, k) in GroundedAfterDeliver(s, n, key, u) <==> (i, k) in s.grounded)
  {
  }

  // ------------------------------------------------------------------
  // Announcing the installed route
  // ------------------------------------------------------------------

  /** Node `n` improved its distance for `id` to `src`; nothing else changed. */
  ghost predicate Improved(s: Net, t: Net, n: nat, id: RouterId, src: Source) {
    && OnlyNode(s, t, n) && id in s.nodes[n].sources
    && t.nodes[n] == s.nodes[n].(sources := s.nodes[n].sources[id := src])
    && AtLeastAsGood(src.seqno, src.metric, s.nodes[n].sources[id].seqno, s.nodes[n].sources[id].metric)
  }

  lemma {:induction false} BackedImproved(s: Net, t: Net, n: nat, id: RouterId, src: Source, b: nat, u: Update, base: U16)
    requires Improved(s, t, n, id, src) && Backed(s, b, u)
    requires u.id == id && u.refmetric < INFINITY ==> SourcesIn(s, id, base) && InWindow(base, u.seqno) && InWindow(base, src.seqno)
    ensures Backed(t, b, u)
  {
    if b == n && u.id == id && u.refmetric < INFINITY && u.id != s.nodes[b].id {
      var f := s.nodes[n].sources[id];
      AtLeastTrans(base, src.seqno, src.metric, f.seqno, f.metric, u.seqno, u.refmetric);
    }
  }

  lemma {:induction false} DescendsImproved(s: Net, t: Net, n: nat, id: RouterId, src: Source, a: nat, b: nat, i: RouterId, base: U16)
    requires Improved(s, t, n, id, src) && Descends(s, a, b, i) && a != n
    requires SourcesIn(s, id, base) && InWindow(base, src.seqno)
    ensures Descends(t, a, b, i)
  {
    if b == n && i == id && id != s.nodes[n].id {
      var f, g := s.nodes[n].sources[id], s.nodes[a].sources[id];
      AtLeastTrans(base, src.seqno, src.metric, f.seqno, f.metric, g.seqno, g.metric);
    }
  }

  /** The announcing node itself: the route it announces is the one it forwards
      through, and what that route holds is better than what is announced. */
  lemma {:induction false} AnnouncedDescends(s: Net, t: Net, n: nat, k: Key, r: Route, src: Source, metric: U16, base: U16)
    requires Improved(s, t, n, r.id, src) && k in s.nodes[n].routes && s.nodes[n].routes[k] == r && r.id != s.nodes[n].id
    requires SourcesIn(s, r.id, base) && InWindow(base, r.seqno)
    requires Backed(s, k.peer, Held(r)) && r.refmetric < metric < INFINITY
    requires Descends(s, n, k.peer, r.id)
    requires (src.seqno == r.seqno && src.metric == metric)
             || (src.seqno == s.nodes[n].sources[r.id].seqno && src.metric == s.nodes[n].sources[r.id].metric)
    ensures Descends(t, n, k.peer, r.id)
  {
    if r.id != s.nodes[k.peer].id {
      var f, g := s.nodes[k.peer].sources[r.id], s.nodes[n].sources[r.id];
      assert k.peer != n by { NotBetterThanItself(f.seqno, f.metric); }
      if src.seqno == r.seqno && src.metric == metric {
        AtLeastTrans(base, f.seqno, f.metric, r.seqno, r.refmetric, r.seqno, metric);
      }
    }
  }

  lemma {:induction false} NotBetterThanItself(s: U16, m: U16)
    ensures !Better(s, m, s, m)
  {
  }

  /** What an announcement of route `k` with a finite metric does to the sources. */
  lemma {:induction false} SendImproves(s: Net, a: Action)
    requires Inv(s) && Fresh(s) && a.SendRoute? && Enabled(s, a)
    ensures var r := s.nodes[a.n].routes[a.key];
            var metric := AnnouncedMetric(r, a.noninterfering, a.factor);
            var src := UpdateSource(s.nodes[a.n].sources[r.id], s.now, r.seqno, metric);
            && r.refmetric <= metric
            && (metric < INFINITY ==>
                  && Improved(s, Next(s, a), a.n, r.id, src) && r.refmetric < metric
                  && AtLeastAsGood(src.seqno, src.metric, r.seqno, metric)
                  && ((src.seqno == r.seqno && src.metric == metric)
                      || (src.seqno == s.nodes[a.n].sources[r.id].seqno && src.metric == s.nodes[a.n].sources[r.id].metric)))
            && (metric >= INFINITY ==> Next(s, a).nodes == s.nodes)
  {
    var r := s.nodes[a.n].routes[a.key];
    var metric := AnnouncedMetric(r, a.noninterfering, a.factor);
    MetricGrows(r, a.factor);
    if metric < INFINITY {
      UpdateSourceImproves(s.nodes[a.n].sources[r.id], s.now, r.seqno, metric);
    } else {
      assert s.nodes[a.n].sources[r.id := s.nodes[a.n].sources[r.id]] == s.nodes[a.n].sources;
    }
  }

  lemma {:induction false} SendRouteKeepsInv(s: Net, a: Action)
    requires Inv(s) && Fresh(s) && Windowed(s) && a.SendRoute? && Enabled(s, a)
    ensures Inv(Next(s, a))
  {
    var n, k, t := a.n, a.key, Next(s, a);
    var r := s.nodes[n].routes[k];
    var metric := AnnouncedMetric(r, a.noninterfering, a.factor);
    var m := Message(n, Update(r.id, r.seqno, Filtered(metric, a.outMetric)));
    SendImproves(s, a);
    StepKeepsNodeInv(s.nodes[n], s.now, Announced(k, a.noninterfering, a.factor));
    StepKeepsCosts(s.nodes[n], s.now, Announced(k, a.noninterfering, a.factor));
    assert t.messages == s.messages + {m} && t.grounded == s.grounded && OnlyNode(s, t, n);
    hide Next, NodeInv, AnnouncedMetric;
    NodesStayOk(s, t, n);
    if metric < INFINITY {
      var src := UpdateSource(s.nodes[n].sources[r.id], s.now, r.seqno, metric);
      hide UpdateSource;
      var base := FindWindow(s, r.id);
      SendMessages(s, t, n, r.id, src, base, m, metric);
      SendRoutes(s, t, n, r.id, src, base);
      SendEdges(s, t, n, k, r, src, metric, base);
    } else {
      assert Filtered(metric, a.outMetric) == INFINITY;
    }
  }

  lemma {:induction false} SendMessages(s: Net, t: Net, n: nat, id: RouterId, src: Source, base: U16, m: Message, metric: U16)
    requires MessagesBacked(s) && Improved(s, t, n, id, src) && WindowFor(s, id, base) && SourcesIn(s, id, base) && InWindow(base, src.seqno)
    requires t.messages == s.messages + {m} && m.from == n && m.u.id == id && InWindow(base, m.u.seqno) && metric <= m.u.refmetric
    requires AtLeastAsGood(src.seqno, src.metric, m.u.seqno, metric)
    ensures MessagesBacked(t)
  {
    forall x | x in t.messages ensures Backed(t, x.from, x.u) {
      if x in s.messages {
        BackedImproved(s, t, n, id, src, x.from, x.u, base);
      } else {
        AtLeastTrans(base, src.seqno, src.metric, m.u.seqno, metric, m.u.seqno, m.u.refmetric);
      }
    }
  }

  lemma {:induction false} SendRoutes(s: Net, t: Net, n: nat, id: RouterId, src: Source, base: U16)
    requires RoutesBacked(s) && Improved(s, t, n, id, src) && WindowFor(s, id, base) && SourcesIn(s, id, base) && InWindow(base, src.seqno)
    ensures RoutesBacked(t)
  {
    forall i, k | 0 <= i < |t.nodes| && k in t.nodes[i].routes ensures Backed(t, k.peer, Held(t.nodes[i].routes[k])) {
      assert t.nodes[i].routes == s.nodes[i].routes;
      BackedImproved(s, t, n, id, src, k.peer, Held(s.nodes[i].routes[k]), base);
    }
  }

  lemma {:induction false} SendEdges(s: Net, t: Net, n: nat, k: Key, r: Route, src: Source, metric: U16, base: U16)
    requires Inv(s) && Improved(s, t, n, r.id, src) && t.grounded == s.grounded
    requires k in s.nodes[n].routes && s.nodes[n].routes[k] == r && r.installed
    requires WindowFor(s, r.id, base) && SourcesIn(s, r.id, base) && InWindow(base, src.seqno)
    requires r.refmetric < metric < INFINITY
    requires (src.seqno == r.seqno && src.metric == metric)
             || (src.seqno == s.nodes[n].sources[r.id].seqno && src.metric == s.nodes[n].sources[r.id].metric)
    ensures EdgesDescend(t)
  {
    forall i, l | 0 <= i < |t.nodes| && l in t.nodes[i].routes && t.nodes[i].routes[l].installed && (i, l) in t.grounded
      ensures Descends(t, i, l.peer, t.nodes[i].routes[l].id)
    {
      assert t.nodes[i].routes == s.nodes[i].routes;
      assert Descends(s, i, l.peer, s.nodes[i].routes[l].id);
      if i != n {
        DescendsImproved(s, t, n, r.id, src, i, l.peer, s.nodes[i].routes[l].id, base);
      } else {
        assert NodeInv(s.nodes[n]);
        assert l == k;
        assert Backed(s, k.peer, Held(r));
        AnnouncedDescends(s, t, n, k, r, src, metric, base);
      }
    }
  }

  // ------------------------------------------------------------------
  // Runs
  // ------------------------------------------------------------------

  lemma {:induction false} StepKeepsInv(s: Net, a: Action)
    requires Inv(s) && Fresh(s) && Windowed(s) && Enabled(s, a)
    ensures Inv(Next(s, a))
  {
    match a
    case Local(n, st) => LocalKeepsInv(s, n, st);
    case Deliver(_, _, _, _, _, _) => DeliverKeepsInv(s, a);
    case SendRoute(_, _, _, _, _) => SendRouteKeepsInv(s, a);
    case SendOwn(_, _) =>
    case SendRetraction(_) =>
    case Lose(_) =>
    case Tick(_) =>
  }

  /** A run of live, windowed states from `s` to `t`. */
  ghost predicate Run(s: Net, acts: seq<Action>, t: Net)
    decreases acts
  {
    && Fresh(s) && Windowed(s)
    && if acts == [] then s == t else Enabled(s, acts[0]) && Run(Next(s, acts[0]), acts[1..], t)
  }

  /** The same without the standing assumptions. */
  ghost predicate Plays(s: Net, acts: seq<Action>, t: Net)
    decreases acts
  {
    if acts == [] then s == t else Enabled(s, acts[0]) && Plays(Next(s, acts[0]), acts[1..], t)
  }

  /** What a router's table does by local steps, the network does by local actions:
      the other routers, the messages and the clock are untouched. */
  lemma {:induction false} LocalStepsPlay(s: Net, n: nat, steps: seq<Step>, y: Node) returns (acts: seq<Action>, t: Net)
    requires n < |s.nodes| && StepsTo(s.nodes[n], s.now, steps, y)
    ensures Plays(s, acts, t) && t == s.(nodes := s.nodes[n := y], grounded := t.grounded)
    decreases steps
  {
    if steps == [] {
      acts, t := [], s;
      assert s.nodes[n := y] == s.nodes;
    } else {
      var a := Local(n, steps[0]);
      var u := Next(s, a);
      var rest;
      rest, t := LocalStepsPlay(u, n, steps[1..], y);
      acts := [a] + rest;
      assert acts[1..] == rest && u.nodes[n := y] == s.nodes[n := y];
    }
  }

  /** update_route, as the table performs it, is the delivery of a message followed
      by local actions of the receiver. */
  lemma {:induction false} DeliveryPlays(s: Net, n: nat, m: Message, via: nat, cost: U16, add: U16, keep: bool, y: Node)
    returns (acts: seq<Action>, t: Net)
    requires n < |s.nodes| && m in s.messages && cost >= 1
    requires Reaches(DoAccept(s.nodes[n], s.now, Key(m.from, via), m.u, cost, add, keep), s.now, y)
    ensures acts != [] && acts[0] == Deliver(n, m, via, cost, add, keep) && Plays(s, acts, t)
    ensures t == s.(nodes := s.nodes[n := y], grounded := t.grounded)
  {
    var a := Deliver(n, m, via, cost, add, keep);
    var u := Next(s, a);
    var steps :| StepsTo(u.nodes[n], s.now, steps, y);
    var rest;
    rest, t := LocalStepsPlay(u, n, steps, y);
    acts := [a] + rest;
    assert acts[1..] == rest && u.nodes[n := y] == s.nodes[n := y];
  }

  // ------------------------------------------------------------------
  // Why sources stay live
  // ------------------------------------------------------------------

  ghost predicate StepIn(ss: seq<Net>, acts: seq<Action>, i: nat)
    requires i < |acts| && |ss| == |acts| + 1
  {
    Enabled(ss[i], acts[i]) && ss[i + 1] == Next(ss[i], acts[i])
  }

  /** The states of a play one by one. */
  ghost predicate History(ss: seq<Net>, acts: seq<Action>) {
    |ss| == |acts| + 1 && forall i :: 0 <= i < |acts| ==> StepIn(ss, acts, i)
  }

  /** The action announces a finite metric for source `id` at node `n`. */
  ghost predicate Announces(s: Net, a: Action, n: nat, id: RouterId) {
    && a.SendRoute? && a.n == n && n < |s.nodes| && a.key in s.nodes[n].routes && s.nodes[n].routes[a.key].id == id
    && AnnouncedMetric(s.nodes[n].routes[a.key], a.noninterfering, a.factor) < INFINITY
  }

  /** Node `n` has source `id`, and heard of it or announced it at `since` or later. */
  ghost predicate Seen(s: Net, n: nat, id: RouterId, since: int) {
    n < |s.nodes| && id in s.nodes[n].sources && s.nodes[n].sources[id].time >= since
  }

  lemma {:induction false} AnnouncedSeen(s: Net, a: Action, n: nat, id: RouterId)
    requires Enabled(s, a) && Announces(s, a, n, id)
    ensures Seen(Next(s, a), n, id, s.now)
  {
    var r := s.nodes[n].routes[a.key];
    UpdateSourceFresh(s.nodes[n].sources[id], s.now, r.seqno, AnnouncedMetric(r, a.noninterfering, a.factor),
                      s.now + SOURCE_GC_TIME);
  }

  /** No action makes a source older, or leaves out one that was there. */
  lemma {:induction false} StaysSeen(s: Net, a: Action, n: nat, id: RouterId, since: int)
    requires Enabled(s, a) && n < |s.nodes| && since <= s.now
    requires Seen(s, n, id, since) || (id !in s.nodes[n].sources && id in Next(s, a).nodes[n].sources)
    ensures Seen(Next(s, a), n, id, since)
  {
    hide UpdateFeasible, AnnouncedMetric, Feasible, RouteMetric;
    if a.Local? && a.n == n { LocalSources(s.nodes[n], s.now, a.a); }
  }

  lemma {:induction false} LocalSources(x: Node, now: int, a: Step)
    requires !a.Accept? && !a.Announced? && Can(x, now, a)
    ensures Do(x, now, a).sources == x.sources
  {
    hide Feasible, RouteMetric;
  }

  lemma {:induction false} ClockGoesOn(ss: seq<Net>, acts: seq<Action>, j: nat, i: nat)
    requires History(ss, acts) && j <= i < |ss|
    ensures ss[j].now <= ss[i].now && |ss[j].nodes| == |ss[i].nodes|
  {
    if j < i {
      ClockGoesOn(ss, acts, j, i - 1);
      assert StepIn(ss, acts, i - 1);
    }
  }

  /** A source that is announced at step `j`, or was not there before it, has been seen
      since. */
  lemma {:induction false} SeenSince(ss: seq<Net>, acts: seq<Action>, n: nat, id: RouterId, j: nat, i: nat)
    requires History(ss, acts) && j < i < |ss| && n < |ss[0].nodes| == |ss[j].nodes| == |ss[i].nodes|
    requires Announces(ss[j], acts[j], n, id) || (id !in ss[j].nodes[n].sources && id in ss[i].nodes[n].sources)
    ensures Seen(ss[i], n, id, ss[j].now)
    decreases i
  {
    hide Enabled, Next, Announces;
    assert StepIn(ss, acts, j) && StepIn(ss, acts, i - 1);
    ClockGoesOn(ss, acts, 0, i - 1);
    ClockGoesOn(ss, acts, j, i - 1);
    if i == j + 1 {
      if Announces(ss[j], acts[j], n, id) {
        AnnouncedSeen(ss[j], acts[j], n, id);
      } else {
        StaysSeen(ss[j], acts[j], n, id, ss[j].now);
      }
    } else {
      if Announces(ss[j], acts[j], n, id) || id in ss[i - 1].nodes[n].sources { SeenSince(ss, acts, n, id, j, i - 1); }
      StaysSeen(ss[i - 1], acts[i - 1], n, id, ss[j].now);
    }
  }

  /** At state `i` every source was announced, or came to be, in the last SOURCE_GC_TIME
      seconds. */
  ghost predicate Tended(ss: seq<Net>, acts: seq<Action>, i: nat)
    requires |ss| == |acts| + 1 && i < |ss| && forall j :: 0 <= j <= i ==> |ss[j].nodes| == |ss[i].nodes|
  {
    forall n, id :: 0 <= n < |ss[i].nodes| && id in ss[i].nodes[n].sources ==> TendedAt(ss, acts, i, n, id)
  }

  ghost predicate TendedAt(ss: seq<Net>, acts: seq<Action>, i: nat, n: nat, id: RouterId)
    requires |ss| == |acts| + 1 && i < |ss| && n < |ss[i].nodes| && forall j :: 0 <= j <= i ==> |ss[j].nodes| == |ss[i].nodes|
  {
    exists j :: 0 <= j < i && ss[i].now <= ss[j].now + SOURCE_GC_TIME
             && (Announces(ss[j], acts[j], n, id) || id !in ss[j].nodes[n].sources)
  }

  /** Nodes that announce what they know of at least every SOURCE_GC_TIME seconds keep
      their sources live: the standing assumption follows from what they do. */
  lemma {:induction false} TendedIsFresh(ss: seq<Net>, acts: seq<Action>, i: nat)
    requires History(ss, acts) && i < |ss|
    ensures forall j :: 0 <= j <= i ==> |ss[j].nodes| == |ss[i].nodes|
    ensures Tended(ss, acts, i) ==> Fresh(ss[i])
  {
    forall j | 0 <= j <= i ensures |ss[j].nodes| == |ss[i].nodes| { ClockGoesOn(ss, acts, j, i); }
    if Tended(ss, acts, i) {
      forall n, id | 0 <= n < |ss[i].nodes| && id in ss[i].nodes[n].sources
        ensures !Stale(ss[i].nodes[n].sources[id], ss[i].now)
      {
        assert TendedAt(ss, acts, i, n, id);
        var j :| 0 <= j < i && ss[i].now <= ss[j].now + SOURCE_GC_TIME
              && (Announces(ss[j], acts[j], n, id) || id !in ss[j].nodes[n].sources);
        SeenSince(ss, acts, n, id, j, i);
      }
    }
  }

  /** Routers that have just booted, each with its own id. */
  ghost predicate Initial(s: Net) {
    && Distinct(s) && s.messages == {} && s.grounded == {}
    && forall n :: 0 <= n < |s.nodes| ==> s.nodes[n].routes == map[] && s.nodes[n].sources == map[]
  }

  lemma {:induction false} RunKeepsInv(s: Net, acts: seq<Action>, t: Net)
    requires Inv(s) && Run(s, acts, t)
    ensures Inv(t) && Windowed(t)
    decreases acts
  {
    if acts != [] {
      StepKeepsInv(s, acts[0]);
      RunKeepsInv(Next(s, acts[0]), acts[1..], t);
    }
  }

  // ------------------------------------------------------------------
  // Loops
  // ------------------------------------------------------------------

  /** Node `n` forwards through its route `k`, whose source is `id`. */
  ghost predicate Forwards(s: Net, id: RouterId, n: nat, k: Key) {
    n < |s.nodes| && k in s.nodes[n].routes && s.nodes[n].routes[k].installed && s.nodes[n].routes[k].id == id
  }

  /** Each hop forwards to the node of the next, and the last to the first. */
  ghost predicate Loop(s: Net, id: RouterId, hops: seq<(nat, Key)>) {
    && hops != []
    && (forall i :: 0 <= i < |hops| ==> Forwards(s, id, hops[i].0, hops[i].1))
    && (forall i, j :: 0 <= i < j < |hops| && j == i + 1 ==> hops[i].1.peer == hops[j].0)
    && hops[|hops| - 1].1.peer == hops[0].0
  }

  ghost function RankOf(s: Net, n: nat, id: RouterId, base: U16): int
    requires n < |s.nodes| && id in s.nodes[n].sources
  {
    Rank(base, s.nodes[n].sources[id].seqno, s.nodes[n].sources[id].metric)
  }

  lemma {:induction false} HopRises(s: Net, id: RouterId, n: nat, k: Key, base: U16)
    requires Inv(s) && WindowFor(s, id, base) && Forwards(s, id, n, k) && (n, k) in s.grounded
    requires k.peer < |s.nodes| && s.nodes[k.peer].id != id
    ensures id in s.nodes[n].sources && id in s.nodes[k.peer].sources
    ensures RankOf(s, k.peer, id, base) > RankOf(s, n, id, base)
  {
    assert Descends(s, n, k.peer, id);
    var f, g := s.nodes[k.peer].sources[id], s.nodes[n].sources[id];
    hide Inv, Rank;
    BetterIsRank(base, f.seqno, f.metric, g.seqno, g.metric);
  }

  lemma {:induction false} ForwarderIsNotOrigin(s: Net, id: RouterId, n: nat, k: Key)
    requires Inv(s) && Forwards(s, id, n, k)
    ensures s.nodes[n].id != id && id in s.nodes[n].sources
  {
    assert NodeInv(s.nodes[n]);
  }

  lemma {:induction false} ChainRises(s: Net, id: RouterId, hops: seq<(nat, Key)>, i: nat, base: U16)
    requires Inv(s) && WindowFor(s, id, base) && Loop(s, id, hops) && i < |hops|
    requires forall j :: 0 <= j < |hops| ==> hops[j] in s.grounded
    ensures forall j :: 0 <= j < |hops| ==> hops[j].0 < |s.nodes| && id in s.nodes[hops[j].0].sources
    ensures RankOf(s, hops[i].0, id, base) >= RankOf(s, hops[0].0, id, base)
  {
    forall j | 0 <= j < |hops| ensures hops[j].0 < |s.nodes| && id in s.nodes[hops[j].0].sources {
      ForwarderIsNotOrigin(s, id, hops[j].0, hops[j].1);
    }
    if i > 0 {
      ChainRises(s, id, hops, i - 1, base);
      ForwarderIsNotOrigin(s, id, hops[i].0, hops[i].1);
      HopRises(s, id, hops[i - 1].0, hops[i - 1].1, base);
    }
  }

  /** In a state that satisfies the invariant no loop is grounded all the way. */
  lemma {:induction false} LoopIsUngrounded(s: Net, id: RouterId, hops: seq<(nat, Key)>)
    requires Inv(s) && Windowed(s) && Loop(s, id, hops)
    ensures exists i :: 0 <= i < |hops| && hops[i] !in s.grounded
  {
    if forall i :: 0 <= i < |hops| ==> hops[i] in s.grounded {
      assert HasWindow(s, id);
      var base :| WindowFor(s, id, base);
      var last := |hops| - 1;
      ChainRises(s, id, hops, last, base);
      ForwarderIsNotOrigin(s, id, hops[0].0, hops[0].1);
      HopRises(s, id, hops[last].0, hops[last].1, base);
    }
  }

  /** Per-source loop freedom, for every run of any number of routers: a loop of
      installed routes for one source always contains a route that was installed,
      or given that source, while retracted and never since by a feasible update. */
  lemma {:induction false} LoopsNeedAnUngroundedRoute(s: Net, acts: seq<Action>, t: Net, id: RouterId, hops: seq<(nat, Key)>)
    requires Initial(s) && Run(s, acts, t) && Loop(t, id, hops)
    ensures exists i :: 0 <= i < |hops| && hops[i] !in t.grounded
  {
    InitialInv(s);
    RunKeepsInv(s, acts, t);
    LoopIsUngrounded(t, id, hops);
  }

  lemma {:induction false} InitialInv(s: Net)
    requires Initial(s)
    ensures Inv(s) && AllGrounded(s)
  {
  }

  // ------------------------------------------------------------------
  // The guard that the code lacks
  // ------------------------------------------------------------------

  /** No retracted route is installed, and no installed route changes source by
      a retraction.  consider_route and update_route allow both. */
  ghost predicate Guarded(s: Net, a: Action)
    requires Enabled(s, a)
  {
    match a
    case Local(n, st) => st.Install? ==> s.nodes[n].routes[st.key].refmetric < INFINITY
    case Deliver(n, m, via, _, _, _) =>
      var key := Key(m.from, via);
      (key in s.nodes[n].routes && s.nodes[n].routes[key].installed && m.u.refmetric >= INFINITY)
      ==> (m.u.id == s.nodes[n].routes[key].id || m.u.id == s.nodes[n].id)
    case _ => true
  }

  ghost predicate AllGrounded(s: Net) {
    forall n, k :: 0 <= n < |s.nodes| && k in s.nodes[n].routes && s.nodes[n].routes[k].installed ==> (n, k) in s.grounded
  }

  /** The guard is exactly what keeps the history flag set on every installed route. */
  lemma {:induction false} GuardIsExact(s: Net, a: Action)
    requires Inv(s) && AllGrounded(s) && Enabled(s, a)
    ensures AllGrounded(Next(s, a)) <==> Guarded(s, a)
  {
    match a
    case Local(n, st) => LocalGuardIsExact(s, n, st);
    case Deliver(_, _, _, _, _, _) => DeliverGuardIsExact(s, a);
    case SendRoute(_, _, _, _, _) =>
    case SendOwn(_, _) =>
    case SendRetraction(_) =>
    case Lose(_) =>
    case Tick(_) =>
  }

  lemma {:induction false} LocalGuardIsExact(s: Net, n: nat, st: Step)
    requires Inv(s) && AllGrounded(s) && Enabled(s, Local(n, st))
    ensures AllGrounded(Next(s, Local(n, st))) <==> Guarded(s, Local(n, st))
  {
    var t := Next(s, Local(n, st));
    LocalFrame(s.nodes[n], s.now, st);
    if st.Switch? { MetricGrows(s.nodes[n].routes[st.key], 0); }
    if st.Install? { assert t.nodes[n].routes[st.key].installed; }
  }

  lemma {:induction false} DeliverGuardIsExact(s: Net, a: Action)
    requires Inv(s) && AllGrounded(s) && a.Deliver? && Enabled(s, a)
    ensures AllGrounded(Next(s, a)) <==> Guarded(s, a)
  {
    var n, u, key, t := a.n, a.m.u, Key(a.m.from, a.via), Next(s, a);
    DeliverGrounded(s, n, key, u);
    DeliverFrame(s.nodes[n], s.now, key, u, a.cost, a.addMetric, a.keepUnfeasible);
    hide NodeInv, KeepsSources;
    if !Guarded(s, a) {
      assert t.nodes[n].routes[key].installed && (n, key) !in t.grounded;
    }
  }

  ghost predicate GuardedRun(s: Net, acts: seq<Action>, t: Net)
    requires Run(s, acts, t)
    decreases acts
  {
    acts != [] ==> Guarded(s, acts[0]) && GuardedRun(Next(s, acts[0]), acts[1..], t)
  }

  lemma {:induction false} GuardedRunGrounds(s: Net, acts: seq<Action>, t: Net)
    requires Inv(s) && AllGrounded(s) && Run(s, acts, t) && GuardedRun(s, acts, t)
    ensures AllGrounded(t)
    decreases acts
  {
    if acts != [] {
      StepKeepsInv(s, acts[0]);
      GuardIsExact(s, acts[0]);
      GuardedRunGrounds(Next(s, acts[0]), acts[1..], t);
    }
  }

  /** With the guard, no run ever forms a loop for any source. */
  lemma {:induction false} LoopFreedom(s: Net, acts: seq<Action>, t: Net, id: RouterId, hops: seq<(nat, Key)>)
    requires Initial(s) && Run(s, acts, t) && GuardedRun(s, acts, t)
    ensures !Loop(t, id, hops)
  {
    InitialInv(s);
    GuardedRunGrounds(s, acts, t);
    if Loop(t, id, hops) {
      assert forall i :: 0 <= i < |hops| ==> Forwards(t, id, hops[i].0, hops[i].1);
      LoopsNeedAnUngroundedRoute(s, acts, t, id, hops);
    }
  }

  lemma {:induction false} HistoryRuns(ss: seq<Net>, acts: seq<Action>)
    requires History(ss, acts) && forall i :: 0 <= i < |ss| ==> Fresh(ss[i]) && Windowed(ss[i])
    ensures Run(ss[0], acts, ss[|acts|])
    ensures (forall i :: 0 <= i < |acts| ==> StepIn(ss, acts, i) && Guarded(ss[i], acts[i])) ==> GuardedRun(ss[0], acts, ss[|acts|])
    decreases acts
  {
    if acts != [] {
      assert StepIn(ss, acts, 0);
      forall i | 0 <= i < |acts| - 1 ensures StepIn(ss[1..], acts[1..], i) { assert StepIn(ss, acts, i + 1); }
      HistoryRuns(ss[1..], acts[1..]);
      hide Fresh, Windowed, Enabled, Next, Guarded;
      assert ss[1..][|acts| - 1] == ss[|acts|];
    }
  }

  /** So guarded routers that announce what they know of often enough form no loop. */
  lemma {:induction false} TendedLoopFree(ss: seq<Net>, acts: seq<Action>, id: RouterId, hops: seq<(nat, Key)>)
    requires History(ss, acts) && Initial(ss[0])
    requires forall i :: 0 <= i < |ss| ==> Windowed(ss[i]) && forall j :: 0 <= j <= i ==> |ss[j].nodes| == |ss[i].nodes|
    requires forall i :: 0 <= i < |ss| ==> Tended(ss, acts, i)
    requires forall i :: 0 <= i < |acts| ==> StepIn(ss, acts, i) && Guarded(ss[i], acts[i])
    ensures !Loop(ss[|acts|], id, hops)
  {
    hide Loop, Windowed, Guarded, Tended, Initial, Fresh;
    forall i | 0 <= i < |ss| ensures Fresh(ss[i]) { TendedIsFresh(ss, acts, i); }
    HistoryRuns(ss, acts);
    LoopFreedom(ss[0], acts, ss[|acts|], id, hops);
  }
}
