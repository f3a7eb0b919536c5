/**
 Route tables talking to each other: what the operations of module BabelTable do to
 one prefix, router by router, is a run of module BabelNetwork, so that the tables
 themselves are free of loops under its guard.

 An event is one operation of one table, given by what the table holds for the prefix
 before and after; the steps in between are not part of it.
 */
module BabelTables {
  import opened Common
  import opened BabelNode
  import opened BabelNetwork

  datatype Event =
    /** An operation that is a sequence of local steps, and leaves `y`. */
    | Works(n: nat, y: Node)
    /** UpdateRoute */
    | Receives(n: nat, m: Message, via: nat, cost: U16, addMetric: U16, keepUnfeasible: bool, y: Node)
    /** UpdateRouteMetric on a route that has not expired */
    | Reprices(n: nat, key: Key, cost: U16, addMetric: U16, y: Node)
    /** Sending, losing messages, and the clock */
    | Passes(a: Action)

  /** The network action an event begins with, if any. */
  ghost function Opening(e: Event): Option<Action> {
    match e
    case Works(_, _) => None
    case Receives(n, m, via, cost, add, keep, _) => Some(Deliver(n, m, via, cost, add, keep))
    case Reprices(n, key, cost, add, _) => Some(Local(n, Recost(key, cost, add)))
    case Passes(a) => Some(a)
  }

  ghost predicate CanOpen(s: Net, e: Event) {
    && (e.Works? ==> e.n < |s.nodes|)
    && (e.Passes? ==> !e.a.Local? && !e.a.Deliver?)
    && (Opening(e).Some? ==> Enabled(s, Opening(e).value))
  }

  ghost function Opened(s: Net, e: Event): Net
    requires CanOpen(s, e)
  {
    if Opening(e).None? then s else Next(s, Opening(e).value)
  }

  /** The same but for the history flag, which tables do not have. */
  ghost predicate Alike(s: Net, t: Net) { s.now == t.now && s.nodes == t.nodes && s.messages == t.messages }

  /** What the contracts of the table promise of an event. */
  ghost predicate Happens(s: Net, e: Event, t: Net) {
    && CanOpen(s, e)
    && var u := Opened(s, e);
       if e.Passes? then Alike(u, t)
       else Reaches(u.nodes[e.n], s.now, e.y) && Alike(u.(nodes := u.nodes[e.n := e.y]), t)
  }

  /** The guard, on tables: a retraction does not give an installed route another
      source, and no route that is retracted afterwards has been installed. */
  ghost predicate Careful(s: Net, e: Event)
    requires CanOpen(s, e)
  {
    && (Opening(e).Some? ==> Guarded(s, Opening(e).value))
    && (!e.Passes? ==> NoneRevived(Opened(s, e).nodes[e.n], e.y))
  }

  ghost predicate NoneRevived(x: Node, y: Node) {
    forall k :: k in y.routes && y.routes[k].installed && y.routes[k].refmetric >= INFINITY ==> k in x.routes && x.routes[k].installed
  }

  // ------------------------------------------------------------------
  // Steps that never install a retracted route
  // ------------------------------------------------------------------

  ghost predicate Safe(x: Node, a: Step)
  {
    a.Install? ==> a.key in x.routes && x.routes[a.key].refmetric < INFINITY
  }

  ghost predicate SafeSteps(x: Node, now: int, steps: seq<Step>, y: Node)
    decreases steps
  {
    if steps == [] then x == y
    else
      && IsLocal(steps[0]) && Can(x, now, steps[0]) && Safe(x, steps[0])
      && SafeSteps(Do(x, now, steps[0]), now, steps[1..], y)
  }

  ghost predicate SafelyReaches(x: Node, now: int, y: Node) { exists steps :: SafeSteps(x, now, steps, y) }

  lemma {:induction false} SafeConcat(x: Node, now: int, xs: seq<Step>, y: Node, ys: seq<Step>, z: Node)
    requires SafeSteps(x, now, xs, y) && SafeSteps(y, now, ys, z)
    ensures SafeSteps(x, now, xs + ys, z)
    decreases xs
  {
    if xs == [] {
      assert xs + ys == ys;
    } else {
      SafeConcat(Do(x, now, xs[0]), now, xs[1..], y, ys, z);
      assert (xs + ys)[1..] == xs[1..] + ys;
    }
  }

  lemma {:induction false} SafeThen(x: Node, now: int, y: Node, a: Step)
    requires SafelyReaches(x, now, y) && IsLocal(a) && Can(y, now, a) && Safe(y, a)
    ensures SafelyReaches(x, now, Do(y, now, a))
  {
    var steps :| SafeSteps(x, now, steps, y);
    assert [a][1..] == [];
    assert SafeSteps(y, now, [a], Do(y, now, a));
    SafeConcat(x, now, steps, y, [a], Do(y, now, a));
  }

  lemma {:induction false} SafeNone(x: Node, now: int)
    ensures SafelyReaches(x, now, x)
  {
    assert SafeSteps(x, now, [], x);
  }

  function With(r: Route, installed: bool): Route { r.(installed := installed) }

  /** Nothing is installed. */
  ghost function Idle(y: Node): Node { y.(routes := map k | k in y.routes :: With(y.routes[k], false)) }

  /** `o` alone is installed, and nothing redistributed. */
  ghost function Only(y: Node, o: Key): Node {
    y.(routes := map k | k in y.routes :: With(y.routes[k], k == o), xroute := None)
  }

  lemma {:induction false} IdleStep(x: Node, now: int, y: Node, a: Step)
    requires IsLocal(a) && Can(y, now, a) && SafelyReaches(x, now, Idle(y))
    ensures SafelyReaches(x, now, Idle(Do(y, now, a)))
  {
    hide SafelyReaches, Can, Do, Idle;
    IdleDo(y, now, a);
    if Moves(a) { SafeThen(x, now, Idle(y), a); }
  }

  /** Steps that are not about which route is installed. */
  predicate Moves(a: Step) { a.Flush? || a.Retract? || a.SetXroute? || a.BumpSeqno? }

  lemma {:induction false} IdleDo(y: Node, now: int, a: Step)
    requires IsLocal(a) && Can(y, now, a)
    ensures if Moves(a) then Can(Idle(y), now, a) && Idle(Do(y, now, a)) == Do(Idle(y), now, a) else Idle(Do(y, now, a)) == Idle(y)
    ensures Safe(Idle(y), a) || !Moves(a)
  {
    hide Feasible, RouteMetric;
    if Moves(a) {
      assert Idle(Do(y, now, a)).routes == Do(Idle(y), now, a).routes;
    } else {
      assert Idle(Do(y, now, a)).routes == Idle(y).routes;
    }
  }

  lemma {:induction false} OnlyMoved(y: Node, now: int, o: Key, a: Step)
    requires Moves(a) && !a.SetXroute? && Can(y, now, a) && o in Do(y, now, a).routes
    ensures Can(Only(y, o), now, a) && Only(Do(y, now, a), o) == Do(Only(y, o), now, a) && Safe(Only(y, o), a)
  {
    assert Only(Do(y, now, a), o).routes == Do(Only(y, o), now, a).routes;
  }

  lemma {:induction false} OnlyStays(y: Node, now: int, o: Key, a: Step)
    requires IsLocal(a) && (!Moves(a) || a.SetXroute?) && Can(y, now, a)
    ensures Only(Do(y, now, a), o) == Only(y, o)
  {
    hide Feasible, RouteMetric;
    assert Only(Do(y, now, a), o).routes == Only(y, o).routes;
  }

  lemma {:induction false} OnlyStep(x: Node, now: int, y: Node, o: Key, a: Step)
    requires IsLocal(a) && Can(y, now, a) && o in Do(y, now, a).routes && SafelyReaches(x, now, Only(y, o))
    ensures SafelyReaches(x, now, Only(Do(y, now, a), o))
  {
    hide SafelyReaches, Can, Do, Only;
    if Moves(a) && !a.SetXroute? {
      OnlyMoved(y, now, o, a);
      SafeThen(x, now, Only(y, o), a);
    } else {
      OnlyStays(y, now, o, a);
    }
  }

  /** Whatever the steps, the same state without its installed route, or with the one
      that was installed to begin with, is reached safely. */
  lemma {:induction false} StepsSafely(x: Node, now: int, y: Node, steps: seq<Step>, z: Node)
    requires StepsTo(y, now, steps, z) && NodeInv(y) && SafelyReaches(x, now, Idle(y))
    requires forall o :: o in x.routes && x.routes[o].installed && o in y.routes ==> SafelyReaches(x, now, Only(y, o))
    ensures NodeInv(z) && SafelyReaches(x, now, Idle(z))
    ensures forall o :: o in x.routes && x.routes[o].installed && o in z.routes ==> SafelyReaches(x, now, Only(z, o))
    decreases steps
  {
    if steps != [] {
      var u := Do(y, now, steps[0]);
      StepKeepsNodeInv(y, now, steps[0]);
      IdleStep(x, now, y, steps[0]);
      hide SafelyReaches, NodeInv;
      forall o | o in x.routes && x.routes[o].installed && o in u.routes ensures SafelyReaches(x, now, Only(u, o)) {
        StepRoutes(y, now, steps[0], o);
        OnlyStep(x, now, y, o, steps[0]);
      }
      StepsSafely(x, now, u, steps[1..], z);
    }
  }

  /** Local steps make no routes. */
  lemma {:induction false} StepRoutes(y: Node, now: int, a: Step, k: Key)
    requires IsLocal(a) && Can(y, now, a) && k in Do(y, now, a).routes
    ensures k in y.routes
  {
  }

  /** A finite route keeps what makes it feasible. */
  lemma {:induction false} FiniteKept(y: Node, now: int, steps: seq<Step>, z: Node, k: Key)
    requires StepsTo(y, now, steps, z) && k in z.routes && z.routes[k].refmetric < INFINITY
    requires z.routes[k].installed
    ensures z.sources == y.sources && k in y.routes && With(y.routes[k], true) == z.routes[k]
    ensures y.routes[k].installed || Feasible(z, now, k)
    decreases steps
  {
    if steps != [] {
      FiniteKept(Do(y, now, steps[0]), now, steps[1..], z, k);
      StepRoutes(y, now, steps[0], k);
    }
  }

  lemma {:induction false} IdleOf(x: Node, now: int)
    requires NodeInv(x)
    ensures SafelyReaches(x, now, Idle(x))
  {
    SafeNone(x, now);
    if k :| k in x.routes && x.routes[k].installed {
      SafeThen(x, now, x, Uninstall(k));
      assert Do(x, now, Uninstall(k)).routes == Idle(x).routes;
    } else {
      assert Idle(x).routes == x.routes;
    }
  }

  lemma {:induction false} OnlyOf(x: Node, now: int, o: Key)
    requires NodeInv(x) && o in x.routes && x.routes[o].installed
    ensures SafelyReaches(x, now, Only(x, o))
  {
    SafeNone(x, now);
    assert Only(x, o).routes == x.routes;
  }

  /** What is reached without reviving a retracted route is reached safely. */
  lemma {:induction false} ReachedSafely(x: Node, now: int, y: Node)
    requires NodeInv(x) && Reaches(x, now, y) && NoneRevived(x, y)
    ensures SafelyReaches(x, now, y)
  {
    var steps :| StepsTo(x, now, steps, y);
    hide SafelyReaches, StepsTo, NodeInv, Feasible;
    IdleOf(x, now);
    forall o | o in x.routes && x.routes[o].installed ensures SafelyReaches(x, now, Only(x, o)) { OnlyOf(x, now, o); }
    StepsSafely(x, now, x, steps, y);
    if k :| k in y.routes && y.routes[k].installed {
      if k in x.routes && x.routes[k].installed {
        OnlyItself(y, k);
      } else {
        FiniteKept(x, now, steps, y, k);
        InstallLast(x, now, y, k);
      }
    } else {
      assert Idle(y).routes == y.routes;
    }
  }

  lemma {:induction false} OnlyItself(y: Node, k: Key)
    requires NodeInv(y) && k in y.routes && y.routes[k].installed
    ensures Only(y, k) == y
  {
    assert Only(y, k).routes == y.routes;
  }

  lemma {:induction false} InstallLast(x: Node, now: int, y: Node, k: Key)
    requires NodeInv(y) && k in y.routes && y.routes[k].installed && y.routes[k].refmetric < INFINITY && Feasible(y, now, k)
    requires SafelyReaches(x, now, Idle(y))
    ensures SafelyReaches(x, now, y)
  {
    hide SafelyReaches;
    SafeThen(x, now, Idle(y), Install(k));
    assert Do(Idle(y), now, Install(k)).routes == y.routes;
  }

  // ------------------------------------------------------------------
  // Fresh and windowed states stay so within an event
  // ------------------------------------------------------------------

  ghost predicate Live(s: Net) { Fresh(s) && Windowed(s) }

  lemma {:induction false} LocalStaysLive(s: Net, n: nat, st: Step)
    requires Live(s) && Enabled(s, Local(n, st))
    ensures Live(Next(s, Local(n, st)))
  {
    var t := Next(s, Local(n, st));
    LocalRoutes(s.nodes[n], s.now, st);
    hide Do, Can;
    forall id: RouterId ensures HasWindow(t, id) {
      assert HasWindow(s, id);
      var base: U16 :| WindowFor(s, id, base);
      assert WindowFor(t, id, base);
    }
  }

  /** A local step leaves sources alone, and the number of every route that is not
      retracted. */
  lemma {:induction false} LocalRoutes(x: Node, now: int, a: Step)
    requires !a.Accept? && !a.Announced? && Can(x, now, a)
    ensures Do(x, now, a).sources == x.sources
    ensures forall k :: k in Do(x, now, a).routes && Do(x, now, a).routes[k].refmetric < INFINITY ==>
              && k in x.routes && Do(x, now, a).routes[k].seqno == x.routes[k].seqno
              && Do(x, now, a).routes[k].id == x.routes[k].id && x.routes[k].refmetric < INFINITY
  {
    hide Feasible, RouteMetric;
  }

  lemma {:induction false} DeliverStaysLive(s: Net, a: Action)
    requires Live(s) && a.Deliver? && Enabled(s, a)
    ensures Live(Next(s, a))
  {
    var t, x, u := Next(s, a), s.nodes[a.n], a.m.u;
    AcceptRoutes(x, s.now, Key(a.m.from, a.via), u, a.cost, a.addMetric, a.keepUnfeasible);
    hide DoAccept;
    forall id: RouterId ensures HasWindow(t, id) {
      assert HasWindow(s, id);
      var base: U16 :| WindowFor(s, id, base);
      assert WindowFor(t, id, base);
    }
  }

  /** Accepting an update makes at most one new source and one new route, and both
      take its number. */
  lemma {:induction false} AcceptRoutes(x: Node, now: int, key: Key, u: Update, cost: U16, add: U16, keep: bool)
    ensures var y := DoAccept(x, now, key, u, cost, add, keep);
            && (forall id :: id in y.sources ==>
                  (id in x.sources && y.sources[id] == x.sources[id]) || (id == u.id && y.sources[id] == Source(u.seqno, INFINITY, now)))
            && (forall k :: k in y.routes ==>
                  (k in x.routes && y.routes[k] == x.routes[k]) || (y.routes[k].id == u.id && y.routes[k].seqno == u.seqno))
  {
    hide UpdateFeasible;
  }

  // ------------------------------------------------------------------
  // Runs of tables
  // ------------------------------------------------------------------

  /** Safe steps are a guarded run. */
  lemma {:induction false} SafeStepsRun(s: Net, n: nat, steps: seq<Step>, y: Node) returns (acts: seq<Action>, t: Net)
    requires n < |s.nodes| && Live(s) && SafeSteps(s.nodes[n], s.now, steps, y)
    ensures Run(s, acts, t) && GuardedRun(s, acts, t) && t == s.(nodes := s.nodes[n := y], grounded := t.grounded)
    decreases steps
  {
    if steps == [] {
      acts, t := [], s;
      assert s.nodes[n := y] == s.nodes;
    } else {
      var a := Local(n, steps[0]);
      var u := Next(s, a);
      LocalStaysLive(s, n, steps[0]);
      var rest;
      hide Do, Can;
      rest, t := SafeStepsRun(u, n, steps[1..], y);
      acts := [a] + rest;
      assert acts[1..] == rest && u.nodes[n := y] == s.nodes[n := y];
    }
  }

  lemma {:induction false} AlikeLive(s: Net, t: Net)
    requires Alike(s, t) && Live(s)
    ensures Live(t)
  {
    forall id: RouterId ensures HasWindow(t, id) {
      assert HasWindow(s, id);
      var base: U16 :| WindowFor(s, id, base);
      assert WindowFor(t, id, base);
    }
  }

  /** An event looks the same to nets that differ in the flag only. */
  lemma {:induction false} AlikeEvent(s: Net, s': Net, e: Event, t: Net)
    requires Alike(s, s') && Happens(s, e, t) && Careful(s, e)
    ensures Happens(s', e, t) && Careful(s', e)
  {
    hide Reaches, Can, Do, DoAccept, NoneRevived;
    assert Alike(Opened(s, e), Opened(s', e));
  }

  lemma {:induction false} OpeningKeepsLive(s: Net, e: Event)
    requires Live(s) && CanOpen(s, e) && !e.Passes? && (forall i :: 0 <= i < |s.nodes| ==> NodeInv(s.nodes[i]))
    ensures var u := Opened(s, e);
            Live(u) && |u.nodes| == |s.nodes| && e.n < |u.nodes| && NodeInv(u.nodes[e.n]) && u.now == s.now
  {
    match e
    case Works(_, _) =>
    case Receives(n, m, via, cost, add, keep, _) =>
      DeliverStaysLive(s, Opening(e).value);
      AcceptKeepsNodeInv(s.nodes[n], s.now, Key(m.from, via), m.u, cost, add, keep);
    case Reprices(n, key, cost, add, _) =>
      LocalStaysLive(s, n, Recost(key, cost, add));
      StepKeepsNodeInv(s.nodes[n], s.now, Recost(key, cost, add));
  }

  lemma {:induction false} OneAction(s: Net, a: Action)
    requires Enabled(s, a) && Live(s) && Live(Next(s, a)) && Guarded(s, a)
    ensures Run(s, [a], Next(s, a)) && GuardedRun(s, [a], Next(s, a))
  {
    assert [a][1..] == [];
    assert Run(Next(s, a), [], Next(s, a));
  }

  lemma {:induction false} RunsJoin(s: Net, xs: seq<Action>, t: Net, ys: seq<Action>, u: Net)
    requires Run(s, xs, t) && GuardedRun(s, xs, t) && Run(t, ys, u) && GuardedRun(t, ys, u)
    ensures Run(s, xs + ys, u) && GuardedRun(s, xs + ys, u)
    decreases xs
  {
    if xs == [] {
      assert xs + ys == ys;
    } else {
      RunsJoin(Next(s, xs[0]), xs[1..], t, ys, u);
      assert (xs + ys)[1..] == xs[1..] + ys;
    }
  }

  /** A careful event is a guarded run of the network. */
  lemma {:induction false} EventRuns(s: Net, e: Event, t: Net) returns (acts: seq<Action>, u: Net)
    requires Inv(s) && Live(s) && Happens(s, e, t) && Careful(s, e) && Live(t)
    ensures Run(s, acts, u) && GuardedRun(s, acts, u) && Alike(u, t)
  {
    var o := Opened(s, e);
    if e.Passes? {
      hide Inv;
      AlikeLive(t, o);
      acts, u := [e.a], o;
      OneAction(s, e.a);
    } else {
      OpeningKeepsLive(s, e);
      hide Inv, Enabled, Next, Guarded, Reaches, Live;
      ReachedSafely(o.nodes[e.n], s.now, e.y);
      var steps :| SafeSteps(o.nodes[e.n], s.now, steps, e.y);
      acts, u := SafeStepsRun(o, e.n, steps, e.y);
      if Opening(e).Some? {
        OneAction(s, Opening(e).value);
        RunsJoin(s, [Opening(e).value], o, acts, u);
        acts := [Opening(e).value] + acts;
      }
    }
  }

  ghost predicate EventAt(ss: seq<Net>, es: seq<Event>, i: nat)
    requires i < |es| && |ss| == |es| + 1
  {
    Happens(ss[i], es[i], ss[i + 1]) && Careful(ss[i], es[i]) && Live(ss[i])
  }

  /** Tables from empty ones on, event by event; states are fresh and windowed between
      the events. */
  ghost predicate TablesRun(ss: seq<Net>, es: seq<Event>) {
    && |ss| == |es| + 1 && Initial(ss[0]) && Live(ss[|es|])
    && forall i :: 0 <= i < |es| ==> EventAt(ss, es, i)
  }

  lemma {:induction false} TablesRunIsRun(ss: seq<Net>, es: seq<Event>, i: nat) returns (acts: seq<Action>, u: Net)
    requires TablesRun(ss, es) && i <= |es|
    ensures Run(ss[0], acts, u) && GuardedRun(ss[0], acts, u) && Alike(u, ss[i])
  {
    assert Live(ss[i]) by { if i < |es| { assert EventAt(ss, es, i); } }
    if i == 0 {
      acts, u := [], ss[0];
    } else {
      assert EventAt(ss, es, i - 1);
      acts, u := TablesRunIsRun(ss, es, i - 1);
      hide TablesRun, Happens, Careful, Live;
      InitialRuns(ss, es, acts, u);
      AlikeBack(u, ss[i - 1]);
      AlikeLive(ss[i - 1], u);
      AlikeEvent(ss[i - 1], u, es[i - 1], ss[i]);
      var more, v := EventRuns(u, es[i - 1], ss[i]);
      RunsJoin(ss[0], acts, u, more, v);
      acts, u := acts + more, v;
    }
  }

  lemma {:induction false} AlikeBack(s: Net, t: Net)
    requires Alike(s, t)
    ensures Alike(t, s)
  {
  }

  lemma {:induction false} InitialRuns(ss: seq<Net>, es: seq<Event>, acts: seq<Action>, u: Net)
    requires TablesRun(ss, es) && Run(ss[0], acts, u)
    ensures Inv(u)
  {
    InitialInv(ss[0]);
    RunKeepsInv(ss[0], acts, u);
  }

  /** Loop freedom of the tables: whatever operations any number of routers perform, as
      long as none revives a retracted route, there is no loop for any source. */
  lemma {:induction false} TablesLoopFree(ss: seq<Net>, es: seq<Event>, id: RouterId, hops: seq<(nat, Key)>)
    requires TablesRun(ss, es)
    ensures !Loop(ss[|es|], id, hops)
  {
    var acts, u := TablesRunIsRun(ss, es, |es|);
    LoopFreedom(ss[0], acts, u, id, hops);
    assert forall n, k :: Forwards(u, id, n, k) == Forwards(ss[|es|], id, n, k);
  }
}
