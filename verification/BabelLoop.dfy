/**
 A run of three Babel routers that ends in a forwarding loop, and that breaks the
 guard of module BabelNetwork only by installing a retracted route.
 */
module BabelLoop {
  import opened Common
  import opened BabelNode
  import opened BabelNetwork

  const VIA_O := Key(0, 0)
  const VIA_A := Key(1, 0)
  const VIA_B := Key(2, 0)
  const FROM_O := Message(0, Update(100, 0, 0))
  const FROM_A := Message(1, Update(100, 0, 1))
  const FROM_B := Message(2, Update(100, 0, 5))

  /** The origin O of source 100 and two others, A and B, with every clock and
      sequence number at zero. */
  ghost function Three(a: Node, b: Node, messages: set<Message>, grounded: set<(nat, Key)>): Net {
    Net(0, [Node(100, 0, Some(0), map[], map[]), a, b], messages, grounded)
  }

  ghost function Rt(refmetric: U16, cost: U16, installed: bool): Route { Route(100, 0, refmetric, cost, 0, installed) }

  ghost function Nd(id: RouterId, routes: map<Key, Route>, metric: U16): Node {
    Node(id, 0, None, routes, map[100 := Source(0, metric, 0)])
  }

  ghost predicate Calm(n: Node) {
    && n.myseqno == 0
    && (forall id :: id in n.sources ==> n.sources[id].seqno == 0 && n.sources[id].time == 0)
    && (forall k :: k in n.routes ==> n.routes[k].seqno == 0)
  }

  ghost predicate CalmNet(s: Net) {
    && |s.nodes| == 3 && s == Three(s.nodes[1], s.nodes[2], s.messages, s.grounded)
    && Calm(s.nodes[1]) && Calm(s.nodes[2]) && forall m :: m in s.messages ==> m.u.seqno == 0
  }

  lemma {:induction false} CalmIsLive(s: Net)
    requires CalmNet(s)
    ensures Fresh(s) && Windowed(s)
  {
    forall id: RouterId ensures HasWindow(s, id) { assert WindowFor(s, id, 0); }
  }

  /** The half of the guard that a run may break: that on accepting an update, or
      that on installing. */
  datatype Half = Accepting | Installing

  ghost predicate Excused(a: Action, half: Half) { if half == Accepting then a.Deliver? else a.Local? && a.a.Install? }

  /** A run that keeps the other half of the guard throughout. */
  ghost predicate Breaks(s: Net, acts: seq<Action>, t: Net, half: Half)
    decreases acts
  {
    && Run(s, acts, t)
    && (acts != [] ==> (Guarded(s, acts[0]) || Excused(acts[0], half)) && Breaks(Next(s, acts[0]), acts[1..], t, half))
  }

  lemma {:induction false} BreaksIsRun(s: Net, acts: seq<Action>, t: Net, half: Half)
    requires Breaks(s, acts, t, half)
    ensures Run(s, acts, t)
  {
  }

  lemma {:induction false} BreaksConcat(s: Net, xs: seq<Action>, t: Net, ys: seq<Action>, u: Net, half: Half)
    requires Breaks(s, xs, t, half) && Breaks(t, ys, u, half)
    ensures Breaks(s, xs + ys, u, half)
    decreases xs
  {
    if xs == [] {
      assert xs + ys == ys;
    } else {
      BreaksConcat(Next(s, xs[0]), xs[1..], t, ys, u, half);
      assert (xs + ys)[1..] == xs[1..] + ys;
    }
  }

  ghost predicate SameNode(x: Node, y: Node) {
    x.id == y.id && x.myseqno == y.myseqno && x.xroute == y.xroute && x.routes == y.routes && x.sources == y.sources
  }

  /** An action of A or B, or the origin's announcement, that leaves clocks and
      sequence numbers alone. */
  ghost predicate CalmAction(a: Action) {
    match a
    case Local(n, st) => 1 <= n <= 2 && !st.BumpSeqno? && (st.Retract? ==> st.seqno == 0)
    case Deliver(n, _, _, _, _, _) => 1 <= n <= 2
    case SendRoute(n, _, _, _, _) => 1 <= n <= 2
    case SendOwn(n, _) => n <= 2
    case _ => false
  }

  lemma {:induction false} StepStaysCalm(x: Node, a: Step)
    requires Calm(x) && Can(x, 0, a) && !a.BumpSeqno? && (a.Retract? ==> a.seqno == 0) && !a.Accept?
    ensures Calm(Do(x, 0, a))
  {
    hide Feasible, RouteMetric, AnnouncedMetric;
  }

  lemma {:induction false} AcceptStaysCalm(x: Node, key: Key, u: Update, cost: U16, add: U16, keep: bool)
    requires Calm(x) && u.seqno == 0
    ensures Calm(DoAccept(x, 0, key, u, cost, add, keep))
  {
    hide UpdateFeasible;
  }

  lemma {:induction false} NextStaysCalm(t: Net, a: Action)
    requires CalmNet(t) && CalmAction(a) && Enabled(t, a)
    ensures CalmNet(Next(t, a))
  {
    var u := Next(t, a);
    match a
    case Local(n, st) => StepStaysCalm(t.nodes[n], st);
    case Deliver(n, m, via, cost, add, keep) => AcceptStaysCalm(t.nodes[n], Key(m.from, via), m.u, cost, add, keep);
    case SendRoute(n, k, noninterfering, factor, _) => StepStaysCalm(t.nodes[n], Announced(k, noninterfering, factor));
    case SendOwn(_, _) =>
    hide Can, Do, DoAccept, Calm;
    assert u.nodes == [t.nodes[0], u.nodes[1], u.nodes[2]];
  }

  /** One action behind a run. */
  lemma {:induction false} Then(s: Net, acts: seq<Action>, t: Net, a: Action, u: Net, half: Half) returns (more: seq<Action>)
    requires Breaks(s, acts, t, half) && CalmNet(t) && CalmAction(a) && Enabled(t, a) && (Guarded(t, a) || Excused(a, half))
    requires |u.nodes| == 3 && u.now == 0 && Next(t, a).messages == u.messages && Next(t, a).grounded == u.grounded
    requires forall i :: 0 <= i < 3 ==> SameNode(Next(t, a).nodes[i], u.nodes[i])
    ensures Breaks(s, more, u, half) && CalmNet(u)
  {
    NextStaysCalm(t, a);
    assert Next(t, a).nodes == u.nodes;
    assert Next(t, a) == u;
    hide Enabled, Next, Guarded;
    CalmIsLive(t);
    CalmIsLive(u);
    assert [a][1..] == [];
    assert Breaks(u, [], u, half);
    BreaksConcat(s, acts, t, [a], u, half);
    more := acts + [a];
  }

  ghost function Stage0(): Net { Three(Node(101, 0, None, map[], map[]), Node(102, 0, None, map[], map[]), {}, {}) }

  // B learns a route from O and announces it.

  ghost function Stage1(): Net {
    Three(Node(101, 0, None, map[], map[]),
          Node(102, 0, None, map[], map[]), {FROM_O}, {})
  }

  lemma {:induction false} Step1() returns (acts: seq<Action>)
    ensures Breaks(Stage0(), acts, Stage1(), Installing) && CalmNet(Stage1())
  {
    CalmIsLive(Stage0());
    acts := Then(Stage0(), [], Stage0(), SendOwn(0, 0), Stage1(), Installing);
  }

  ghost function Stage2(): Net {
    Three(Node(101, 0, None, map[], map[]),
          Nd(102, map[VIA_O := Rt(0, 5, false)], INFINITY), {FROM_O}, {})
  }

  lemma {:induction false} Step2() returns (acts: seq<Action>)
    ensures Breaks(Stage0(), acts, Stage2(), Installing) && CalmNet(Stage2())
  {
    hide Breaks, CalmNet;
    acts := Step1();
    acts := Then(Stage0(), acts, Stage1(), Deliver(2, FROM_O, 0, 5, 0, false), Stage2(), Installing);
  }

  ghost function Stage3(): Net {
    Three(Node(101, 0, None, map[], map[]),
          Nd(102, map[VIA_O := Rt(0, 5, true)], INFINITY), {FROM_O}, {(2, VIA_O)})
  }

  lemma {:induction false} Step3() returns (acts: seq<Action>)
    ensures Breaks(Stage0(), acts, Stage3(), Installing) && CalmNet(Stage3())
  {
    hide Breaks, CalmNet;
    acts := Step2();
    acts := Then(Stage0(), acts, Stage2(), Local(2, Install(VIA_O)), Stage3(), Installing);
  }

  ghost function Stage4(): Net {
    Three(Node(101, 0, None, map[], map[]),
          Nd(102, map[VIA_O := Rt(0, 5, true)], 5), {FROM_O, FROM_B}, {(2, VIA_O)})
  }

  lemma {:induction false} Step4() returns (acts: seq<Action>)
    ensures Breaks(Stage0(), acts, Stage4(), Installing) && CalmNet(Stage4())
  {
    hide Breaks, CalmNet;
    acts := Step3();
    acts := Then(Stage0(), acts, Stage3(), SendRoute(2, VIA_O, false, 256, 0), Stage4(), Installing);
  }

  // A installs the route through B, switches to the one from O, and announces that.

  ghost function Stage5(): Net {
    Three(Nd(101, map[VIA_B := Rt(5, 1, false)], INFINITY),
          Nd(102, map[VIA_O := Rt(0, 5, true)], 5), {FROM_O, FROM_B}, {(2, VIA_O)})
  }

  lemma {:induction false} Step5() returns (acts: seq<Action>)
    ensures Breaks(Stage0(), acts, Stage5(), Installing) && CalmNet(Stage5())
  {
    hide Breaks, CalmNet;
    acts := Step4();
    acts := Then(Stage0(), acts, Stage4(), Deliver(1, FROM_B, 0, 1, 0, false), Stage5(), Installing);
  }

  ghost function Stage6(): Net {
    Three(Nd(101, map[VIA_B := Rt(5, 1, true)], INFINITY),
          Nd(102, map[VIA_O := Rt(0, 5, true)], 5), {FROM_O, FROM_B}, {(2, VIA_O), (1, VIA_B)})
  }

  lemma {:induction false} Step6() returns (acts: seq<Action>)
    ensures Breaks(Stage0(), acts, Stage6(), Installing) && CalmNet(Stage6())
  {
    hide Breaks, CalmNet;
    acts := Step5();
    acts := Then(Stage0(), acts, Stage5(), Local(1, Install(VIA_B)), Stage6(), Installing);
  }

  ghost function Stage7(): Net {
    Three(Nd(101, map[VIA_B := Rt(5, 1, true), VIA_O := Rt(0, 1, false)], INFINITY),
          Nd(102, map[VIA_O := Rt(0, 5, true)], 5), {FROM_O, FROM_B}, {(2, VIA_O), (1, VIA_B)})
  }

  lemma {:induction false} Step7() returns (acts: seq<Action>)
    ensures Breaks(Stage0(), acts, Stage7(), Installing) && CalmNet(Stage7())
  {
    hide Breaks, CalmNet;
    acts := Step6();
    acts := Then(Stage0(), acts, Stage6(), Deliver(1, FROM_O, 0, 1, 0, false), Stage7(), Installing);
  }

  ghost function Stage8(): Net {
    Three(Nd(101, map[VIA_B := Rt(5, 1, false), VIA_O := Rt(0, 1, true)], INFINITY),
          Nd(102, map[VIA_O := Rt(0, 5, true)], 5), {FROM_O, FROM_B}, {(2, VIA_O), (1, VIA_B), (1, VIA_O)})
  }

  lemma {:induction false} Step8() returns (acts: seq<Action>)
    ensures Breaks(Stage0(), acts, Stage8(), Installing) && CalmNet(Stage8())
  {
    hide Breaks, CalmNet;
    acts := Step7();
    acts := Then(Stage0(), acts, Stage7(), Local(1, Switch(VIA_B, VIA_O)), Stage8(), Installing);
  }

  ghost function Stage9(): Net {
    Three(Nd(101, map[VIA_B := Rt(5, 1, false), VIA_O := Rt(0, 1, true)], 1),
          Nd(102, map[VIA_O := Rt(0, 5, true)], 5), {FROM_O, FROM_B, FROM_A}, {(2, VIA_O), (1, VIA_B), (1, VIA_O)})
  }

  lemma {:induction false} Step9() returns (acts: seq<Action>)
    ensures Breaks(Stage0(), acts, Stage9(), Installing) && CalmNet(Stage9())
  {
    hide Breaks, CalmNet;
    acts := Step8();
    acts := Then(Stage0(), acts, Stage8(), SendRoute(1, VIA_O, false, 256, 0), Stage9(), Installing);
  }

  // B hears of it and prefers it.

  ghost function Stage10(): Net {
    Three(Nd(101, map[VIA_B := Rt(5, 1, false), VIA_O := Rt(0, 1, true)], 1),
          Nd(102, map[VIA_O := Rt(0, 5, true), VIA_A := Rt(1, 1, false)], 5), {FROM_O, FROM_B, FROM_A}, {(2, VIA_O), (1, VIA_B), (1, VIA_O)})
  }

  lemma {:induction false} Step10() returns (acts: seq<Action>)
    ensures Breaks(Stage0(), acts, Stage10(), Installing) && CalmNet(Stage10())
  {
    hide Breaks, CalmNet;
    acts := Step9();
    acts := Then(Stage0(), acts, Stage9(), Deliver(2, FROM_A, 0, 1, 0, false), Stage10(), Installing);
  }

  ghost function Stage11(): Net {
    Three(Nd(101, map[VIA_B := Rt(5, 1, false), VIA_O := Rt(0, 1, true)], 1),
          Nd(102, map[VIA_O := Rt(0, 5, false), VIA_A := Rt(1, 1, true)], 5), {FROM_O, FROM_B, FROM_A}, {(2, VIA_O), (1, VIA_B), (1, VIA_O), (2, VIA_A)})
  }

  lemma {:induction false} Step11() returns (acts: seq<Action>)
    ensures Breaks(Stage0(), acts, Stage11(), Installing) && CalmNet(Stage11())
  {
    hide Breaks, CalmNet;
    acts := Step10();
    acts := Then(Stage0(), acts, Stage10(), Local(2, Switch(VIA_O, VIA_A)), Stage11(), Installing);
  }

  // A sees its route through B retracted, and loses the one to O.

  ghost function Stage12(): Net {
    Three(Nd(101, map[VIA_B := Rt(INFINITY, INFINITY, false), VIA_O := Rt(0, 1, true)], 1),
          Nd(102, map[VIA_O := Rt(0, 5, false), VIA_A := Rt(1, 1, true)], 5), {FROM_O, FROM_B, FROM_A}, {(2, VIA_O), (1, VIA_B), (1, VIA_O), (2, VIA_A)})
  }

  lemma {:induction false} Step12() returns (acts: seq<Action>)
    ensures Breaks(Stage0(), acts, Stage12(), Installing) && CalmNet(Stage12())
  {
    hide Breaks, CalmNet;
    acts := Step11();
    acts := Then(Stage0(), acts, Stage11(), Local(1, Retract(VIA_B, 0)), Stage12(), Installing);
  }

  ghost function Stage13(): Net {
    Three(Nd(101, map[VIA_B := Rt(INFINITY, INFINITY, false), VIA_O := Rt(0, 1, false)], 1),
          Nd(102, map[VIA_O := Rt(0, 5, false), VIA_A := Rt(1, 1, true)], 5), {FROM_O, FROM_B, FROM_A}, {(2, VIA_O), (1, VIA_B), (1, VIA_O), (2, VIA_A)})
  }

  lemma {:induction false} Step13() returns (acts: seq<Action>)
    ensures Breaks(Stage0(), acts, Stage13(), Installing) && CalmNet(Stage13())
  {
    hide Breaks, CalmNet;
    acts := Step12();
    acts := Then(Stage0(), acts, Stage12(), Local(1, Uninstall(VIA_O)), Stage13(), Installing);
  }

  ghost function Stage14(): Net {
    Three(Nd(101, map[VIA_B := Rt(INFINITY, INFINITY, false)], 1),
          Nd(102, map[VIA_O := Rt(0, 5, false), VIA_A := Rt(1, 1, true)], 5), {FROM_O, FROM_B, FROM_A}, {(2, VIA_O), (1, VIA_B), (1, VIA_O), (2, VIA_A)})
  }

  lemma {:induction false} Step14() returns (acts: seq<Action>)
    ensures Breaks(Stage0(), acts, Stage14(), Installing) && CalmNet(Stage14())
  {
    hide Breaks, CalmNet;
    acts := Step13();
    acts := Then(Stage0(), acts, Stage13(), Local(1, Flush(VIA_O)), Stage14(), Installing);
  }

  // With nothing left A installs the retracted route through B, and an old update from B, unfeasible for A, makes it finite.

  ghost function Stage15(): Net {
    Three(Nd(101, map[VIA_B := Rt(INFINITY, INFINITY, true)], 1),
          Nd(102, map[VIA_O := Rt(0, 5, false), VIA_A := Rt(1, 1, true)], 5), {FROM_O, FROM_B, FROM_A}, {(2, VIA_O), (1, VIA_O), (2, VIA_A)})
  }

  lemma {:induction false} Step15() returns (acts: seq<Action>)
    ensures Breaks(Stage0(), acts, Stage15(), Installing) && CalmNet(Stage15())
  {
    hide Breaks, CalmNet;
    acts := Step14();
    acts := Then(Stage0(), acts, Stage14(), Local(1, Install(VIA_B)), Stage15(), Installing);
  }

  ghost function Stage16(): Net {
    Three(Nd(101, map[VIA_B := Rt(5, 1, true)], 1),
          Nd(102, map[VIA_O := Rt(0, 5, false), VIA_A := Rt(1, 1, true)], 5), {FROM_O, FROM_B, FROM_A}, {(2, VIA_O), (1, VIA_O), (2, VIA_A)})
  }

  lemma {:induction false} Step16() returns (acts: seq<Action>)
    ensures Breaks(Stage0(), acts, Stage16(), Installing) && CalmNet(Stage16())
  {
    hide Breaks, CalmNet;
    acts := Step15();
    acts := Then(Stage0(), acts, Stage15(), Deliver(1, FROM_B, 0, 1, 0, false), Stage16(), Installing);
  }

  /** Loop freedom fails without the guard on installing: with the default settings,
      A and B end up forwarding to each other through routes of finite metric for the
      same source. */
  lemma {:induction false} TwoNodeLoop() returns (s: Net, acts: seq<Action>, t: Net, hops: seq<(nat, Key)>)
    ensures Initial(s) && Run(s, acts, t) && Breaks(s, acts, t, Installing) && Loop(t, 100, hops) && |hops| == 2
    ensures forall i :: 0 <= i < |hops| ==> RouteMetric(t.nodes[hops[i].0].routes[hops[i].1]) < INFINITY
  {
    hide Breaks, Run, CalmNet;
    s, t, hops := Stage0(), Stage16(), [(1, VIA_B), (2, VIA_A)];
    acts := Step16();
    BreaksIsRun(s, acts, t, Installing);
  }
}
