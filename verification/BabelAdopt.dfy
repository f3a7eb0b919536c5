/**
 A second run that ends in a forwarding loop.  It breaks the guard of module
 BabelNetwork only by accepting a retraction from another source for an installed
 route.
 */
module BabelAdopt {
  import opened Common
  import opened BabelNode
  import opened BabelNetwork
  import opened BabelLoop

  const OWN := Message(2, Update(102, 0, 0))
  const RETRACTED := Message(2, Update(100, 0, INFINITY))

  /** A, once it knows of both sources. */
  ghost function TwoSources(routes: map<Key, Route>): Node {
    Node(101, 0, None, routes, map[100 := Source(0, 1, 0), 102 := Source(0, INFINITY, 0)])
  }

  ghost function Adopt0(): Net {
    Three(Node(101, 0, None, map[], map[]),
          Node(102, 0, Some(0), map[], map[]), {}, {})
  }

  // B announces the prefix as its own, and then no longer has it.

  ghost function Adopt1(): Net {
    Three(Node(101, 0, None, map[], map[]),
          Node(102, 0, Some(0), map[], map[]), {OWN}, {})
  }

  lemma {:induction false} AdoptStep1() returns (acts: seq<Action>)
    ensures Breaks(Adopt0(), acts, Adopt1(), Accepting) && CalmNet(Adopt1())
  {
    CalmIsLive(Adopt0());
    acts := Then(Adopt0(), [], Adopt0(), SendOwn(2, 0), Adopt1(), Accepting);
  }

  ghost function Adopt2(): Net {
    Three(Node(101, 0, None, map[], map[]),
          Node(102, 0, None, map[], map[]), {OWN}, {})
  }

  lemma {:induction false} AdoptStep2() returns (acts: seq<Action>)
    ensures Breaks(Adopt0(), acts, Adopt2(), Accepting) && CalmNet(Adopt2())
  {
    hide Breaks, CalmNet;
    acts := AdoptStep1();
    acts := Then(Adopt0(), acts, Adopt1(), Local(2, SetXroute(None)), Adopt2(), Accepting);
  }

  // B learns a route from O and announces it, loses it and announces that.

  ghost function Adopt3(): Net {
    Three(Node(101, 0, None, map[], map[]),
          Node(102, 0, None, map[], map[]), {OWN, FROM_O}, {})
  }

  lemma {:induction false} AdoptStep3() returns (acts: seq<Action>)
    ensures Breaks(Adopt0(), acts, Adopt3(), Accepting) && CalmNet(Adopt3())
  {
    hide Breaks, CalmNet;
    acts := AdoptStep2();
    acts := Then(Adopt0(), acts, Adopt2(), SendOwn(0, 0), Adopt3(), Accepting);
  }

  ghost function Adopt4(): Net {
    Three(Node(101, 0, None, map[], map[]),
          Nd(102, map[VIA_O := Rt(0, 5, false)], INFINITY), {OWN, FROM_O}, {})
  }

  lemma {:induction false} AdoptStep4() returns (acts: seq<Action>)
    ensures Breaks(Adopt0(), acts, Adopt4(), Accepting) && CalmNet(Adopt4())
  {
    hide Breaks, CalmNet;
    acts := AdoptStep3();
    acts := Then(Adopt0(), acts, Adopt3(), Deliver(2, FROM_O, 0, 5, 0, false), Adopt4(), Accepting);
  }

  ghost function Adopt5(): Net {
    Three(Node(101, 0, None, map[], map[]),
          Nd(102, map[VIA_O := Rt(0, 5, true)], INFINITY), {OWN, FROM_O}, {(2, VIA_O)})
  }

  lemma {:induction false} AdoptStep5() returns (acts: seq<Action>)
    ensures Breaks(Adopt0(), acts, Adopt5(), Accepting) && CalmNet(Adopt5())
  {
    hide Breaks, CalmNet;
    acts := AdoptStep4();
    acts := Then(Adopt0(), acts, Adopt4(), Local(2, Install(VIA_O)), Adopt5(), Accepting);
  }

  ghost function Adopt6(): Net {
    Three(Node(101, 0, None, map[], map[]),
          Nd(102, map[VIA_O := Rt(0, 5, true)], 5), {OWN, FROM_O, FROM_B}, {(2, VIA_O)})
  }

  lemma {:induction false} AdoptStep6() returns (acts: seq<Action>)
    ensures Breaks(Adopt0(), acts, Adopt6(), Accepting) && CalmNet(Adopt6())
  {
    hide Breaks, CalmNet;
    acts := AdoptStep5();
    acts := Then(Adopt0(), acts, Adopt5(), SendRoute(2, VIA_O, false, 256, 0), Adopt6(), Accepting);
  }

  ghost function Adopt7(): Net {
    Three(Node(101, 0, None, map[], map[]),
          Nd(102, map[VIA_O := Rt(INFINITY, INFINITY, true)], 5), {OWN, FROM_O, FROM_B}, {(2, VIA_O)})
  }

  lemma {:induction false} AdoptStep7() returns (acts: seq<Action>)
    ensures Breaks(Adopt0(), acts, Adopt7(), Accepting) && CalmNet(Adopt7())
  {
    hide Breaks, CalmNet;
    acts := AdoptStep6();
    acts := Then(Adopt0(), acts, Adopt6(), Local(2, Retract(VIA_O, 0)), Adopt7(), Accepting);
  }

  ghost function Adopt8(): Net {
    Three(Node(101, 0, None, map[], map[]),
          Nd(102, map[VIA_O := Rt(INFINITY, INFINITY, true)], 5), {OWN, FROM_O, FROM_B, RETRACTED}, {(2, VIA_O)})
  }

  lemma {:induction false} AdoptStep8() returns (acts: seq<Action>)
    ensures Breaks(Adopt0(), acts, Adopt8(), Accepting) && CalmNet(Adopt8())
  {
    hide Breaks, CalmNet;
    acts := AdoptStep7();
    acts := Then(Adopt0(), acts, Adopt7(), SendRoute(2, VIA_O, false, 256, 0), Adopt8(), Accepting);
  }

  // A learns a route from O and announces it, and B switches to that.

  ghost function Adopt9(): Net {
    Three(Nd(101, map[VIA_O := Rt(0, 1, false)], INFINITY),
          Nd(102, map[VIA_O := Rt(INFINITY, INFINITY, true)], 5), {OWN, FROM_O, FROM_B, RETRACTED}, {(2, VIA_O)})
  }

  lemma {:induction false} AdoptStep9() returns (acts: seq<Action>)
    ensures Breaks(Adopt0(), acts, Adopt9(), Accepting) && CalmNet(Adopt9())
  {
    hide Breaks, CalmNet;
    acts := AdoptStep8();
    acts := Then(Adopt0(), acts, Adopt8(), Deliver(1, FROM_O, 0, 1, 0, false), Adopt9(), Accepting);
  }

  ghost function Adopt10(): Net {
    Three(Nd(101, map[VIA_O := Rt(0, 1, true)], INFINITY),
          Nd(102, map[VIA_O := Rt(INFINITY, INFINITY, true)], 5), {OWN, FROM_O, FROM_B, RETRACTED}, {(2, VIA_O), (1, VIA_O)})
  }

  lemma {:induction false} AdoptStep10() returns (acts: seq<Action>)
    ensures Breaks(Adopt0(), acts, Adopt10(), Accepting) && CalmNet(Adopt10())
  {
    hide Breaks, CalmNet;
    acts := AdoptStep9();
    acts := Then(Adopt0(), acts, Adopt9(), Local(1, Install(VIA_O)), Adopt10(), Accepting);
  }

  ghost function Adopt11(): Net {
    Three(Nd(101, map[VIA_O := Rt(0, 1, true)], 1),
          Nd(102, map[VIA_O := Rt(INFINITY, INFINITY, true)], 5), {OWN, FROM_O, FROM_B, RETRACTED, FROM_A}, {(2, VIA_O), (1, VIA_O)})
  }

  lemma {:induction false} AdoptStep11() returns (acts: seq<Action>)
    ensures Breaks(Adopt0(), acts, Adopt11(), Accepting) && CalmNet(Adopt11())
  {
    hide Breaks, CalmNet;
    acts := AdoptStep10();
    acts := Then(Adopt0(), acts, Adopt10(), SendRoute(1, VIA_O, false, 256, 0), Adopt11(), Accepting);
  }

  ghost function Adopt12(): Net {
    Three(Nd(101, map[VIA_O := Rt(0, 1, true)], 1),
          Nd(102, map[VIA_O := Rt(INFINITY, INFINITY, true), VIA_A := Rt(1, 1, false)], 5), {OWN, FROM_O, FROM_B, RETRACTED, FROM_A}, {(2, VIA_O), (1, VIA_O)})
  }

  lemma {:induction false} AdoptStep12() returns (acts: seq<Action>)
    ensures Breaks(Adopt0(), acts, Adopt12(), Accepting) && CalmNet(Adopt12())
  {
    hide Breaks, CalmNet;
    acts := AdoptStep11();
    acts := Then(Adopt0(), acts, Adopt11(), Deliver(2, FROM_A, 0, 1, 0, false), Adopt12(), Accepting);
  }

  ghost function Adopt13(): Net {
    Three(Nd(101, map[VIA_O := Rt(0, 1, true)], 1),
          Nd(102, map[VIA_O := Rt(INFINITY, INFINITY, false), VIA_A := Rt(1, 1, true)], 5), {OWN, FROM_O, FROM_B, RETRACTED, FROM_A}, {(2, VIA_O), (1, VIA_O), (2, VIA_A)})
  }

  lemma {:induction false} AdoptStep13() returns (acts: seq<Action>)
    ensures Breaks(Adopt0(), acts, Adopt13(), Accepting) && CalmNet(Adopt13())
  {
    hide Breaks, CalmNet;
    acts := AdoptStep12();
    acts := Then(Adopt0(), acts, Adopt12(), Local(2, Switch(VIA_O, VIA_A)), Adopt13(), Accepting);
  }

  // A hears of the prefix that B had, loses O, and installs the route to B.

  ghost function Adopt14(): Net {
    Three(TwoSources(map[VIA_O := Rt(0, 1, true), VIA_B := Route(102, 0, 0, 1, 0, false)]),
          Nd(102, map[VIA_O := Rt(INFINITY, INFINITY, false), VIA_A := Rt(1, 1, true)], 5), {OWN, FROM_O, FROM_B, RETRACTED, FROM_A}, {(2, VIA_O), (1, VIA_O), (2, VIA_A)})
  }

  lemma {:induction false} AdoptStep14() returns (acts: seq<Action>)
    ensures Breaks(Adopt0(), acts, Adopt14(), Accepting) && CalmNet(Adopt14())
  {
    hide Breaks, CalmNet;
    acts := AdoptStep13();
    acts := Then(Adopt0(), acts, Adopt13(), Deliver(1, OWN, 0, 1, 0, false), Adopt14(), Accepting);
  }

  ghost function Adopt15(): Net {
    Three(TwoSources(map[VIA_O := Rt(0, 1, false), VIA_B := Route(102, 0, 0, 1, 0, false)]),
          Nd(102, map[VIA_O := Rt(INFINITY, INFINITY, false), VIA_A := Rt(1, 1, true)], 5), {OWN, FROM_O, FROM_B, RETRACTED, FROM_A}, {(2, VIA_O), (1, VIA_O), (2, VIA_A)})
  }

  lemma {:induction false} AdoptStep15() returns (acts: seq<Action>)
    ensures Breaks(Adopt0(), acts, Adopt15(), Accepting) && CalmNet(Adopt15())
  {
    hide Breaks, CalmNet;
    acts := AdoptStep14();
    acts := Then(Adopt0(), acts, Adopt14(), Local(1, Uninstall(VIA_O)), Adopt15(), Accepting);
  }

  ghost function Adopt16(): Net {
    Three(TwoSources(map[VIA_B := Route(102, 0, 0, 1, 0, false)]),
          Nd(102, map[VIA_O := Rt(INFINITY, INFINITY, false), VIA_A := Rt(1, 1, true)], 5), {OWN, FROM_O, FROM_B, RETRACTED, FROM_A}, {(2, VIA_O), (1, VIA_O), (2, VIA_A)})
  }

  lemma {:induction false} AdoptStep16() returns (acts: seq<Action>)
    ensures Breaks(Adopt0(), acts, Adopt16(), Accepting) && CalmNet(Adopt16())
  {
    hide Breaks, CalmNet;
    acts := AdoptStep15();
    acts := Then(Adopt0(), acts, Adopt15(), Local(1, Flush(VIA_O)), Adopt16(), Accepting);
  }

  ghost function Adopt17(): Net {
    Three(TwoSources(map[VIA_B := Route(102, 0, 0, 1, 0, true)]),
          Nd(102, map[VIA_O := Rt(INFINITY, INFINITY, false), VIA_A := Rt(1, 1, true)], 5), {OWN, FROM_O, FROM_B, RETRACTED, FROM_A}, {(2, VIA_O), (1, VIA_O), (2, VIA_A), (1, VIA_B)})
  }

  lemma {:induction false} AdoptStep17() returns (acts: seq<Action>)
    ensures Breaks(Adopt0(), acts, Adopt17(), Accepting) && CalmNet(Adopt17())
  {
    hide Breaks, CalmNet;
    acts := AdoptStep16();
    acts := Then(Adopt0(), acts, Adopt16(), Local(1, Install(VIA_B)), Adopt17(), Accepting);
  }

  // B's retraction gives that route the source 100, and an older update from B, unfeasible for A, makes it finite.

  ghost function Adopt18(): Net {
    Three(TwoSources(map[VIA_B := Rt(INFINITY, 1, true)]),
          Nd(102, map[VIA_O := Rt(INFINITY, INFINITY, false), VIA_A := Rt(1, 1, true)], 5), {OWN, FROM_O, FROM_B, RETRACTED, FROM_A}, {(2, VIA_O), (1, VIA_O), (2, VIA_A)})
  }

  lemma {:induction false} AdoptStep18() returns (acts: seq<Action>)
    ensures Breaks(Adopt0(), acts, Adopt18(), Accepting) && CalmNet(Adopt18())
  {
    hide Breaks, CalmNet;
    acts := AdoptStep17();
    acts := Then(Adopt0(), acts, Adopt17(), Deliver(1, RETRACTED, 0, 1, 0, false), Adopt18(), Accepting);
  }

  ghost function Adopt19(): Net {
    Three(TwoSources(map[VIA_B := Rt(5, 1, true)]),
          Nd(102, map[VIA_O := Rt(INFINITY, INFINITY, false), VIA_A := Rt(1, 1, true)], 5), {OWN, FROM_O, FROM_B, RETRACTED, FROM_A}, {(2, VIA_O), (1, VIA_O), (2, VIA_A)})
  }

  lemma {:induction false} AdoptStep19() returns (acts: seq<Action>)
    ensures Breaks(Adopt0(), acts, Adopt19(), Accepting) && CalmNet(Adopt19())
  {
    hide Breaks, CalmNet;
    acts := AdoptStep18();
    acts := Then(Adopt0(), acts, Adopt18(), Deliver(1, FROM_B, 0, 1, 0, false), Adopt19(), Accepting);
  }

  /** Loop freedom fails without the guard on accepting: A and B end up forwarding to
      each other, as in TwoNodeLoop, though no retracted route was ever installed. */
  lemma {:induction false} AdoptedLoop() returns (s: Net, acts: seq<Action>, t: Net, hops: seq<(nat, Key)>)
    ensures Initial(s) && Run(s, acts, t) && Breaks(s, acts, t, Accepting) && Loop(t, 100, hops) && |hops| == 2
    ensures forall i :: 0 <= i < |hops| ==> RouteMetric(t.nodes[hops[i].0].routes[hops[i].1]) < INFINITY
  {
    hide Breaks, Run, CalmNet;
    s, t, hops := Adopt0(), Adopt19(), [(1, VIA_B), (2, VIA_A)];
    acts := AdoptStep19();
    BreaksIsRun(s, acts, t, Accepting);
  }
}
