/**
 The BFD handshake (bfdd/bfd_packet.c, bfdd/bfd.c; sections 6.2 and 6.8.6 of RFC
 5880) between two endpoints whose packets may be lost, duplicated, reordered and
 delayed without limit.
 */
module Bfd {

  datatype State = AdminDown | Down | Init | Up {
    /** A state that an endpoint only reaches by hearing from its peer. */
    predicate Active() { Init? || Up? }
  }

  type Side = n: nat | n < 2

  function Peer(e: Side): Side { 1 - e }

  /** The fields of a control packet that the handshake reads; who sent it and
      when is not in the packet. */
  datatype Packet = Packet(state: State, my: nat, your: nat, poll: bool, final: bool)

  /** The fields of struct bfd_session that the handshake changes. */
  datatype Endpoint = Endpoint(state: State, my: nat, remote: nat, polling: bool, shutdown: bool)

  // ------------------------------------------------------------------
  // What the event handlers do
  // ------------------------------------------------------------------

  function SesUp(e: Endpoint): Endpoint { e.(state := Up, polling := true) }

  function SesDown(e: Endpoint): Endpoint { e.(remote := 0, state := Down, polling := false) }

  /** The state switch of bfd_recv_cb. */
  function Switched(e: Endpoint, s: State): Endpoint {
    if s.AdminDown? then
      if e.state.Down? then e else SesDown(e)
    else
      match e.state
      case Down => if s.Init? then SesUp(e) else if s.Down? then e.(state := Init) else e
      case Init => if s.Init? || s.Up? then SesUp(e) else e
      case Up => if s.Down? then SesDown(e) else e
      case AdminDown => e
  }

  function Received(e: Endpoint, p: Packet): Endpoint {
    Switched(e.(remote := p.my, polling := e.polling && !p.final), p.state)
  }

  /** bfd_recvtimer_cb */
  function TimedOut(e: Endpoint): Endpoint { if e.state.Active() then SesDown(e) else e.(remote := 0) }

  function ShutDown(e: Endpoint): Endpoint { if e.shutdown then e else e.(shutdown := true, state := AdminDown) }

  function Started(e: Endpoint): Endpoint { if e.shutdown then e.(shutdown := false, state := Down) else e }

  /** ptm_bfd_snd */
  function Snd(e: Endpoint, final: bool): Packet { Packet(e.state, e.my, e.remote, e.polling, final) }

  /** ptm_bfd_sess_find: by discriminator if the packet carries ours, else by address. */
  predicate Accepts(e: Endpoint, p: Packet) { p.my != 0 && (p.your == 0 || p.your == e.my) }

  /** Coming up and going down are announced at once. */
  function Notice(was: State, e: Endpoint): seq<Packet> {
    if e.state != was && (e.state.Up? || e.state.Down?) then [Snd(e, false)] else []
  }

  /** A packet with the Poll bit is answered with the Final bit. */
  function Reply(p: Packet, e: Endpoint): seq<Packet> { if p.poll then [Snd(e, true)] else [] }

  /** A packet is answered by a final one exactly if it polls, and by another exactly if
      it takes the session up or down; each carries the state the session has then. */
  lemma {:induction false} AnswersMean(was: State, p: Packet, e: Endpoint)
    ensures var out := Notice(was, e) + Reply(p, e);
            && (forall q :: q in out ==> q.state == e.state && q.my == e.my && q.your == e.remote && q.poll == e.polling)
            && ((exists q :: q in out && q.final) <==> p.poll)
            && ((exists q :: q in out && !q.final) <==> e.state != was && (e.state.Up? || e.state.Down?))
  {
    var notice, out := Notice(was, e), Notice(was, e) + Reply(p, e);
    assert notice != [] ==> out[0] == notice[0] && !out[0].final;
    assert p.poll ==> out[|out| - 1].final && out[|out| - 1] in out;
  }

  /** The session as the code keeps it; each handler does what its function says
      and hands back the packets it sends at once. */
  class Session {
    var state: State
    const my: nat
    var remote: nat
    var polling: bool
    var shutdown: bool

    function View(): Endpoint
      reads this
    {
      Endpoint(state, my, remote, polling, shutdown)
    }

    constructor (my: nat)
      ensures View() == Endpoint(Down, my, 0, false, false)
    {
      this.my, state, remote, polling, shutdown := my, Down, 0, false, false;
    }

    method SessionUp() returns (out: seq<Packet>)
      modifies this
      ensures View() == SesUp(old(View())) && out == [Snd(View(), false)]
    {
      state, polling := Up, true;
      return [Snd(View(), false)];
    }

    method SessionDown() returns (out: seq<Packet>)
      modifies this
      ensures View() == SesDown(old(View())) && out == [Snd(View(), false)]
    {
      remote, state, polling := 0, Down, false;
      return [Snd(View(), false)];
    }

    /** bfd_recv_cb, from the lookup of the session on. */
    method Receive(p: Packet) returns (out: seq<Packet>)
      modifies this
      ensures View() == if Accepts(old(View()), p) then Received(old(View()), p) else old(View())
      ensures out == if Accepts(old(View()), p) then Notice(old(state), View()) + Reply(p, View()) else []
      ensures p.my == 0 || (p.your != 0 && p.your != my) ==> View() == old(View()) && out == []
    {
      out := [];
      if p.my == 0 || (p.your != 0 && p.your != my) { return; }
      remote := p.my;
      if polling && p.final { polling := false; }
      if p.state == AdminDown {
        if state != Down { out := SessionDown(); }
      } else {
        match state
        case Down =>
          if p.state == Init { out := SessionUp(); } else if p.state == Down { state := Init; }
        case Init =>
          if p.state == Init || p.state == Up { out := SessionUp(); }
        case Up =>
          if p.state == Down { out := SessionDown(); }
        case AdminDown =>
      }
      if p.poll { out := out + [Snd(View(), true)]; }
    }

    method RecvTimer() returns (out: seq<Packet>)
      modifies this
      ensures View() == TimedOut(old(View())) && out == Notice(old(state), View())
      ensures out != [] <==> old(state).Active()
    {
      out := [];
      match state {
        case Init => out := SessionDown();
        case Up => out := SessionDown();
        case _ => remote := 0;
      }
    }

    method SetShutdown(down: bool) returns (out: seq<Packet>)
      modifies this
      ensures View() == if down then ShutDown(old(View())) else Started(old(View()))
      ensures out == if down && !old(shutdown) then [Snd(View(), false)] else []
    {
      out := [];
      if shutdown == down { return; }
      shutdown := down;
      if down {
        state := AdminDown;
        out := [Snd(View(), false)];
      } else {
        state := Down;
      }
    }
  }

  // ------------------------------------------------------------------
  // Runs of two endpoints
  // ------------------------------------------------------------------

  /** A packet on its way, with the step at which it was sent. */
  datatype Sent = Sent(from: Side, at: nat, p: Packet)

  datatype World = World(ends: map<Side, Endpoint>, sent: set<Sent>)

  datatype Action =
    | Send(e: Side, final: bool)
    | Recv(e: Side, s: Sent)
    | Timer(e: Side)
    | Shut(e: Side)
    | Start(e: Side)

  ghost predicate Ok(w: World) { 0 in w.ends && 1 in w.ends && w.ends[0].my != 0 && w.ends[1].my != 0 }

  ghost predicate Can(w: World, a: Action)
    requires Ok(w)
  {
    a.Recv? ==> a.s in w.sent && a.s.from == Peer(a.e) && Accepts(w.ends[a.e], a.s.p)
  }

  function Changed(e: Endpoint, a: Action): Endpoint {
    match a
    case Send(_, _) => e
    case Recv(_, s) => Received(e, s.p)
    case Timer(_) => TimedOut(e)
    case Shut(_) => ShutDown(e)
    case Start(_) => Started(e)
  }

  /** Step number `t`. */
  ghost function Next(w: World, a: Action, t: nat): World
    requires Ok(w)
  {
    World(w.ends[a.e := Changed(w.ends[a.e], a)],
          if a.Send? then w.sent + {Sent(a.e, t, Snd(w.ends[a.e], a.final))} else w.sent)
  }

  /** A run: `ws[t]` is the world before step `t`. */
  ghost predicate Run(ws: seq<World>, acts: seq<Action>) {
    && |ws| == |acts| + 1
    && (forall t :: 0 <= t < |ws| ==> Ok(ws[t]))
    && ws[0].sent == {} && !ws[0].ends[0].state.Active() && !ws[0].ends[1].state.Active()
    && (forall t :: 0 <= t < |acts| ==> Can(ws[t], acts[t]) && ws[t + 1] == Next(ws[t], acts[t], t))
  }

  ghost function StateAt(ws: seq<World>, e: Side, t: nat): State
    requires t < |ws| && Ok(ws[t])
  {
    ws[t].ends[e].state
  }

  /** Endpoint `e` has been active from just after step `j` up to step `t`. */
  ghost predicate ActiveSince(ws: seq<World>, e: Side, j: nat, t: nat) {
    t < |ws| && (forall u :: 0 <= u < |ws| ==> Ok(ws[u])) && forall u :: j < u <= t ==> StateAt(ws, e, u).Active()
  }

  ghost predicate UpSince(ws: seq<World>, e: Side, j: nat, t: nat) {
    t < |ws| && (forall u :: 0 <= u < |ws| ==> Ok(ws[u])) && forall u :: j < u <= t ==> StateAt(ws, e, u).Up?
  }

  /** Every packet was sent by the step it says, in the state it shows. */
  lemma {:induction false} SentBefore(ws: seq<World>, acts: seq<Action>, t: nat, s: Sent)
    requires Run(ws, acts) && t < |ws| && s in ws[t].sent
    ensures s.at < t && acts[s.at].Send? && acts[s.at].e == s.from && s.p.state == StateAt(ws, s.from, s.at)
  {
    if t > 0 {
      assert ws[t] == Next(ws[t - 1], acts[t - 1], t - 1);
      if s in ws[t - 1].sent { SentBefore(ws, acts, t - 1, s); }
    }
  }

  /** What a step can do to the state of an endpoint. */
  lemma {:induction false} StateChange(ws: seq<World>, acts: seq<Action>, t: nat, e: Side)
    requires Run(ws, acts) && t < |acts|
    ensures var x, y := StateAt(ws, e, t), StateAt(ws, e, t + 1);
            && (y.Active() && !x.Active() ==> acts[t].Recv? && acts[t].e == e)
            && (y.Up? && !x.Up? ==> acts[t].Recv? && acts[t].e == e && acts[t].s.p.state.Active())
  {
    assert ws[t + 1] == Next(ws[t], acts[t], t);
  }

  /** An active endpoint has heard from its peer, and been active since. */
  lemma {:induction false} HeardFromPeer(ws: seq<World>, acts: seq<Action>, e: Side, t: nat) returns (j: nat)
    requires Run(ws, acts) && t < |ws| && StateAt(ws, e, t).Active()
    ensures j < t && acts[j].Recv? && acts[j].e == e && ActiveSince(ws, e, j, t)
  {
    hide Next, Can;
    StateChange(ws, acts, t - 1, e);
    if StateAt(ws, e, t - 1).Active() {
      j := HeardFromPeer(ws, acts, e, t - 1);
    } else {
      j := t - 1;
    }
  }

  /** An endpoint that is up came up on a packet of an active peer. */
  lemma {:induction false} CameUp(ws: seq<World>, acts: seq<Action>, e: Side, t: nat) returns (l: nat)
    requires Run(ws, acts) && t < |ws| && StateAt(ws, e, t).Up?
    ensures l < t && acts[l].Recv? && acts[l].e == e && acts[l].s.p.state.Active() && UpSince(ws, e, l, t)
  {
    StateChange(ws, acts, t - 1, e);
    if StateAt(ws, e, t - 1).Up? {
      l := CameUp(ws, acts, e, t - 1);
    } else {
      l := t - 1;
    }
  }

  /** Bidirectionality: in every run, an endpoint that is up sent a packet (step
      `i`) that its peer received (`j`); the peer, active ever since, sent one
      (`k`) that the endpoint received (`l`), and it has been up ever since. */
  lemma {:induction false} Bidirectional(ws: seq<World>, acts: seq<Action>, e: Side, t: nat) returns (i: nat, j: nat, k: nat, l: nat)
    requires Run(ws, acts) && t < |ws| && StateAt(ws, e, t).Up?
    ensures i < j < k < l < t
    ensures acts[i].Send? && acts[i].e == e
    ensures acts[j].Recv? && acts[j].e == Peer(e) && acts[j].s.at == i && ActiveSince(ws, Peer(e), j, k)
    ensures acts[k].Send? && acts[k].e == Peer(e)
    ensures acts[l].Recv? && acts[l].e == e && acts[l].s.at == k && UpSince(ws, e, l, t)
  {
    l := CameUp(ws, acts, e, t);
    SentBefore(ws, acts, l, acts[l].s);
    k := acts[l].s.at;
    j := HeardFromPeer(ws, acts, Peer(e), k);
    SentBefore(ws, acts, j, acts[j].s);
    i := acts[j].s.at;
  }

  // ------------------------------------------------------------------
  // Failure detection
  // ------------------------------------------------------------------

  /** What ends a session in state `x`: its detection timer, a peer that says
      AdminDown, or Down to a session that is up, and the operator. */
  predicate Ends(x: State, shutdown: bool, a: Action) {
    match a
    case Send(_, _) => false
    case Recv(_, s) => s.p.state.AdminDown? || (s.p.state.Down? && x.Up?)
    case Timer(_) => true
    case Shut(_) => !shutdown
    case Start(_) => shutdown
  }

  /** What brings a session in state `x` up. */
  predicate Raises(x: State, a: Action) {
    && a.Recv?
    && ((x.Down? && a.s.p.state.Init?) || (x.Init? && (a.s.p.state.Init? || a.s.p.state.Up?)))
  }

  ghost predicate EndsAt(ws: seq<World>, acts: seq<Action>, e: Side, u: nat)
    requires u < |ws| && Ok(ws[u]) && u < |acts|
  {
    acts[u].e == e && Ends(StateAt(ws, e, u), ws[u].ends[e].shutdown, acts[u])
  }

  /** An active endpoint stays active exactly through the steps that do not end its
      session. */
  lemma {:induction false} ActiveExact(ws: seq<World>, acts: seq<Action>, e: Side, t: nat)
    requires Run(ws, acts) && t < |acts| && StateAt(ws, e, t).Active()
    ensures StateAt(ws, e, t + 1).Active() <==> !EndsAt(ws, acts, e, t)
    ensures StateAt(ws, e, t).Up? && StateAt(ws, e, t + 1).Active() ==> StateAt(ws, e, t + 1).Up?
  {
    EndAfter(ws, acts, e, t);
  }

  /** And an endpoint that is not up comes up by the packets of the handshake alone. */
  lemma {:induction false} UpExact(ws: seq<World>, acts: seq<Action>, e: Side, t: nat)
    requires Run(ws, acts) && t < |acts| && !StateAt(ws, e, t).Up?
    ensures StateAt(ws, e, t + 1).Up? <==> acts[t].e == e && Raises(StateAt(ws, e, t), acts[t])
    ensures StateAt(ws, e, t).Down? ==>
              (StateAt(ws, e, t + 1).Init? <==> acts[t].e == e && acts[t].Recv? && acts[t].s.p.state.Down?)
  {
    EndAfter(ws, acts, e, t);
  }

  /** Failure detection over runs: an endpoint that is up is up exactly as long as
      nothing ends its session, and after what does it is not active. */
  lemma {:induction false} UpUntilEnded(ws: seq<World>, acts: seq<Action>, e: Side, s: nat, t: nat)
    requires Run(ws, acts) && s <= t < |ws| && StateAt(ws, e, s).Up?
    ensures UpSince(ws, e, s, t) <==> forall u :: s <= u < t ==> !EndsAt(ws, acts, e, u)
    ensures forall u :: s <= u < t && UpSince(ws, e, s, u) && EndsAt(ws, acts, e, u) ==> !StateAt(ws, e, u + 1).Active()
  {
    hide Next, Can, Ends;
    forall u | s <= u < t && StateAt(ws, e, u).Up?
      ensures StateAt(ws, e, u + 1).Up? <==> !EndsAt(ws, acts, e, u)
      ensures EndsAt(ws, acts, e, u) ==> !StateAt(ws, e, u + 1).Active()
    {
      ActiveExact(ws, acts, e, u);
    }
    if forall u :: s <= u < t ==> !EndsAt(ws, acts, e, u) { UpWhileQuiet(ws, acts, e, s, t); }
    if UpSince(ws, e, s, t) {
      forall u | s <= u < t ensures !EndsAt(ws, acts, e, u) {
        assert StateAt(ws, e, u + 1).Up? && StateAt(ws, e, u).Up?;
      }
    }
  }

  lemma {:induction false} UpWhileQuiet(ws: seq<World>, acts: seq<Action>, e: Side, s: nat, t: nat)
    requires Run(ws, acts) && s <= t < |ws| && StateAt(ws, e, s).Up?
    requires forall u :: s <= u < t ==> !EndsAt(ws, acts, e, u)
    ensures UpSince(ws, e, s, t)
  {
    hide Next, Can, Ends;
    if s < t {
      UpWhileQuiet(ws, acts, e, s, t - 1);
      ActiveExact(ws, acts, e, t - 1);
    }
  }

  /** A failure is forgotten about: what the endpoint says next names no peer and asks
      for no answer. */
  lemma {:induction false} FailureForgets(ws: seq<World>, acts: seq<Action>, e: Side, t: nat)
    requires Run(ws, acts) && t < |acts| && acts[t].e == e
    requires acts[t].Timer? || (acts[t].Recv? && StateAt(ws, e, t) != Down && StateAt(ws, e, t + 1).Down?)
    ensures Snd(ws[t + 1].ends[e], false).your == 0
    ensures StateAt(ws, e, t).Active() || acts[t].Recv? ==> !Snd(ws[t + 1].ends[e], false).poll
  {
    EndAfter(ws, acts, e, t);
  }

  /** Between steps `s` and `t` endpoint `e` receives a packet with the Final bit. */
  ghost predicate HearsFinal(acts: seq<Action>, e: Side, s: nat, t: nat)
    requires t <= |acts|
  {
    exists u :: s <= u < t && acts[u].Recv? && acts[u].e == e && acts[u].s.p.final
  }

  lemma {:induction false} FinalHeard(acts: seq<Action>, e: Side, s: nat, t: nat)
    requires s <= t <= |acts|
    ensures HearsFinal(acts, e, s, t)
       <==> s < t && (HearsFinal(acts, e, s, t - 1) || (acts[t - 1].Recv? && acts[t - 1].e == e && acts[t - 1].s.p.final))
  {
  }

  /** An endpoint that came up at step `l` polls its peer exactly until it hears a
      Final bit. */
  lemma {:induction false} PollsUntilFinal(ws: seq<World>, acts: seq<Action>, e: Side, l: nat, t: nat)
    requires Run(ws, acts) && l < t < |ws| && !StateAt(ws, e, l).Up? && UpSince(ws, e, l, t)
    ensures Snd(ws[t].ends[e], false).poll <==> !HearsFinal(acts, e, l + 1, t)
  {
    hide HearsFinal, Run;
    RunLength(ws, acts);
    EndAfter(ws, acts, e, t - 1);
    FinalHeard(acts, e, l + 1, t);
    if t == l + 1 {
      UpExact(ws, acts, e, l);
    } else {
      PollsUntilFinal(ws, acts, e, l, t - 1);
      assert StateAt(ws, e, t - 1).Up? && StateAt(ws, e, t).Up?;
    }
  }

  // ------------------------------------------------------------------
  // Discriminators
  // ------------------------------------------------------------------

  /** Whoever is active knows its peer's discriminator, so every Init and Up
      packet carries its receiver's. */
  ghost predicate Discriminators(w: World)
    requires Ok(w)
  {
    && (forall e: Side :: w.ends[e].state.Active() ==> w.ends[e].remote == w.ends[Peer(e)].my)
    && (forall s :: s in w.sent ==> s.p.my == w.ends[s.from].my)
    && (forall s :: s in w.sent && s.p.state.Active() ==> s.p.your == w.ends[Peer(s.from)].my)
  }

  lemma {:induction false} DiscriminatorsHold(ws: seq<World>, acts: seq<Action>, t: nat)
    requires Run(ws, acts) && t < |ws|
    ensures Discriminators(ws[t])
  {
    if t > 0 {
      DiscriminatorsHold(ws, acts, t - 1);
      StepKeepsDiscriminators(ws[t - 1], acts[t - 1], t - 1);
    }
  }

  lemma {:induction false} StepKeepsDiscriminators(w: World, a: Action, t: nat)
    requires Ok(w) && Discriminators(w) && Can(w, a)
    ensures Ok(Next(w, a, t)) && Discriminators(Next(w, a, t))
  {
    ChangedKnows(w.ends[a.e], a, w.ends[Peer(a.e)].my);
    hide Changed;
    var x := Next(w, a, t);
    forall e: Side ensures x.ends[e].state.Active() ==> x.ends[e].remote == x.ends[Peer(e)].my {}
  }

  lemma {:induction false} ChangedKnows(e: Endpoint, a: Action, my: nat)
    requires (e.state.Active() ==> e.remote == my) && (a.Recv? ==> a.s.p.my == my)
    ensures Changed(e, a).my == e.my && (Changed(e, a).state.Active() ==> Changed(e, a).remote == my)
  {
  }

  // ------------------------------------------------------------------
  // Administrative shutdown
  // ------------------------------------------------------------------

  /** What a packet does to an endpoint that was shut down: nothing, unless the
      packet says AdminDown too. */
  lemma {:induction false} AdminDownKept(e: Endpoint, p: Packet)
    requires e.state.AdminDown?
    ensures Received(e, p).state.AdminDown? <==> !p.state.AdminDown?
    ensures p.state.AdminDown? ==> Received(e, p).state.Down? && Received(e, p).shutdown == e.shutdown
  {
  }

  /** Nobody says AdminDown without having been shut down. */
  lemma {:induction false} NeverAdminDown(ws: seq<World>, acts: seq<Action>, e: Side, t: nat)
    requires Run(ws, acts) && t < |ws| && !StateAt(ws, e, 0).AdminDown?
    requires forall u :: 0 <= u < t ==> acts[u] != Shut(e)
    ensures !StateAt(ws, e, t).AdminDown?
  {
    if t > 0 {
      NeverAdminDown(ws, acts, e, t - 1);
      assert ws[t] == Next(ws[t - 1], acts[t - 1], t - 1);
    }
  }

  /** Between steps `s` and `t` endpoint `e` receives a packet that says AdminDown. */
  ghost predicate HearsAdminDown(acts: seq<Action>, e: Side, s: nat, t: nat)
    requires t <= |acts|
  {
    exists u :: s <= u < t && acts[u].Recv? && acts[u].e == e && acts[u].s.p.state.AdminDown?
  }

  /** Until it is undone, a shutdown holds in exactly the runs in which no AdminDown
      packet is received. */
  lemma {:induction false} ShutdownExact(ws: seq<World>, acts: seq<Action>, e: Side, s: nat, t: nat)
    requires Run(ws, acts) && s <= t < |ws| && StateAt(ws, e, s).AdminDown? && ws[s].ends[e].shutdown
    requires forall u :: s <= u < t ==> acts[u] != Start(e)
    ensures ws[t].ends[e].shutdown && (StateAt(ws, e, t).AdminDown? <==> !HearsAdminDown(acts, e, s, t))
  {
    hide HearsAdminDown, Run, Changed;
    RunLength(ws, acts);
    if s == t {
      HearsNothing(acts, e, s);
    } else {
      ShutdownExact(ws, acts, e, s, t - 1);
      EndAfter(ws, acts, e, t - 1);
      HearsMore(acts, e, s, t);
      if acts[t - 1].e == e { StaysShut(ws[t - 1].ends[e], acts[t - 1]); }
    }
  }

  lemma {:induction false} RunLength(ws: seq<World>, acts: seq<Action>)
    requires Run(ws, acts)
    ensures |ws| == |acts| + 1
  {
  }

  lemma {:induction false} EndAfter(ws: seq<World>, acts: seq<Action>, e: Side, t: nat)
    requires Run(ws, acts) && t < |acts|
    ensures Ok(ws[t]) && Ok(ws[t + 1])
    ensures ws[t + 1].ends[e] == if acts[t].e == e then Changed(ws[t].ends[e], acts[t]) else ws[t].ends[e]
  {
    hide Changed;
    assert ws[t + 1] == Next(ws[t], acts[t], t);
  }

  lemma {:induction false} HearsNothing(acts: seq<Action>, e: Side, s: nat)
    requires s <= |acts|
    ensures !HearsAdminDown(acts, e, s, s)
  {
  }

  lemma {:induction false} HearsMore(acts: seq<Action>, e: Side, s: nat, t: nat)
    requires s < t <= |acts|
    ensures var a := acts[t - 1];
            HearsAdminDown(acts, e, s, t)
            <==> HearsAdminDown(acts, e, s, t - 1) || (a.Recv? && a.e == e && a.s.p.state.AdminDown?)
  {
  }

  /** An endpoint that is shut down leaves AdminDown on an AdminDown packet only, and
      comes back to it only after a start. */
  lemma {:induction false} StaysShut(e: Endpoint, a: Action)
    requires e.shutdown && !a.Start?
    ensures Changed(e, a).shutdown
    ensures Changed(e, a).state.AdminDown? <==> e.state.AdminDown? && !(a.Recv? && a.s.p.state.AdminDown?)
  {
  }

  /** So it holds as long as the peer has not been shut down. */
  lemma {:induction false} ShutdownHolds(ws: seq<World>, acts: seq<Action>, e: Side, s: nat, t: nat)
    requires Run(ws, acts) && s <= t < |ws| && StateAt(ws, e, s).AdminDown? && ws[s].ends[e].shutdown
    requires forall u :: s <= u < t ==> acts[u] != Start(e)
    requires !StateAt(ws, Peer(e), 0).AdminDown? && forall u :: 0 <= u < t ==> acts[u] != Shut(Peer(e))
    ensures StateAt(ws, e, t).AdminDown? && ws[t].ends[e].shutdown
  {
    ShutdownExact(ws, acts, e, s, t);
    if HearsAdminDown(acts, e, s, t) {
      var u :| s <= u < t && acts[u].Recv? && acts[u].e == e && acts[u].s.p.state.AdminDown?;
      SentBefore(ws, acts, u, acts[u].s);
      NeverAdminDown(ws, acts, Peer(e), acts[u].s.at);
    }
  }

  function TwoEnds(a: Endpoint, b: Endpoint, sent: set<Sent>): World { World(map[0 := a, 1 := b], sent) }

  lemma {:induction false} StepIs(a: Endpoint, b: Endpoint, sent: set<Sent>, act: Action, t: nat)
    requires a.my != 0 && b.my != 0
    ensures var w := TwoEnds(a, b, sent);
            Next(w, act, t) == TwoEnds(if act.e == 0 then Changed(a, act) else a, if act.e == 1 then Changed(b, act) else b,
                                       if act.Send? then sent + {Sent(act.e, t, Snd(if act.e == 0 then a else b, act.final))} else sent)
  {
  }

  ghost predicate RunTo(ws: seq<World>, acts: seq<Action>, a: Endpoint, b: Endpoint, sent: set<Sent>) {
    Run(ws, acts) && ws[|acts|] == TwoEnds(a, b, sent) && a.my != 0 && b.my != 0
  }

  /** One more step of a run. */
  lemma {:induction false} Extend(ws: seq<World>, acts: seq<Action>, a: Endpoint, b: Endpoint, sent: set<Sent>, act: Action)
    returns (ws': seq<World>)
    requires RunTo(ws, acts, a, b, sent) && Can(TwoEnds(a, b, sent), act)
    ensures RunTo(ws', acts + [act], if act.e == 0 then Changed(a, act) else a, if act.e == 1 then Changed(b, act) else b,
                  if act.Send? then sent + {Sent(act.e, |acts|, Snd(if act.e == 0 then a else b, act.final))} else sent)
    ensures ws' == ws + [ws'[|ws|]]
  {
    StepIs(a, b, sent, act, |acts|);
    ChangedKeepsMy(if act.e == 0 then a else b, act);
    ws' := ws + [Next(TwoEnds(a, b, sent), act, |acts|)];
    var acts' := acts + [act];
    hide Changed, Next, Can;
    forall t | 0 <= t < |acts'| ensures Can(ws'[t], acts'[t]) && ws'[t + 1] == Next(ws'[t], acts'[t], t) {
      if t < |acts| { assert ws'[t] == ws[t] && ws'[t + 1] == ws[t + 1] && acts'[t] == acts[t]; }
    }
  }

  lemma {:induction false} ChangedKeepsMy(e: Endpoint, act: Action)
    ensures Changed(e, act).my == e.my
  {
  }

  function FirstPacket(): Sent { Sent(0, 1, Packet(AdminDown, 1, 0, false, false)) }
  function SecondPacket(): Sent { Sent(1, 4, Packet(Down, 2, 0, false, false)) }
  function ThirdPacket(): Sent { Sent(0, 7, Packet(Init, 1, 2, false, false)) }

  lemma {:induction false} BothShutDown() returns (ws: seq<World>, acts: seq<Action>)
    ensures acts == [Shut(0), Send(0, false), Shut(1)]
    ensures RunTo(ws, acts, Endpoint(AdminDown, 1, 0, false, true), Endpoint(AdminDown, 2, 0, false, true), {FirstPacket()})
  {
    var a, b := Endpoint(Down, 1, 0, false, false), Endpoint(Down, 2, 0, false, false);
    ws, acts := [TwoEnds(a, b, {})], [];
    ws := Extend(ws, acts, a, b, {}, Shut(0));
    acts, a := acts + [Shut(0)], ShutDown(a);
    ws := Extend(ws, acts, a, b, {}, Send(0, false));
    acts := acts + [Send(0, false)];
    ws := Extend(ws, acts, a, b, {FirstPacket()}, Shut(1));
    acts := acts + [Shut(1)];
  }

  lemma {:induction false} OneStarted() returns (ws: seq<World>, acts: seq<Action>)
    ensures acts == [Shut(0), Send(0, false), Shut(1), Recv(1, FirstPacket()), Send(1, false), Start(0)]
    ensures RunTo(ws, acts, Endpoint(Down, 1, 0, false, false), Endpoint(Down, 2, 0, false, true), {FirstPacket(), SecondPacket()})
    ensures StateAt(ws, 1, 3).AdminDown?
  {
    var a, b, c := Endpoint(AdminDown, 1, 0, false, true), Endpoint(AdminDown, 2, 0, false, true), Endpoint(Down, 2, 0, false, true);
    ws, acts := BothShutDown();
    ws := Extend(ws, acts, a, b, {FirstPacket()}, Recv(1, FirstPacket()));
    acts := acts + [Recv(1, FirstPacket())];
    ws := Extend(ws, acts, a, c, {FirstPacket()}, Send(1, false));
    acts := acts + [Send(1, false)];
    assert {FirstPacket()} + {SecondPacket()} == {FirstPacket(), SecondPacket()};
    ws := Extend(ws, acts, a, c, {FirstPacket(), SecondPacket()}, Start(0));
    acts := acts + [Start(0)];
  }

  /** Without that, it does not: two endpoints are shut down; one is started again
      and brings the other up, although that one is still shut down.  Every packet
      sent here is sent at once by the handler before it, or by a timer of the
      endpoint that was started. */
  lemma {:induction false} ShutdownUndone() returns (ws: seq<World>, acts: seq<Action>)
    ensures Run(ws, acts) && |acts| == 9 && acts[2] == Shut(1) && forall u :: 2 < u < 9 ==> acts[u] != Start(1)
    ensures StateAt(ws, 1, 3).AdminDown? && StateAt(ws, 1, 9).Up? && ws[9].ends[1].shutdown
  {
    var a, b, c := Endpoint(Down, 1, 0, false, false), Endpoint(Down, 2, 0, false, true), Endpoint(Init, 1, 2, false, false);
    ws, acts := OneStarted();
    ws := Extend(ws, acts, a, b, {FirstPacket(), SecondPacket()}, Recv(0, SecondPacket()));
    acts := acts + [Recv(0, SecondPacket())];
    ws := Extend(ws, acts, c, b, {FirstPacket(), SecondPacket()}, Send(0, false));
    acts := acts + [Send(0, false)];
    ws := Extend(ws, acts, c, b, {FirstPacket(), SecondPacket()} + {ThirdPacket()}, Recv(1, ThirdPacket()));
    acts := acts + [Recv(1, ThirdPacket())];
  }
}
