/**
 The transition from 2-byte to 4-byte AS numbers (RFC 6793): rebuilding a path
 from AS_PATH and AS4_PATH (aspath_reconcile_as4), choosing between AGGREGATOR
 and AS4_AGGREGATOR (bgp_attr_munge_as4_attrs), and the end-to-end theorem for a
 path that is tunnelled through 2-byte speakers.
 */
module AsTunnel {
  import opened Common
  import opened AsPath
  import opened AsWire

  // ------------------------------------------------------------------
  // aspath_reconcile_as4
  // ------------------------------------------------------------------

  /** How many hops of AS_PATH go in front of AS4_PATH.  When AS_PATH has fewer
      hops than AS4_PATH, all of its hops are kept: see the comment in the
      source on loop detection. */
  ghost function LeadingHops(path: Path, as4: Path): nat {
    var hops: int := Hops(Denote(path)) as int + ConfedHops(Denote(path)) - Hops(Denote(as4));
    if hops < 0 then Hops(Denote(path)) else hops
  }

  function Min(x: int, y: int): int { if x < y then x else y }

  /** How many AS numbers of a segment are copied when `hops` hops are due. */
  function CopyCount(s: Segment, hops: nat): (n: nat)
    ensures n <= |s.asns|
  {
    if s.kind.AsSequence? then Min(|s.asns|, hops) else |s.asns|
  }

  /** The hops still due after a segment; a confed sequence is never split. */
  function HopsAfter(s: Segment, hops: nat): int {
    match s.kind
    case AsSet => hops - 1
    case ConfedSet => hops - 1
    case ConfedSequence => if hops < |s.asns| then 0 else hops - |s.asns|
    case AsSequence => hops - |s.asns|
  }

  /** The leading part of AS_PATH that the copying loop takes over. */
  function Copied(p: Path, hops: int): Path
    decreases |p|
  {
    if p == [] || hops <= 0 then []
    else [p[0].(asns := p[0].asns[..CopyCount(p[0], hops)])] + Copied(p[1..], HopsAfter(p[0], hops))
  }

  ghost function Reconcile(path: Path, as4: Path): Path {
    var hops := LeadingHops(path, as4);
    if hops == 0 then as4 else NormalForm(Copied(path, hops) + as4)
  }

  method ReconcileAs4(path: Path, as4: Path) returns (r: Path)
    ensures r == Reconcile(path, as4)
  {
    var total := CountHops(path);
    var confeds := CountConfeds(path);
    var total4 := CountHops(as4);
    var hops: int := total as int + confeds - total4;
    if hops < 0 { hops := total; }
    if hops == 0 { return as4; }
    var newpath := CopyLeading(path, hops);
    r := Normalise(newpath + as4);
  }

  /** The copying loop of aspath_reconcile_as4. */
  method CopyLeading(path: Path, leading: int) returns (newpath: Path)
    ensures newpath == Copied(path, leading)
  {
    hide CopyCount, HopsAfter;
    var seg, hops := path, leading;
    newpath := [];
    while seg != [] && hops > 0
      invariant Copied(path, leading) == newpath + Copied(seg, hops)
      decreases |seg|
    {
      var cpasns: nat;
      cpasns, hops := CopyStep(seg[0], hops);
      newpath := newpath + [seg[0].(asns := seg[0].asns[..cpasns])];
      seg := seg[1..];
    }
  }

  /** The switch inside the copying loop. */
  method CopyStep(s: Segment, due: int) returns (cpasns: nat, hops: int)
    requires due > 0
    ensures cpasns == CopyCount(s, due) && hops == HopsAfter(s, due)
  {
    hops := due;
    match s.kind {
      case AsSet | ConfedSet =>
        hops := hops - 1;
        cpasns := |s.asns|;
      case ConfedSequence =>
        if hops < |s.asns| { hops := |s.asns|; }
        cpasns := Min(|s.asns|, hops);
        hops := hops - |s.asns|;
      case AsSequence =>
        cpasns := Min(|s.asns|, hops);
        hops := hops - |s.asns|;
    }
  }

  ghost predicate ConfedFree(p: Path) { forall i :: 0 <= i < |p| ==> !p[i].kind.Confed() }

  /** What is copied is always a leading part of AS_PATH, hop by hop. */
  lemma {:induction false} CopiedIsPrefix(p: Path, hops: int)
    ensures Denote(Copied(p, hops)) <= Denote(p)
  {
    if p != [] && hops > 0 {
      var c, left := Copied(p, hops), HopsAfter(p[0], hops);
      assert c[1..] == Copied(p[1..], left);
      CopiedIsPrefix(p[1..], left);
      if p[0].kind.AsSequence? && hops < |p[0].asns| {
        assert c[1..] == [];
        assert AsHops(p[0].asns[..hops]) <= AsHops(p[0].asns);
      } else {
        assert c[0] == p[0];
      }
    }
  }

  lemma {:induction false} DenoteConfedFree(p: Path)
    requires ConfedFree(p)
    ensures Hops(Denote(p)) == |Denote(p)| && ConfedHops(Denote(p)) == 0
  {
    if p != [] {
      HopsOfSegment(p[0]);
      HopsConcat(SegHops(p[0]), Denote(p[1..]));
      DenoteConfedFree(p[1..]);
    }
  }

  lemma {:induction false} CopiedLength(p: Path, hops: nat)
    requires ConfedFree(p) && hops <= |Denote(p)|
    ensures |Denote(Copied(p, hops))| == hops
  {
    if p != [] && hops > 0 {
      var c, left := Copied(p, hops), HopsAfter(p[0], hops);
      assert c[1..] == Copied(p[1..], left);
      if left >= 0 { CopiedLength(p[1..], left); }
    }
  }

  lemma {:induction false} CopiedDenote(p: Path, hops: nat)
    requires ConfedFree(p) && hops <= |Denote(p)|
    ensures Denote(Copied(p, hops)) == Denote(p)[..hops]
  {
    hide Denote, Copied;
    CopiedIsPrefix(p, hops);
    CopiedLength(p, hops);
  }

  lemma {:induction false} LeadingHopsBound(path: Path, as4: Path)
    requires ConfedFree(path)
    ensures LeadingHops(path, as4) <= |Denote(path)|
  {
    DenoteConfedFree(path);
  }

  /** Without confederation segments in AS_PATH the result reads: as many leading hops
      of AS_PATH as it has more than AS4_PATH, or all of them if it has fewer, and then
      every hop of AS4_PATH. */
  lemma {:induction false} ReconcileDenote(path: Path, as4: Path)
    requires ConfedFree(path)
    ensures var h, h4 := Denote(path), Denote(as4);
            && Hops(h) == |h|
            && Denote(Reconcile(path, as4)) == if |h| < Hops(h4) then h + h4 else h[..|h| - Hops(h4)] + h4
  {
    hide Denote, Copied, NormalForm, Hops, ConfedHops;
    LeadingHopsBound(path, as4);
    DenoteConfedFree(path);
    var hops := LeadingHops(path, as4);
    var c := Copied(path, hops);
    assert Denote(path)[..|Denote(path)|] == Denote(path);
    if hops == 0 {
      assert Denote(path)[..0] + Denote(as4) == Denote(as4);
    } else {
      NormalFormDenote(c + as4);
      DenoteConcat(c, as4);
      CopiedDenote(path, hops);
    }
  }

  /** What a hop counts for when hops are copied: a confed sequence has its length. */
  ghost function Weight(h: seq<Hop>): nat { Hops(h) + ConfedHops(h) }

  lemma {:induction false} WeightConcat(g: seq<Hop>, h: seq<Hop>)
    ensures Weight(g + h) == Weight(g) + Weight(h)
  {
    HopsConcat(g, h);
  }

  /** How many hops are taken until they weigh `n`. */
  ghost function HopsWeighing(h: seq<Hop>, n: int): (k: nat)
    ensures k <= |h|
  {
    if h == [] || n <= 0 then 0 else 1 + HopsWeighing(h[1..], n - Weight([h[0]]))
  }

  lemma {:induction false} WeighingShortest(h: seq<Hop>, n: nat)
    requires n <= Weight(h)
    ensures var k := HopsWeighing(h, n);
            Weight(h[..k]) >= n && (k > 0 ==> Weight(h[..k - 1]) < n)
  {
    if h != [] && n > 0 {
      var w, k := Weight([h[0]]), HopsWeighing(h, n);
      assert h == [h[0]] + h[1..];
      WeightConcat([h[0]], h[1..]);
      assert h[..k] == [h[0]] + h[1..][..k - 1];
      WeightConcat([h[0]], h[1..][..k - 1]);
      if n > w {
        WeighingShortest(h[1..], n - w);
        if k > 1 {
          assert h[..k - 1] == [h[0]] + h[1..][..k - 2];
          WeightConcat([h[0]], h[1..][..k - 2]);
        }
      }
    }
  }

  lemma {:induction false} OneWeight(x: Hop)
    ensures Weight([x]) == match x case ConfedRun(s) => |s| case _ => 1
  {
    assert [x][1..] == [] && Hops([]) == 0 && ConfedHops([]) == 0;
    match x
    case As(_) =>
    case OneOf(_) =>
    case ConfedRun(_) =>
    case ConfedOneOf(_) =>
  }

  lemma {:induction false} WeighingSequence(asns: seq<Asn>, h: seq<Hop>, n: int)
    ensures HopsWeighing(AsHops(asns) + h, n)
         == if n <= 0 then 0 else if n <= |asns| then n else |asns| + HopsWeighing(h, n - |asns|)
  {
    var g := AsHops(asns) + h;
    if asns == [] {
      assert g == h;
    } else {
      WeighingSequence(asns[1..], h, n - 1);
      assert g[0] == As(asns[0]) && g[1..] == AsHops(asns[1..]) + h;
      OneWeight(g[0]);
    }
  }

  /** How many hops of a segment are copied. */
  ghost function HeadCount(x: Segment, hops: nat): nat { if x.kind.AsSequence? then Min(|x.asns|, hops) else 1 }

  lemma {:induction false} WeighingSegment(x: Segment, h: seq<Hop>, hops: nat)
    requires hops > 0
    ensures HopsWeighing(SegHops(x) + h, hops) == HeadCount(x, hops) + HopsWeighing(h, HopsAfter(x, hops))
  {
    var g := SegHops(x);
    if x.kind.AsSequence? {
      WeighingSequence(x.asns, h, hops);
    } else {
      assert g == [g[0]] && (g + h)[1..] == h && (g + h)[0] == g[0];
      OneWeight(g[0]);
    }
  }

  lemma {:induction false} HeadCopied(x: Segment, hops: nat)
    ensures |SegHops(x.(asns := x.asns[..CopyCount(x, hops)]))| == HeadCount(x, hops)
  {
  }

  lemma {:induction false} CopiedCount(p: Path, hops: int)
    ensures |Denote(Copied(p, hops))| == HopsWeighing(Denote(p), hops)
  {
    if p != [] && hops > 0 {
      hide SegHops, CopyCount, HopsAfter, HeadCount, HopsWeighing;
      var c := Copied(p, hops);
      assert c[1..] == Copied(p[1..], HopsAfter(p[0], hops));
      CopiedCount(p[1..], HopsAfter(p[0], hops));
      HeadCopied(p[0], hops);
      WeighingSegment(p[0], Denote(p[1..]), hops);
    }
  }

  lemma {:induction false} CopiedWeighs(p: Path, hops: int)
    ensures var k := HopsWeighing(Denote(p), hops);
            k <= |Denote(p)| && Denote(Copied(p, hops)) == Denote(p)[..k]
  {
    hide Denote, Copied, HopsWeighing;
    CopiedIsPrefix(p, hops);
    CopiedCount(p, hops);
  }

  /** For any AS_PATH, confederations included, the result reads: its shortest beginning
      that weighs what AS_PATH has more than AS4_PATH, or if it has less, as many as it
      has hops, and then every hop of AS4_PATH.  No confed sequence is split. */
  lemma {:induction false} ReconcileReads(path: Path, as4: Path) returns (k: nat)
    ensures var h, h4 := Denote(path), Denote(as4);
            var due := if Weight(h) < Hops(h4) then Hops(h) else Weight(h) - Hops(h4);
            && k <= |h| && Denote(Reconcile(path, as4)) == h[..k] + h4
            && Weight(h[..k]) >= due && (k > 0 ==> Weight(h[..k - 1]) < due)
  {
    var hops := LeadingHops(path, as4);
    var c := Copied(path, hops);
    k := HopsWeighing(Denote(path), hops);
    CopiedWeighs(path, hops);
    WeighingShortest(Denote(path), hops);
    hide Denote, Copied, NormalForm;
    if hops == 0 {
      assert Denote(path)[..0] + Denote(as4) == Denote(as4);
    } else {
      NormalFormDenote(c + as4);
      DenoteConcat(c, as4);
    }
  }

  /** Loop detection survives: an arbitrary AS4_PATH never loses an AS number. */
  lemma {:induction false} ReconcileKeepsAsns(path: Path, as4: Path)
    ensures AsnsOf(as4) <= AsnsOf(Reconcile(path, as4))
  {
    var hops := LeadingHops(path, as4);
    if hops != 0 {
      NormalFormAsns(Copied(path, hops) + as4);
      AsnsConcat(Copied(path, hops), as4);
    }
  }

  /** The rebuilt path is as long as the one received, for any AS4_PATH, as
      long as AS_PATH has at least as many hops and no confederations. */
  lemma {:induction false} ReconcileHopCount(path: Path, as4: Path)
    requires ConfedFree(path) && Hops(Denote(path)) >= Hops(Denote(as4))
    ensures Hops(Denote(Reconcile(path, as4))) == Hops(Denote(path))
  {
    ReconcileDenote(path, as4);
    var n := |Denote(path)| - Hops(Denote(as4));
    HopsConcat(Denote(path)[..n], Denote(as4));
    HopsOfTakenAll(Denote(path), n);
  }

  lemma {:induction false} HopsOfTakenAll(h: seq<Hop>, n: nat)
    requires n <= |h| && Hops(h) == |h|
    ensures Hops(h[..n]) == n
  {
    HopsAtMost(h[..n]);
    HopsAtMost(h[n..]);
    HopsConcat(h[..n], h[n..]);
    assert h[..n] + h[n..] == h;
  }

  lemma {:induction false} HopsAtMost(h: seq<Hop>)
    ensures Hops(h) <= |h|
  {
    if h != [] { HopsAtMost(h[1..]); }
  }

  // ------------------------------------------------------------------
  // bgp_attr_munge_as4_attrs
  // ------------------------------------------------------------------

  datatype Aggregator = Aggregator(asn: Asn, addr: int)

  /** What an UPDATE carried; `as4Path` and `as4Aggregator` are present when
      their flag bits are set. */
  datatype Received = Received(
    path: Option<Path>, aggregator: Option<Aggregator>,
    as4Path: Option<Path>, as4Aggregator: Option<Aggregator>)

  /** BGP_ATTR_PARSE_ERROR, or the AS_PATH and AGGREGATOR to go on with. */
  datatype Munged = MungeError | Munged(path: Path, aggregator: Option<Aggregator>)

  ghost predicate IgnoreAs4Path(u: Received) {
    u.as4Aggregator.Some? && u.aggregator.Some? && u.aggregator.value.asn != AS_TRANS
  }

  /** A missing AGGREGATOR leaves the address field at zero, its initial value. */
  ghost function Munge(peerAs4: bool, u: Received): Munged {
    if u.path.None? then MungeError
    else if peerAs4 then Munged(u.path.value, u.aggregator)
    else Munged(
      if u.as4Path.Some? && !IgnoreAs4Path(u) then Reconcile(u.path.value, u.as4Path.value) else u.path.value,
      if u.as4Aggregator.None? || IgnoreAs4Path(u) then u.aggregator
      else if u.aggregator.Some? then u.as4Aggregator
      else Some(Aggregator(u.as4Aggregator.value.asn, 0)))
  }

  method MungeAs4Attrs(peerAs4: bool, u: Received) returns (m: Munged)
    ensures m == Munge(peerAs4, u)
  {
    var ignoreAs4Path := false;
    if u.path.None? { return MungeError; }
    if peerAs4 { return Munged(u.path.value, u.aggregator); }
    var aggregator := u.aggregator;
    if u.as4Aggregator.Some? {
      if aggregator.Some? {
        if aggregator.value.asn != AS_TRANS {
          ignoreAs4Path := true;
        } else {
          aggregator := u.as4Aggregator;
        }
      } else {
        aggregator := Some(Aggregator(u.as4Aggregator.value.asn, 0));
      }
    }
    var path := u.path.value;
    if !ignoreAs4Path && u.as4Path.Some? {
      path := ReconcileAs4(path, u.as4Path.value);
    }
    return Munged(path, aggregator);
  }

  /** Only a missing AS_PATH is an error. */
  lemma {:induction false} MungeNeedsPath(peerAs4: bool, u: Received)
    ensures Munge(peerAs4, u).MungeError? <==> u.path.None?
  {
  }

  /** From a 4-byte peer what AS4_PATH and AS4_AGGREGATOR hold makes no difference, and
      AS_PATH and AGGREGATOR are kept. */
  lemma {:induction false} MungeFromAs4(u: Received, as4Path: Option<Path>, as4Aggregator: Option<Aggregator>)
    requires u.path.Some?
    ensures var m := Munge(true, u.(as4Path := as4Path, as4Aggregator := as4Aggregator));
            m.Munged? && m.path == u.path.value && m.aggregator == u.aggregator
  {
  }

  /** Nor from a 2-byte peer, if there is an AS4_AGGREGATOR beside an AGGREGATOR that is
      not AS_TRANS: somebody on the way aggregated without knowing AS4_PATH. */
  lemma {:induction false} MungeForeign(u: Received, as4Path: Option<Path>, as4Aggregator: Aggregator)
    requires u.path.Some? && u.aggregator.Some? && u.aggregator.value.asn != AS_TRANS
    ensures var m := Munge(false, u.(as4Path := as4Path, as4Aggregator := Some(as4Aggregator)));
            m.Munged? && m.path == u.path.value && m.aggregator == u.aggregator
  {
  }

  /** In every other case of a 2-byte peer the path reads as AS_PATH and AS4_PATH merged,
      or as AS_PATH if there is no other, and the aggregator has the AS number that
      AS4_AGGREGATOR gives, with the address if AGGREGATOR is there too. */
  lemma {:induction false} MungeMerges(u: Received) returns (k: nat)
    requires u.path.Some? && !(u.as4Aggregator.Some? && u.aggregator.Some? && u.aggregator.value.asn != AS_TRANS)
    ensures Munge(false, u).Munged?
    ensures var h, m := Denote(u.path.value), Munge(false, u);
            if u.as4Path.None? then m.path == u.path.value
            else
              var h4 := Denote(u.as4Path.value);
              var due := if Weight(h) < Hops(h4) then Hops(h) else Weight(h) - Hops(h4);
              && k <= |h| && Denote(m.path) == h[..k] + h4
              && Weight(h[..k]) >= due && (k > 0 ==> Weight(h[..k - 1]) < due)
    ensures var m := Munge(false, u);
            if u.as4Aggregator.None? then m.aggregator == u.aggregator
            else
              && m.aggregator.Some? && m.aggregator.value.asn == u.as4Aggregator.value.asn
              && m.aggregator.value.addr == if u.aggregator.Some? then u.as4Aggregator.value.addr else 0
  {
    k := 0;
    if u.as4Path.Some? { k := ReconcileReads(u.path.value, u.as4Path.value); }
  }

  // ------------------------------------------------------------------
  // Sending to, through and from 2-byte speakers
  // ------------------------------------------------------------------

  /** aspath_add_seq: put one AS number in front. */
  function AddSeq(p: Path, asn: Asn): (r: Path)
    ensures NoEmptySegment(p) ==> NoEmptySegment(r)
  {
    if p != [] && p[0].kind.AsSequence? then [p[0].(asns := [asn] + p[0].asns)] + p[1..]
    else if p != [] && p[0].asns == [] then [Segment(AsSequence, [asn])] + p[1..]
    else [Segment(AsSequence, [asn])] + p
  }

  ghost predicate HasAs4(p: Path) {
    exists a :: a in AsnsOf(p) && a > AS_MAX16
  }

  /** aspath_has_as4 */
  method CheckAs4(p: Path) returns (b: bool)
    ensures b <==> HasAs4(p)
  {
    for k := 0 to |p|
      invariant HasAs4(p[k..]) <==> HasAs4(p)
    {
      assert p[k..][1..] == p[k + 1..];
      for i := 0 to |p[k].asns|
        invariant forall j :: 0 <= j < i ==> p[k].asns[j] <= AS_MAX16
      {
        if p[k].asns[i] > AS_MAX16 {
          assert p[k].asns[i] in AsnsOf(p[k..]);
          return true;
        }
      }
      assert forall a :: a in AsnsOf(p[k..]) <==> a in Members(p[k].asns) || a in AsnsOf(p[k + 1..]);
    }
    return false;
  }

  /** The AS_PATH bytes of a path, in a stream with room for them. */
  ghost function Sent(p: Path, use32: bool): seq<Byte>
    requires NoEmptySegment(p)
  {
    PutPath(p, use32, WireSize(p, use32))
  }

  /** The AS_PATH as it stands once the 2-byte ASes `q` have passed it on: each
      parses what it got, puts its own number in front and writes it out again.
      `q[0]` is the last of them, next to the receiver. */
  ghost function Relayed(p: Path, q: seq<Asn>): (r: ParseResult)
    requires NoEmptySegment(p)
    ensures r.Parsed? ==> NoEmptySegment(r.path)
  {
    var got := if q == [] then Parsed(p) else Relayed(p, q[1..]);
    if got.Malformed? then Malformed
    else
      var b := Sent(if q == [] then p else AddSeq(got.path, q[0]), false);
      Parse(b, |b|, false)
  }

  /** What a 4-byte speaker with a 2-byte neighbour puts in an UPDATE, and what
      is left of it after the relays: AS4_PATH and AS4_AGGREGATOR travel untouched. */
  ghost function Delivered(p: Path, aggregator: Option<Aggregator>, q: seq<Asn>): Received
    requires NoEmptySegment(p)
  {
    var path, as4 := Relayed(p, q), Parse(Sent(p, true), |Sent(p, true)|, true);
    Received(
      if path.Parsed? then Some(path.path) else None,
      if aggregator.None? then None
      else Some(aggregator.value.(asn := Seen(aggregator.value.asn, false))),
      if HasAs4(p) && as4.Parsed? then Some(as4.path) else None,
      if aggregator.Some? && aggregator.value.asn > AS_MAX16 then aggregator else None)
  }

  // ------------------------------------------------------------------
  // End to end
  // ------------------------------------------------------------------

  ghost predicate WellFormed(p: Path) {
    IsNormal(p) && NoEmptySegment(p) && NonSequencesFit(p) && ConfedFree(p)
  }

  lemma {:induction false} AddSeqDenote(p: Path, asn: Asn)
    requires WellFormed(p)
    ensures WellFormed(AddSeq(p, asn))
    ensures Denote(AddSeq(p, asn)) == AsHops([asn]) + Denote(p)
    ensures AsnsOf(AddSeq(p, asn)) == {asn} + AsnsOf(p)
  {
    var r := AddSeq(p, asn);
    if p != [] && p[0].kind.AsSequence? {
      assert r[1..] == p[1..];
      assert AsHops([asn] + p[0].asns) == AsHops([asn]) + AsHops(p[0].asns);
      MembersConcat([asn], p[0].asns);
    } else {
      assert r[1..] == p;
    }
  }

  lemma {:induction false} MembersAtMost(s: seq<Asn>)
    ensures |Members(s)| <= |s|
  {
    if s == [] {
      NoMembers(s);
    } else {
      MembersAtMost(s[1..]);
      assert s == [s[0]] + s[1..];
      MembersConcat([s[0]], s[1..]);
      assert Members([s[0]]) == {s[0]};
    }
  }

  lemma {:induction false} SetToSeqLength(s: set<Asn>)
    ensures |SetToSeq(s)| == |s|
  {
    if s != {} { SetToSeqLength(s - {Least(s)}); }
  }

  lemma {:induction false} NormalFormShape(p: Path)
    requires ConfedFree(p) && NonSequencesFit(p)
    ensures ConfedFree(NormalForm(p)) && NonSequencesFit(NormalForm(p))
    decreases |p|
  {
    if p == [] {
    } else if |p| > 1 && Packable(p[0], p[1]) {
      NormalFormShape([Append(p[0], p[1])] + p[2..]);
    } else {
      NormalFormShape(p[1..]);
      MembersAtMost(p[0].asns);
      SetToSeqLength(Members(p[0].asns));
    }
  }

  lemma {:induction false} InAsns(p: Path, a: Asn)
    ensures a in AsnsOf(p) <==> exists i :: 0 <= i < |p| && a in p[i].asns
  {
    if p != [] {
      InAsns(p[1..], a);
      assert p == [p[0]] + p[1..];
      if i :| 0 <= i < |p[1..]| && a in p[1..][i].asns { assert a in p[i + 1].asns; }
    }
  }

  lemma {:induction false} SeenAsns(p: Path)
    ensures !HasAs4(SeenPath(p, false))
    ensures !HasAs4(p) ==> SeenPath(p, false) == p
    ensures ConfedFree(p) <==> ConfedFree(SeenPath(p, false))
  {
    var r := SeenPath(p, false);
    forall a | a in AsnsOf(r) ensures a <= AS_MAX16 { InAsns(r, a); }
    assert forall i :: 0 <= i < |p| ==> r[i].kind == p[i].kind;
    if !HasAs4(p) {
      forall i, j | 0 <= i < |p| && 0 <= j < |p[i].asns| ensures p[i].asns[j] <= AS_MAX16 {
        InAsns(p, p[i].asns[j]);
      }
      forall i | 0 <= i < |p| ensures r[i] == p[i] {
        assert r[i].asns == p[i].asns;
      }
    }
  }

  lemma {:induction false} BuildOf(p: Path)
    requires WellFormed(p)
    ensures p == NormalForm(p) == Build(Denote(p))
  {
    NormalFormFixed(p);
    NormalFormIsBuild(p);
  }

  /** One 2-byte hop, on a path that already holds only small AS numbers. */
  lemma {:induction false} RelayStep(x: Path)
    requires WellFormed(x) && !HasAs4(x)
    ensures Parse(Sent(x, false), |Sent(x, false)|, false) == Parsed(x)
  {
    WireRoundTrip(x, false, WireSize(x, false));
    SeenAsns(x);
    NormalFormFixed(x);
  }

  lemma {:induction false} FirstHop(p: Path) returns (x: Path)
    requires WellFormed(p)
    ensures Relayed(p, []) == Parsed(x) && WellFormed(x) && !HasAs4(x)
    ensures Denote(x) == Denote(SeenPath(p, false))
  {
    var seen := SeenPath(p, false);
    x := NormalForm(seen);
    WireRoundTrip(p, false, WireSize(p, false));
    SeenPathShape(p, false);
    SeenAsns(p);
    NormalFormShape(seen);
    NormalFormIsNormal(seen);
    NormalFormNonEmpty(seen);
    NormalFormDenote(seen);
    NormalFormAsns(seen);
  }

  lemma {:induction false} RelayedPath(p: Path, q: seq<Asn>) returns (x: Path)
    requires WellFormed(p) && forall i :: 0 <= i < |q| ==> q[i] <= AS_MAX16
    ensures Relayed(p, q) == Parsed(x) && WellFormed(x) && !HasAs4(x)
    ensures Denote(x) == AsHops(q) + Denote(SeenPath(p, false))
  {
    hide Relayed, Sent, Parse, Denote, AddSeq, AsnsOf, SeenPath;
    if q == [] {
      x := FirstHop(p);
      assert AsHops(q) + Denote(SeenPath(p, false)) == Denote(SeenPath(p, false));
    } else {
      var y := RelayedPath(p, q[1..]);
      x := AddSeq(y, q[0]);
      AddSeqDenote(y, q[0]);
      RelayStep(x);
      RelayedMore(p, q, y);
      assert AsHops(q) == AsHops([q[0]]) + AsHops(q[1..]);
    }
  }

  lemma {:induction false} RelayedMore(p: Path, q: seq<Asn>, y: Path)
    requires NoEmptySegment(p) && q != [] && NoEmptySegment(y) && Relayed(p, q[1..]) == Parsed(y)
    ensures var b := Sent(AddSeq(y, q[0]), false);
            Relayed(p, q) == Parse(b, |b|, false)
  {
    hide Sent, Parse, AddSeq;
  }

  lemma {:induction false} SeenHops(p: Path)
    requires ConfedFree(p)
    ensures |Denote(SeenPath(p, false))| == |Denote(p)|
  {
    if p != [] {
      SeenPathTail(p, false);
      SeenHops(p[1..]);
    }
  }

  /** `q` in front of `p`, as one AS_SEQUENCE when there is anything in it. */
  ghost function InFront(q: seq<Asn>, p: Path): Path {
    if q == [] then p else [Segment(AsSequence, q)] + p
  }

  lemma {:induction false} InFrontForm(q: seq<Asn>, p: Path)
    requires NoEmptySegment(p)
    ensures NormalForm(InFront(q, p)) == Build(AsHops(q) + Denote(p))
  {
    var r := InFront(q, p);
    NormalFormIsBuild(r);
    hide NormalForm, Build;
    if q == [] {
      assert AsHops(q) + Denote(p) == Denote(p);
    } else {
      assert r[1..] == p;
    }
  }

  /** AS_PATH and AS4_PATH together give back the path behind its relays. */
  lemma {:induction false} ReconcileRelayed(p: Path, q: seq<Asn>, x: Path)
    requires WellFormed(p) && WellFormed(x)
    requires Denote(x) == AsHops(q) + Denote(SeenPath(p, false))
    ensures Reconcile(x, p) == NormalForm(InFront(q, p))
  {
    DenoteConfedFree(x);
    DenoteConfedFree(p);
    SeenHops(p);
    assert LeadingHops(x, p) == |q|;
    hide Denote, Copied, NormalForm, LeadingHops;
    if q == [] {
      NormalFormFixed(p);
    } else {
      CopiedDenote(x, |q|);
      var c := Copied(x, |q|);
      assert Denote(x)[..|q|] == AsHops(q);
      CopiedNonEmpty(x, |q|);
      DenoteConcat(c, p);
      NormalFormIsBuild(c + p);
      InFrontForm(q, p);
    }
  }

  lemma {:induction false} CopiedNonEmpty(p: Path, hops: int)
    requires NoEmptySegment(p)
    ensures NoEmptySegment(Copied(p, hops))
  {
    if p != [] && hops > 0 {
      CopiedNonEmpty(p[1..], HopsAfter(p[0], hops));
      assert CopyCount(p[0], hops) > 0;
    }
  }

  /** What arrives: the relayed path, AS4_PATH if it was needed, and the
      AGGREGATOR as a 2-byte speaker shows it. */
  lemma {:induction false} WellFormedIs(p: Path)
    requires WellFormed(p)
    ensures NoEmptySegment(p)
  {
  }

  lemma {:induction false} DeliveredIs(p: Path, aggregator: Option<Aggregator>, q: seq<Asn>, x: Path)
    requires WellFormed(p) && Relayed(p, q) == Parsed(x)
    ensures var u := Delivered(p, aggregator, q);
            && u.path == Some(x) && u.as4Path == (if HasAs4(p) then Some(p) else None)
            && u.aggregator == (if aggregator.None? then None else Some(aggregator.value.(asn := Seen(aggregator.value.asn, false))))
            && u.as4Aggregator == (if aggregator.Some? && aggregator.value.asn > AS_MAX16 then aggregator else None)
  {
    WireRoundTrip32(p, WireSize(p, true));
    hide Relayed, Parse, Sent, WireSize, NonSequencesFit;
  }

  /** AS4 tunnelling preserves meaning: through any relays with 2-byte numbers
      `q`, the 4-byte receiver ends up with the normal form of `q` followed by
      `p`, and with the AGGREGATOR that was sent. */
  lemma {:induction false} TunnelPreservesMeaning(p: Path, aggregator: Option<Aggregator>, q: seq<Asn>)
    requires WellFormed(p) && forall i :: 0 <= i < |q| ==> q[i] <= AS_MAX16
    ensures Munge(false, Delivered(p, aggregator, q)) == Munged(NormalForm(InFront(q, p)), aggregator)
  {
    hide Relayed, Parse, NormalForm, Reconcile, Build, Denote, SeenPath, Delivered, InFront, HasAs4, WellFormed;
    WellFormedIs(p);
    var x := RelayedPath(p, q);
    DeliveredIs(p, aggregator, q, x);
    if HasAs4(p) {
      ReconcileRelayed(p, q, x);
    } else {
      SeenAsns(p);
      BuildOf(x);
      InFrontForm(q, p);
    }
  }
}
