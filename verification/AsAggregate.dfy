/**
 Aggregating two AS paths (aspath_aggregate in bgpd/bgp_aspath.c; section 9.2.2.2
 of RFC 4271): the leading part they share, followed by a set of all the rest.
 */
module AsAggregate {
  import opened AsPath

  /** How many leading AS numbers two segments share. */
  function Match(s: seq<Asn>, t: seq<Asn>): (m: nat)
    ensures m <= |s| && m <= |t| && s[..m] == t[..m] && (m < |s| && m < |t| ==> s[m] != t[m])
  {
    if s == [] || t == [] || s[0] != t[0] then 0
    else
      assert s == [s[0]] + s[1..] && t == [t[0]] + t[1..];
      1 + Match(s[1..], t[1..])
  }

  lemma {:induction false} MatchSymmetric(s: seq<Asn>, t: seq<Asn>)
    ensures Match(s, t) == Match(t, s)
  {
    if s != [] && t != [] { MatchSymmetric(s[1..], t[1..]); }
  }

  /** The loop that counts the match. */
  method CountMatch(s: seq<Asn>, t: seq<Asn>) returns (m: nat)
    ensures m == Match(s, t)
  {
    m := 0;
    while m < |s| && m < |t| && s[m] == t[m]
      invariant m <= |s| && m <= |t| && Match(s, t) == m + Match(s[m..], t[m..])
    {
      assert s[m..][1..] == s[m + 1..] && t[m..][1..] == t[m + 1..];
      m := m + 1;
    }
  }

  /** The two paths go on together: both segments match as a whole. */
  predicate Whole(x: Segment, y: Segment) {
    x.kind == y.kind && Match(x.asns, y.asns) == |x.asns| == |y.asns|
  }

  function Piece(x: Segment, m: nat): Path
    requires m <= |x.asns|
  {
    if m == 0 then [] else [Segment(x.kind, x.asns[..m])]
  }

  /** The leading part, one segment per segment that matches at all. */
  function Lead(p: Path, q: Path): Path
    decreases p
  {
    if p == [] || q == [] || p[0].kind != q[0].kind then []
    else
      Piece(p[0], Match(p[0].asns, q[0].asns)) + if Whole(p[0], q[0]) then Lead(p[1..], q[1..]) else []
  }

  /** The AS numbers of `p` after its leading part with `q`. */
  function Rest(p: Path, q: Path): seq<Asn>
    decreases p
  {
    if p == [] || q == [] || p[0].kind != q[0].kind then Flat(p)
    else if Whole(p[0], q[0]) then Rest(p[1..], q[1..])
    else p[0].asns[Match(p[0].asns, q[0].asns)..] + Flat(p[1..])
  }

  /** aspath_aggregate_as_set_add on the members of the set so far. */
  function Add(asset: seq<Asn>, asn: Asn): seq<Asn> { if asn in asset then asset else asset + [asn] }

  function AddAll(asset: seq<Asn>, s: seq<Asn>): seq<Asn>
    decreases s
  {
    if s == [] then asset else AddAll(Add(asset, s[0]), s[1..])
  }

  lemma {:induction false} AddAllMembers(asset: seq<Asn>, s: seq<Asn>)
    ensures Members(AddAll(asset, s)) == Members(asset) + Members(s)
    decreases s
  {
    if s != [] {
      assert s == [s[0]] + s[1..];
      MembersConcat([s[0]], s[1..]);
      MembersConcat(asset, [s[0]]);
      AddAllMembers(Add(asset, s[0]), s[1..]);
      hide AddAll;
      assert Members([s[0]]) == {s[0]} && Members(Add(asset, s[0])) == Members(asset) + {s[0]};
    }
  }

  lemma {:induction false} AddAllConcat(asset: seq<Asn>, s: seq<Asn>, t: seq<Asn>)
    ensures AddAll(asset, s + t) == AddAll(AddAll(asset, s), t)
    decreases s
  {
    if s == [] {
      assert s + t == t;
    } else {
      assert (s + t)[1..] == s[1..] + t;
      AddAllConcat(Add(asset, s[0]), s[1..], t);
    }
  }

  function AsSetOf(s: seq<Asn>): Path { if s == [] then [] else [Segment(AsSet, s)] }

  ghost function Aggregated(p: Path, q: Path): Path {
    NormalForm(Lead(p, q) + AsSetOf(AddAll(AddAll([], Rest(p, q)), Rest(q, p))))
  }

  // ------------------------------------------------------------------
  // The code
  // ------------------------------------------------------------------

  method AsSetAdd(asset: seq<Asn>, asn: Asn) returns (r: seq<Asn>)
    ensures r == Add(asset, asn)
  {
    var i := 0;
    while i < |asset|
      invariant 0 <= i <= |asset| && asn !in asset[..i]
    {
      if asset[i] == asn { return asset; }
      i := i + 1;
    }
    assert asset[..i] == asset;
    return asset + [asn];
  }

  /** What is left of a path, from `m` in segment `k` on. */
  function From(p: Path, k: nat, m: nat): seq<Asn>
    requires k <= |p| && (k < |p| ==> m <= |p[k].asns|)
  {
    if k < |p| then p[k].asns[m..] + Flat(p[k + 1..]) else []
  }

  method AddSegment(s: seq<Asn>, from: nat, asset0: seq<Asn>) returns (asset: seq<Asn>)
    requires from <= |s|
    ensures asset == AddAll(asset0, s[from..])
  {
    hide AddAll, Add;
    asset := asset0;
    var i := from;
    while i < |s|
      invariant from <= i <= |s| && AddAll(asset, s[i..]) == AddAll(asset0, s[from..])
    {
      AddAllStep(asset, s, i);
      asset := AsSetAdd(asset, s[i]);
      i := i + 1;
    }
    AddAllEnd(asset, s);
  }

  lemma {:induction false} AddAllStep(asset: seq<Asn>, s: seq<Asn>, i: nat)
    requires i < |s|
    ensures AddAll(asset, s[i..]) == AddAll(Add(asset, s[i]), s[i + 1..])
  {
    assert s[i..][1..] == s[i + 1..];
  }

  lemma {:induction false} AddAllEnd(asset: seq<Asn>, s: seq<Asn>)
    ensures AddAll(asset, s[|s|..]) == asset
  {
  }

  /** The loops that add what is left of a path to the set. */
  method AddRest(p: Path, k: nat, m: nat, asset0: seq<Asn>) returns (asset: seq<Asn>)
    requires k <= |p| && (k < |p| ==> m <= |p[k].asns|)
    ensures asset == AddAll(asset0, From(p, k, m))
  {
    asset := asset0;
    ghost var all := AddAll(asset0, From(p, k, m));
    hide AddAll, From;
    var seg, from: nat := k, m;
    while seg < |p|
      invariant k <= seg <= |p| && (seg < |p| ==> from <= |p[seg].asns|)
      invariant all == AddAll(asset, From(p, seg, from))
      decreases |p| - seg
    {
      FromStep(p, seg, from, asset);
      asset := AddSegment(p[seg].asns, from, asset);
      seg, from := seg + 1, 0;
    }
    FromEnd(p, from, asset);
  }

  lemma {:induction false} FromStep(p: Path, k: nat, m: nat, asset: seq<Asn>)
    requires k < |p| && m <= |p[k].asns|
    ensures AddAll(asset, From(p, k, m)) == AddAll(AddAll(asset, p[k].asns[m..]), From(p, k + 1, 0))
  {
    AddAllConcat(asset, p[k].asns[m..], Flat(p[k + 1..]));
    FromStart(p, k + 1);
  }

  lemma {:induction false} FromEnd(p: Path, m: nat, asset: seq<Asn>)
    ensures AddAll(asset, From(p, |p|, m)) == asset
  {
  }

  lemma {:induction false} FromStart(p: Path, k: nat)
    requires k <= |p|
    ensures From(p, k, 0) == Flat(p[k..])
  {
    if k < |p| { assert p[k..][1..] == p[k + 1..] && p[k].asns[0..] == p[k].asns; }
  }

  /** One turn of the loop over common segments. */
  lemma {:induction false} LeadStep(p: Path, q: Path, k: nat)
    requires k < |p| && k < |q| && p[k].kind == q[k].kind
    ensures var m := Match(p[k].asns, q[k].asns);
            && m == Match(q[k].asns, p[k].asns) && (Whole(p[k], q[k]) <==> m == |p[k].asns| == |q[k].asns|)
            && Lead(p[k..], q[k..]) == Piece(p[k], m) + (if Whole(p[k], q[k]) then Lead(p[k + 1..], q[k + 1..]) else [])
            && Rest(p[k..], q[k..]) == (if Whole(p[k], q[k]) then Rest(p[k + 1..], q[k + 1..]) else From(p, k, m))
            && Rest(q[k..], p[k..]) == (if Whole(p[k], q[k]) then Rest(q[k + 1..], p[k + 1..]) else From(q, k, m))
  {
    MatchSymmetric(p[k].asns, q[k].asns);
    assert p[k..][1..] == p[k + 1..] && q[k..][1..] == q[k + 1..];
    hide Match, Flat;
  }

  lemma {:induction false} LeadEnd(p: Path, q: Path, k: nat)
    requires k <= |p| && k <= |q| && (k < |p| && k < |q| ==> p[k].kind != q[k].kind)
    ensures Lead(p[k..], q[k..]) == [] && Rest(p[k..], q[k..]) == From(p, k, 0) && Rest(q[k..], p[k..]) == From(q, k, 0)
  {
    FromStart(p, k);
    FromStart(q, k);
  }

  /** So far `lead` is shared, and both paths go on from segment `k`. */
  ghost predicate LeadSoFar(p: Path, q: Path, lead: Path, k: nat) {
    && k <= |p| && k <= |q| && Lead(p, q) == lead + Lead(p[k..], q[k..])
    && Rest(p, q) == Rest(p[k..], q[k..]) && Rest(q, p) == Rest(q[k..], p[k..])
  }

  /** All of `lead` is shared, and no more: the paths part at `m` in segment `k`. */
  ghost predicate LeadDone(p: Path, q: Path, lead: Path, k: nat, m: nat) {
    && lead == Lead(p, q) && k <= |p| && k <= |q|
    && (k < |p| ==> m <= |p[k].asns|) && (k < |q| ==> m <= |q[k].asns|)
    && Rest(p, q) == From(p, k, m) && Rest(q, p) == From(q, k, m)
  }

  lemma {:induction false} LeadTurn(p: Path, q: Path, lead: Path, k: nat)
    requires LeadSoFar(p, q, lead, k) && k < |p| && k < |q| && p[k].kind == q[k].kind
    ensures var m := Match(p[k].asns, q[k].asns);
            var lead' := lead + Piece(p[k], m);
            if m == |p[k].asns| == |q[k].asns| then LeadSoFar(p, q, lead', k + 1) else LeadDone(p, q, lead', k, m)
  {
    hide Lead, Rest, Match, From, Flat, Piece, Whole;
    LeadStep(p, q, k);
    var piece := Piece(p[k], Match(p[k].asns, q[k].asns));
    Assoc(lead, piece, Lead(p[k + 1..], q[k + 1..]));
    Assoc(lead, piece, []);
    NothingAdded(lead + piece);
  }

  lemma {:induction false} Assoc(x: Path, y: Path, z: Path)
    ensures (x + y) + z == x + (y + z)
  {
  }

  lemma {:induction false} NothingAdded(x: Path)
    ensures x + [] == x
  {
  }

  lemma {:induction false} LeadOver(p: Path, q: Path, lead: Path, k: nat)
    requires LeadSoFar(p, q, lead, k) && (k < |p| && k < |q| ==> p[k].kind != q[k].kind)
    ensures LeadDone(p, q, lead, k, 0)
  {
    LeadEnd(p, q, k);
    assert lead + [] == lead;
  }

  /** The common leading segments, and where they end. */
  method CommonLead(p: Path, q: Path) returns (lead: Path, k: nat, m: nat)
    ensures LeadDone(p, q, lead, k, m)
  {
    lead, k, m := [], 0, 0;
    assert p[0..] == p && q[0..] == q;
    assert LeadSoFar(p, q, lead, k);
    hide LeadSoFar, LeadDone, Match;
    while k < |p| && k < |q|
      invariant LeadSoFar(p, q, lead, k) && m == 0
    {
      if p[k].kind != q[k].kind { break; }
      LeadTurn(p, q, lead, k);
      m := CountMatch(p[k].asns, q[k].asns);
      assert m == 0 ==> lead + Piece(p[k], m) == lead;
      if m > 0 { lead := lead + [Segment(p[k].kind, p[k].asns[..m])]; }
      if m != |p[k].asns| || |p[k].asns| != |q[k].asns| { return; }
      k, m := k + 1, 0;
    }
    LeadOver(p, q, lead, k);
  }

  /** aspath_aggregate */
  method Aggregate(p: Path, q: Path) returns (r: Path)
    ensures r == Aggregated(p, q)
  {
    var lead, k, m := CommonLead(p, q);
    var asset := AddRest(p, k, m, []);
    asset := AddRest(q, k, m, asset);
    var segs := if asset == [] then lead else lead + [Segment(AsSet, asset)];
    assert lead + [] == lead;
    r := Normalise(segs);
  }

  // ------------------------------------------------------------------
  // No AS number is lost or invented
  // ------------------------------------------------------------------

  lemma {:induction false} FlatMembers(p: Path)
    ensures Members(Flat(p)) == AsnsOf(p)
  {
    if p != [] {
      FlatMembers(p[1..]);
      MembersConcat(p[0].asns, Flat(p[1..]));
    }
  }

  lemma {:induction false} PieceAndRest(x: Segment, m: nat)
    requires m <= |x.asns|
    ensures AsnsOf(Piece(x, m)) + Members(x.asns[m..]) == Members(x.asns)
  {
    assert x.asns == x.asns[..m] + x.asns[m..];
    MembersConcat(x.asns[..m], x.asns[m..]);
    AsnsSingle(Segment(x.kind, x.asns[..m]));
  }

  lemma {:induction false} AsnsSingle(x: Segment)
    ensures AsnsOf([x]) == Members(x.asns)
  {
    assert [x][1..] == [];
  }

  lemma {:induction false} LeadAndRest(p: Path, q: Path)
    ensures AsnsOf(Lead(p, q)) + Members(Rest(p, q)) == AsnsOf(p)
    decreases p
  {
    if p == [] || q == [] || p[0].kind != q[0].kind {
      FlatMembers(p);
    } else {
      var m := Match(p[0].asns, q[0].asns);
      PieceAndRest(p[0], m);
      if Whole(p[0], q[0]) {
        LeadAndRest(p[1..], q[1..]);
        AsnsConcat(Piece(p[0], m), Lead(p[1..], q[1..]));
        assert p[0].asns[m..] == [];
        NoMembers(p[0].asns[m..]);
      } else {
        FlatMembers(p[1..]);
        MembersConcat(p[0].asns[m..], Flat(p[1..]));
        assert Lead(p, q) == Piece(p[0], m) + [] == Piece(p[0], m);
      }
    }
  }

  lemma {:induction false} LeadSymmetric(p: Path, q: Path)
    ensures Lead(p, q) == Lead(q, p)
    decreases p
  {
    if p != [] && q != [] && p[0].kind == q[0].kind {
      MatchSymmetric(p[0].asns, q[0].asns);
      LeadSymmetric(p[1..], q[1..]);
    }
  }

  /** The ASN set of the aggregate is exactly the union of both. */
  lemma {:induction false} AggregateAsns(p: Path, q: Path)
    ensures AsnsOf(Aggregated(p, q)) == AsnsOf(p) + AsnsOf(q)
  {
    var s := AddAll(AddAll([], Rest(p, q)), Rest(q, p));
    LeadAndRest(p, q);
    LeadAndRest(q, p);
    LeadSymmetric(p, q);
    AddAllMembers([], Rest(p, q));
    AddAllMembers(AddAll([], Rest(p, q)), Rest(q, p));
    NoMembers([]);
    AsnsSingle(Segment(AsSet, s));
    NoMembers(s);
    AsnsConcat(Lead(p, q), AsSetOf(s));
    NormalFormAsns(Lead(p, q) + AsSetOf(s));
  }

  // ------------------------------------------------------------------
  // The order of the two paths does not matter
  // ------------------------------------------------------------------

  /** A set at the end of a list is normalised on its own. */
  lemma {:induction false} SetLast(x: Path, y: Segment)
    requires y.kind.AsSet?
    ensures NormalForm(x + [y]) == NormalForm(x) + [NormalSegment(y)]
    decreases |x|
  {
    if x == [] {
      assert x + [y] == [y] && [y][1..] == [];
    } else if |x| > 1 && Packable(x[0], x[1]) {
      var z := [Append(x[0], x[1])] + x[2..];
      SetLast(z, y);
      assert (x + [y])[2..] == x[2..] + [y];
      assert z + [y] == [Append(x[0], x[1])] + (x[2..] + [y]);
    } else {
      SetLast(x[1..], y);
      assert (x + [y])[1..] == x[1..] + [y];
      assert !(|x + [y]| > 1 && Packable((x + [y])[0], (x + [y])[1]));
      hide NormalSegment;
    }
  }

  lemma {:induction false} AggregateCommutes(p: Path, q: Path)
    ensures Aggregated(p, q) == Aggregated(q, p)
  {
    LeadSymmetric(p, q);
    var r1, r2 := Rest(p, q), Rest(q, p);
    var s, t := AddAll(AddAll([], r1), r2), AddAll(AddAll([], r2), r1);
    AddAllMembers([], r1);
    AddAllMembers([], r2);
    AddAllMembers(AddAll([], r1), r2);
    AddAllMembers(AddAll([], r2), r1);
    NoMembers(s);
    NoMembers(t);
    assert Members(s) == Members(t);
    hide Lead, Rest, AddAll, NormalForm, Members;
    if s != [] {
      SetLast(Lead(p, q), Segment(AsSet, s));
      SetLast(Lead(p, q), Segment(AsSet, t));
    }
  }

  // ------------------------------------------------------------------
  // A path with itself
  // ------------------------------------------------------------------

  lemma {:induction false} MatchSelf(s: seq<Asn>)
    ensures Match(s, s) == |s|
  {
    if s != [] { MatchSelf(s[1..]); }
  }

  function NonEmpty(p: Path): Path {
    if p == [] then [] else (if p[0].asns == [] then [] else [p[0]]) + NonEmpty(p[1..])
  }

  lemma {:induction false} NonEmptyHasNone(p: Path)
    ensures NoEmptySegment(NonEmpty(p)) && (NoEmptySegment(p) ==> NonEmpty(p) == p)
  {
    if p != [] {
      NonEmptyHasNone(p[1..]);
      assert p == [p[0]] + p[1..];
    }
  }

  lemma {:induction false} LeadSelf(p: Path)
    ensures Lead(p, p) == NonEmpty(p) && Rest(p, p) == []
  {
    if p != [] {
      LeadSelf(p[1..]);
      MatchSelf(p[0].asns);
      assert p[0].asns[..|p[0].asns|] == p[0].asns;
    }
  }

  /** Aggregating a normalised path with itself gives it back exactly when it has
      no empty segment; empty ones are dropped. */
  lemma {:induction false} AggregateSelf(p: Path)
    ensures Aggregated(p, p) == NormalForm(NonEmpty(p))
    ensures IsNormal(p) ==> (Aggregated(p, p) == p <==> NoEmptySegment(p))
  {
    LeadSelf(p);
    NonEmptyHasNone(p);
    NormalFormNonEmpty(NonEmpty(p));
    if IsNormal(p) { NormalFormFixed(p); }
    assert NonEmpty(p) + [] == NonEmpty(p);
  }

  // ------------------------------------------------------------------
  // The leading part
  // ------------------------------------------------------------------

  /** The longest common beginning of two lists of hops. */
  ghost function CommonHops(g: seq<Hop>, h: seq<Hop>): seq<Hop> {
    if g == [] || h == [] || g[0] != h[0] then [] else [g[0]] + CommonHops(g[1..], h[1..])
  }

  lemma {:induction false} CommonHopsAfter(x: seq<Hop>, g: seq<Hop>, h: seq<Hop>)
    ensures CommonHops(x + g, x + h) == x + CommonHops(g, h)
  {
    if x == [] {
      assert x + g == g && x + h == h;
    } else {
      assert (x + g)[1..] == x[1..] + g && (x + h)[1..] == x[1..] + h;
      CommonHopsAfter(x[1..], g, h);
      assert [x[0]] + (x[1..] + CommonHops(g, h)) == x + CommonHops(g, h);
    }
  }

  /** The paths part inside a set or a confederation segment of the same kind,
      after some of its members. */
  predicate Torn(p: Path, q: Path)
    decreases p
  {
    if p == [] || q == [] || p[0].kind != q[0].kind then false
    else if Whole(p[0], q[0]) then Torn(p[1..], q[1..])
    else !p[0].kind.AsSequence? && Match(p[0].asns, q[0].asns) > 0
  }

  /** The first hop of a path tells what kind of segment it starts with. */
  lemma {:induction false} FirstHop(p: Path)
    requires p != [] && p[0].asns != []
    ensures Denote(p) != []
    ensures Denote(p)[0] == match p[0].kind
                            case AsSequence => As(p[0].asns[0])
                            case AsSet => OneOf(Members(p[0].asns))
                            case ConfedSequence => ConfedRun(p[0].asns)
                            case ConfedSet => ConfedOneOf(Members(p[0].asns))
  {
    assert SegHops(p[0]) != [];
  }

  lemma {:induction false} MatchEqual(s: seq<Asn>, t: seq<Asn>)
    requires Match(s, t) == |s| == |t|
    ensures s == t
  {
    assert s[..|s|] == s && t[..|t|] == t;
  }

  /** Two sequences part: their common hops are the ones that match. */
  lemma {:induction false} SequencesPart(p: Path, q: Path)
    requires p != [] && q != [] && p[0].kind.AsSequence? && q[0].kind.AsSequence? && !Whole(p[0], q[0])
    requires IsNormal(p) && IsNormal(q) && NoEmptySegment(p) && NoEmptySegment(q)
    ensures CommonHops(Denote(p), Denote(q)) == AsHops(p[0].asns[..Match(p[0].asns, q[0].asns)])
  {
    var s, t := p[0].asns, q[0].asns;
    var m := Match(s, t);
    var g, h := AsHops(s[m..]) + Denote(p[1..]), AsHops(t[m..]) + Denote(q[1..]);
    hide Denote, Match, AsHops, IsNormal, NoEmptySegment;
    SequenceSplit(p, m);
    SequenceSplit(q, m);
    CommonHopsAfter(AsHops(s[..m]), g, h);
    SequenceEnds(p, m);
    SequenceEnds(q, m);
    assert CommonHops(g, h) == [] && AsHops(s[..m]) + [] == AsHops(s[..m]);
  }

  lemma {:induction false} SequenceSplit(p: Path, m: nat)
    requires p != [] && p[0].kind.AsSequence? && m <= |p[0].asns|
    ensures var s := p[0].asns;
            Denote(p) == AsHops(s[..m]) + (AsHops(s[m..]) + Denote(p[1..]))
  {
    var s := p[0].asns;
    assert AsHops(s) == AsHops(s[..m]) + AsHops(s[m..]);
    hide AsHops;
    assert (AsHops(s[..m]) + AsHops(s[m..])) + Denote(p[1..]) == AsHops(s[..m]) + (AsHops(s[m..]) + Denote(p[1..]));
  }

  /** After the first `m` members of a leading sequence comes its next member, or
      something else than a member of a sequence. */
  lemma {:induction false} SequenceEnds(p: Path, m: nat)
    requires p != [] && p[0].kind.AsSequence? && IsNormal(p) && NoEmptySegment(p) && m <= |p[0].asns|
    ensures var g := AsHops(p[0].asns[m..]) + Denote(p[1..]);
            if m < |p[0].asns| then g != [] && g[0] == As(p[0].asns[m]) else g == [] || !g[0].As?
  {
    if m == |p[0].asns| {
      assert AsHops(p[0].asns[m..]) + Denote(p[1..]) == Denote(p[1..]);
      if |p| > 1 { FirstHop(p[1..]); }
    }
  }

  /** The leading part of the aggregate is the longest common beginning of the two
      paths exactly when they do not part inside a set or a confederation segment. */
  lemma {:induction false} LeadIsCommon(p: Path, q: Path)
    requires IsNormal(p) && IsNormal(q) && NoEmptySegment(p) && NoEmptySegment(q)
    ensures Denote(Lead(p, q)) == CommonHops(Denote(p), Denote(q)) <==> !Torn(p, q)
    decreases p
  {
    if p == [] || q == [] {
    } else if p[0].kind != q[0].kind {
      FirstHop(p);
      FirstHop(q);
    } else if Whole(p[0], q[0]) {
      WholeLead(p, q);
    } else {
      PartLead(p, q);
    }
  }

  lemma {:induction false} DenoteOne(x: Segment)
    ensures Denote([x]) == SegHops(x)
  {
    assert [x][1..] == [] && SegHops(x) + [] == SegHops(x);
  }

  lemma {:induction false} WholeLead(p: Path, q: Path)
    requires p != [] && q != [] && Whole(p[0], q[0])
    requires IsNormal(p) && IsNormal(q) && NoEmptySegment(p) && NoEmptySegment(q)
    ensures Denote(Lead(p, q)) == CommonHops(Denote(p), Denote(q)) <==> !Torn(p, q)
    decreases p, 0
  {
    var x := p[0];
    MatchEqual(p[0].asns, q[0].asns);
    LeadIsCommon(p[1..], q[1..]);
    CommonHopsAfter(SegHops(x), Denote(p[1..]), Denote(q[1..]));
    assert x.asns[..|x.asns|] == x.asns;
    assert Lead(p, q) == [x] + Lead(p[1..], q[1..]);
    assert ([x] + Lead(p[1..], q[1..]))[1..] == Lead(p[1..], q[1..]);
    Cancel(SegHops(x), Denote(Lead(p[1..], q[1..])), CommonHops(Denote(p[1..]), Denote(q[1..])));
  }

  lemma {:induction false} Cancel(x: seq<Hop>, y: seq<Hop>, z: seq<Hop>)
    ensures x + y == x + z <==> y == z
  {
    if x + y == x + z {
      assert (x + y)[|x|..] == y && (x + z)[|x|..] == z;
    }
  }

  lemma {:induction false} PartLead(p: Path, q: Path)
    requires p != [] && q != [] && p[0].kind == q[0].kind && !Whole(p[0], q[0])
    requires IsNormal(p) && IsNormal(q) && NoEmptySegment(p) && NoEmptySegment(q)
    ensures Denote(Lead(p, q)) == CommonHops(Denote(p), Denote(q)) <==> !Torn(p, q)
  {
    var s, t := p[0].asns, q[0].asns;
    var m := Match(s, t);
    var x := Segment(p[0].kind, s[..m]);
    assert Lead(p, q) == Piece(p[0], m) + [] == Piece(p[0], m);
    DenoteOne(x);
    MatchSelf(s);
    if p[0].kind.AsSequence? {
      SequencesPart(p, q);
    } else {
      FirstHop(p);
      FirstHop(q);
      if s != t && p[0].kind.Unordered() && Members(s) == Members(t) { StrictlyAscendingUnique(s, t); }
    }
  }

  lemma {:induction false} TornParts(p: Path, q: Path)
    requires p == [Segment(AsSet, [1, 2])] && q == [Segment(AsSet, [1, 3])]
    ensures Torn(p, q) && Lead(p, q) == [Segment(AsSet, [1])] && Rest(p, q) == [2] && Rest(q, p) == [3]
  {
    var s, t := p[0].asns, q[0].asns;
    assert s[1..] == [2] && t[1..] == [3] && s[..1] == [1];
    assert Match(s, t) == 1 && Match(t, s) == 1;
    assert p[1..] == [] && q[1..] == [];
    hide Match;
  }

  /** Two sets that share their first member: the aggregate starts with a set that
      neither path has, and is longer than both. */
  lemma {:induction false} TornSets()
    ensures var p, q := [Segment(AsSet, [1, 2])], [Segment(AsSet, [1, 3])];
            && Torn(p, q) && Aggregated(p, q) == [Segment(AsSet, [1]), Segment(AsSet, [2, 3])]
            && Hops(Denote(p)) == Hops(Denote(q)) == 1 && Hops(Denote(Aggregated(p, q))) == 2
  {
    var p, q := [Segment(AsSet, [1, 2])], [Segment(AsSet, [1, 3])];
    TornAggregate(p, q);
    hide Aggregated, Torn;
    CountSets(p);
    CountSets(q);
    CountSets(Aggregated(p, q));
  }

  lemma {:induction false} TornAggregate(p: Path, q: Path)
    requires p == [Segment(AsSet, [1, 2])] && q == [Segment(AsSet, [1, 3])]
    ensures Torn(p, q) && Aggregated(p, q) == [Segment(AsSet, [1]), Segment(AsSet, [2, 3])]
  {
    TornParts(p, q);
    TornAsset();
    var r := [Segment(AsSet, [1]), Segment(AsSet, [2, 3])];
    assert NormalForm(r) == r by { NormalFormFixed(r); }
    hide Lead, Rest, AddAll, NormalForm, Torn;
    assert Lead(p, q) + AsSetOf([2, 3]) == r;
  }

  lemma {:induction false} TornAsset()
    ensures AddAll(AddAll([], [2]), [3]) == [2, 3]
  {
    var x: seq<Asn>, y: seq<Asn> := [2], [3];
    assert x[1..] == [] && y[1..] == [] && AddAll([], x) == x && AddAll(x, y) == [2, 3];
  }

  lemma {:induction false} CountSets(p: Path)
    requires forall i :: 0 <= i < |p| ==> p[i].kind.AsSet?
    ensures Hops(Denote(p)) == |p|
  {
    if p != [] {
      CountSets(p[1..]);
      HopsOfSegment(p[0]);
      HopsConcat(SegHops(p[0]), Denote(p[1..]));
    }
  }
}
