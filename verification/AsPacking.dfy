/**
 What aspath_put (bgpd/bgp_aspath.c) makes of a list that was never normalised: its
 packing loop may take several segments, and then writes a wrong length byte.
 */
module AsPacking {
  import opened Common
  import opened AsFraming
  import opened AsPath
  import opened AsWire

  /** How many of the following segments the packing loop takes. */
  function Taken(seg: Segment, next: Path): (k: nat)
    ensures k <= |next|
    decreases |next|
  {
    if next == [] || !FitsBeside(seg, next[0]) then 0 else 1 + Taken(seg, next[1..])
  }

  lemma {:induction false} TakenFit(seg: Segment, next: Path)
    ensures forall i :: 0 <= i < Taken(seg, next) ==> FitsBeside(seg, next[i])
    decreases |next|
  {
    if next != [] && FitsBeside(seg, next[0]) {
      TakenFit(seg, next[1..]);
      assert forall i :: 0 < i < |next| ==> next[i] == next[1..][i - 1];
    }
  }

  /** The segments as the code groups them: one that takes others becomes one, any
      other is split into its pieces. */
  ghost function Grouped(p: Path): Path
    decreases |p|
  {
    if p == [] then []
    else
      var k := Taken(p[0], p[1..]);
      Group(p, k) + Grouped(p[k + 1..])
  }

  ghost function Group(p: Path, k: nat): Path
    requires k < |p|
  {
    if k == 0 then SplitSegment(p[0]) else [Segment(p[0].kind, Flat(p[..k + 1]))]
  }

  /** Some segment takes two others. */
  predicate PacksTwice(p: Path)
    decreases |p|
  {
    if p == [] then false
    else
      var k := Taken(p[0], p[1..]);
      k >= 2 || PacksTwice(p[k + 1..])
  }

  /** What the code writes for a segment and the `k` it takes: the length byte only
      knows the last of them. */
  function Round(p: Path, k: nat, use32: bool): seq<Byte>
    requires k < |p| && forall i :: 0 < i <= k ==> FitsBeside(p[0], p[i])
  {
    if k == 0 then Pieces(p[0].kind, p[0].asns, use32)
    else
      assert FitsBeside(p[0], p[k]);
      var n: Byte := |p[0].asns| + |p[k].asns|;
      [Code(p[0].kind), n] + PutData(Flat(p[..k + 1]), use32)
  }

  lemma {:induction false} Patch(s: seq<Byte>, d: seq<Byte>, e: seq<Byte>, lenp: nat, x: Byte, y: Byte)
    requires lenp < |s|
    ensures ((s + d)[lenp := x] + e)[lenp := y] == (s + (d + e))[lenp := y]
  {
  }

  /** The stream after the packing loop. */
  function Patched(s: seq<Byte>, lenp: nat, piece: nat, seg: Segment, next: Path, k: nat, use32: bool): seq<Byte>
    requires lenp < |s| && piece <= |seg.asns| && k <= |next| && forall i :: 0 <= i < k ==> FitsBeside(seg, next[i])
  {
    if k == 0 then s
    else
      assert FitsBeside(seg, next[k - 1]);
      var n: Byte := piece + |next[k - 1].asns|;
      (s + PutData(Flat(next[..k]), use32))[lenp := n]
  }

  lemma {:induction false} PatchedMore(s: seq<Byte>, lenp: nat, piece: nat, seg: Segment, next: Path, k: nat, use32: bool)
    requires lenp < |s| && piece <= |seg.asns| && 0 < k <= |next| && forall i :: 0 <= i < k ==> FitsBeside(seg, next[i])
    ensures FitsBeside(seg, next[0])
    ensures var n: Byte := piece + |next[0].asns|;
            var t := (s + PutData(next[0].asns, use32))[lenp := n];
            Patched(t, lenp, piece, seg, next[1..], k - 1, use32) == Patched(s, lenp, piece, seg, next, k, use32)
  {
    hide PutData, Flat;
    assert FitsBeside(seg, next[0]) && FitsBeside(seg, next[k - 1]);
    FlatFirst(next, k, use32);
    var n: Byte := piece + |next[0].asns|;
    if k > 1 {
      assert next[1..][k - 2] == next[k - 1];
      var last: Byte := piece + |next[k - 1].asns|;
      Patch(s, PutData(next[0].asns, use32), PutData(Flat(next[1..][..k - 1]), use32), lenp, n, last);
    }
  }

  lemma {:induction false} FlatFirst(next: Path, k: nat, use32: bool)
    requires 0 < k <= |next|
    ensures PutData(Flat(next[..k]), use32) == PutData(next[0].asns, use32) + PutData(Flat(next[1..][..k - 1]), use32)
    ensures k == 1 ==> PutData(Flat(next[..k]), use32) == PutData(next[0].asns, use32)
  {
    hide PutData;
    assert next[..k][1..] == next[1..][..k - 1];
    PutDataConcat(next[0].asns, Flat(next[1..][..k - 1]), use32);
    if k == 1 { assert next[0].asns + [] == next[0].asns; }
  }

  lemma {:induction false} PackIs(s: seq<Byte>, lenp: nat, piece: nat, seg: Segment, next: Path, use32: bool)
    requires lenp < |s| && piece <= |seg.asns|
    ensures var k := Taken(seg, next);
            && (forall i :: 0 <= i < k ==> FitsBeside(seg, next[i]))
            && Pack(s, lenp, piece, seg, next, use32) == (Patched(s, lenp, piece, seg, next, k, use32), next[k..])
    decreases |next|
  {
    TakenFit(seg, next);
    hide PutData, Patched;
    if next != [] && FitsBeside(seg, next[0]) {
      var k := Taken(seg, next);
      PackIs((s + PutData(next[0].asns, use32))[lenp := piece + |next[0].asns|], lenp, piece, seg, next[1..], use32);
      PatchedMore(s, lenp, piece, seg, next, k, use32);
      assert next[1..][k - 1..] == next[k..];
    } else {
      PatchedNone(s, lenp, piece, seg, next, use32);
    }
  }

  lemma {:induction false} PatchedNone(s: seq<Byte>, lenp: nat, piece: nat, seg: Segment, next: Path, use32: bool)
    requires lenp < |s| && piece <= |seg.asns|
    ensures Patched(s, lenp, piece, seg, next, 0, use32) == s
  {
  }

  /** One round of the outer loop. */
  lemma {:induction false} PutOneIs(s: seq<Byte>, p: Path, use32: bool)
    requires p != []
    ensures var k := Taken(p[0], p[1..]);
            && (forall i :: 0 < i <= k ==> FitsBeside(p[0], p[i]))
            && PutOne(s, p, use32) == (s + Round(p, k, use32), p[k + 1..])
  {
    hide Pack, Patched, Taken, PutData, Flat;
    TakenFit(p[0], p[1..]);
    var k := Taken(p[0], p[1..]);
    ShiftFits(p, k);
    var piece, b := FinalPiece(|p[0].asns|), Pieces(p[0].kind, p[0].asns, use32);
    var lenp := |s + b| - DataSize(piece, use32) - 1;
    PackIs(s + b, lenp, piece, p[0], p[1..], use32);
    assert p[1..][k..] == p[k + 1..];
    if k > 0 {
      assert FitsBeside(p[0], p[1..][0]);
      RoundBytes(s, p, k, use32);
    } else {
      PatchedNone(s + b, lenp, piece, p[0], p[1..], use32);
    }
  }

  lemma {:induction false} RoundBytes(s: seq<Byte>, p: Path, k: nat, use32: bool)
    requires 0 < k < |p| && (forall i :: 0 <= i < k ==> FitsBeside(p[0], p[1..][i])) && |p[0].asns| <= AS_SEGMENT_MAX
    ensures forall i :: 0 < i <= k ==> FitsBeside(p[0], p[i])
    ensures var b := Chunk(p[0].kind, p[0].asns, use32);
            Patched(s + b, |s| + 1, |p[0].asns|, p[0], p[1..], k, use32) == s + Round(p, k, use32)
  {
    ShiftFits(p, k);
    assert FitsBeside(p[0], p[k]);
    var x, y := p[0].asns, Flat(p[1..][..k]);
    var b, n: Byte := Chunk(p[0].kind, x, use32), |x| + |p[k].asns|;
    hide PutData, Flat, FitsBeside, Patched, Round, Code;
    PatchedIs(s + b, |s| + 1, p, k, n, use32);
    RoundIs(p, k, n, use32);
    PatchHeader(s, Code(p[0].kind), |x|, n, PutData(x, use32), PutData(y, use32));
  }

  lemma {:induction false} PatchedIs(s: seq<Byte>, lenp: nat, p: Path, k: nat, n: Byte, use32: bool)
    requires lenp < |s| && 0 < k < |p| && (forall i :: 0 <= i < k ==> FitsBeside(p[0], p[1..][i]))
    requires n == |p[0].asns| + |p[k].asns|
    ensures Patched(s, lenp, |p[0].asns|, p[0], p[1..], k, use32) == (s + PutData(Flat(p[1..][..k]), use32))[lenp := n]
  {
    hide PutData, Flat, FitsBeside;
    assert p[1..][k - 1] == p[k];
  }

  lemma {:induction false} RoundIs(p: Path, k: nat, n: Byte, use32: bool)
    requires 0 < k < |p| && (forall i :: 0 < i <= k ==> FitsBeside(p[0], p[i]))
    requires n == |p[0].asns| + |p[k].asns|
    ensures Round(p, k, use32)
         == [Code(p[0].kind), n] + (PutData(p[0].asns, use32) + PutData(Flat(p[1..][..k]), use32))
  {
    hide PutData, Flat, FitsBeside, Code;
    FlatHead(p, k);
    PutDataConcat(p[0].asns, Flat(p[1..][..k]), use32);
  }

  lemma {:induction false} ShiftFits(p: Path, k: nat)
    requires k < |p| && forall i :: 0 <= i < k ==> FitsBeside(p[0], p[1..][i])
    ensures forall i :: 0 < i <= k ==> FitsBeside(p[0], p[i])
  {
    forall i | 0 < i <= k ensures FitsBeside(p[0], p[i]) { assert FitsBeside(p[0], p[1..][i - 1]); }
  }

  lemma {:induction false} FlatHead(p: Path, k: nat)
    requires k < |p|
    ensures Flat(p[..k + 1]) == p[0].asns + Flat(p[1..][..k])
  {
    assert p[..k + 1][1..] == p[1..][..k];
  }

  lemma {:induction false} PatchHeader(s: seq<Byte>, c: Byte, m: Byte, n: Byte, d: seq<Byte>, e: seq<Byte>)
    ensures ((s + ([c, m] + d)) + e)[|s| + 1 := n] == s + ([c, n] + (d + e))
  {
  }

  function Rounds(p: Path, use32: bool): seq<Byte>
    decreases |p|
  {
    if p == [] then []
    else
      var k := Taken(p[0], p[1..]);
      TakenFit(p[0], p[1..]);
      ShiftFits(p, k);
      Round(p, k, use32) + Rounds(p[k + 1..], use32)
  }

  lemma {:induction false} WireSizeMore(p: Path, use32: bool)
    requires p != [] && NoEmptySegment(p)
    ensures WireSegments(SplitSegment(p[0]))
    ensures WireSize(p, use32) == |Encode(SplitSegment(p[0]), use32)| + WireSize(p[1..], use32)
    ensures |Pieces(p[0].kind, p[0].asns, use32)| == |Encode(SplitSegment(p[0]), use32)|
  {
    PiecesAreSplit(p[0], use32);
    SplitBounded(p[1..]);
    EncodeConcat(SplitSegment(p[0]), Split(p[1..]), use32);
  }

  lemma {:induction false} EncodeSingle(s: Segment, use32: bool)
    requires WireSegment(s)
    ensures WireSegments([s]) && Encode([s], use32) == Chunk(s.kind, s.asns, use32)
  {
    hide Chunk;
    assert [s][1..] == [] && Chunk(s.kind, s.asns, use32) + [] == Chunk(s.kind, s.asns, use32);
  }

  /** Segments that fit in a byte take up their headers and their data. */
  lemma {:induction false} ShortSizes(p: Path, k: nat, use32: bool)
    requires k <= |p| && NoEmptySegment(p) && forall i :: 0 <= i < k ==> |p[i].asns| <= AS_SEGMENT_MAX
    ensures WireSize(p, use32) == 2 * k + DataSize(|Flat(p[..k])|, use32) + WireSize(p[k..], use32)
    decreases k
  {
    hide Chunk, Encode, WireSize;
    if k == 0 {
      assert p[0..] == p && p[..0] == [];
    } else {
      WireSizeMore(p, use32);
      EncodeSingle(p[0], use32);
      FlatHead(p, k - 1);
      ShortSizes(p[1..], k - 1, use32);
      assert p[1..][k - 1..] == p[k..];
    }
  }

  /** A round takes no more than its segments would on their own. */
  lemma {:induction false} RoundSize(p: Path, use32: bool)
    requires p != [] && NoEmptySegment(p)
    ensures var k := Taken(p[0], p[1..]);
            && (forall i :: 0 < i <= k ==> FitsBeside(p[0], p[i]))
            && |Round(p, k, use32)| + WireSize(p[k + 1..], use32) <= WireSize(p, use32)
    ensures SegmentSize(|p[0].asns|, use32) <= WireSize(p, use32)
  {
    hide WireSize, Encode, Pieces, PutData, Flat, Taken, SplitSegment, Chunk;
    var k := Taken(p[0], p[1..]);
    TakenFit(p[0], p[1..]);
    ShiftFits(p, k);
    WireSizeMore(p, use32);
    if k > 0 {
      assert FitsBeside(p[0], p[1]);
      forall i | 0 <= i < k + 1 ensures |p[i].asns| <= AS_SEGMENT_MAX { if i > 0 { assert FitsBeside(p[0], p[i]); } }
      ShortSizes(p, k + 1, use32);
    }
  }

  lemma {:induction false} PutSegmentsRounds(s: seq<Byte>, p: Path, use32: bool, room: nat)
    requires NoEmptySegment(p) && |s| + WireSize(p, use32) <= room
    ensures PutSegments(s, p, use32, room) == s + Rounds(p, use32)
    decreases |p|
  {
    hide Round, PutOne, WireSize, Rounds, PutSegments, FitsBeside, Taken, SegmentSize;
    if p == [] {
      NothingPut(use32);
      PutNoSegments(s, use32, room);
    } else {
      var k := Taken(p[0], p[1..]);
      RoundSize(p, use32);
      PutOneIs(s, p, use32);
      PutSegmentsOnce(s, p, use32, room);
      RoundsStep(p, use32);
      PutSegmentsRounds(s + Round(p, k, use32), p[k + 1..], use32, room);
      AsWire.Assoc(s, Round(p, k, use32), Rounds(p[k + 1..], use32));
    }
  }

  lemma {:induction false} PutNoSegments(s: seq<Byte>, use32: bool, room: nat)
    ensures PutSegments(s, [], use32, room) == s
  {
  }

  lemma {:induction false} PutSegmentsOnce(s: seq<Byte>, p: Path, use32: bool, room: nat)
    requires p != [] && |s| + SegmentSize(|p[0].asns|, use32) <= room
    ensures PutSegments(s, p, use32, room) == PutSegments(PutOne(s, p, use32).0, PutOne(s, p, use32).1, use32, room)
  {
    hide PutOne;
  }

  lemma {:induction false} RoundsStep(p: Path, use32: bool)
    requires p != []
    ensures var k := Taken(p[0], p[1..]);
            && k < |p| && (forall i :: 0 < i <= k ==> FitsBeside(p[0], p[i]))
            && Rounds(p, use32) == Round(p, k, use32) + Rounds(p[k + 1..], use32)
  {
    hide Round, FitsBeside;
    TakenFit(p[0], p[1..]);
    ShiftFits(p, Taken(p[0], p[1..]));
  }

  lemma {:induction false} FlatLonger(p: Path, k: nat)
    requires 2 <= k < |p| && NoEmptySegment(p)
    ensures |Flat(p[..k + 1])| > |p[0].asns| + |p[k].asns|
  {
    FlatHead(p, k);
    FlatHead(p[1..], k - 1);
    assert p[1..][1..][..k - 1] == p[2..k] + [p[k]];
    FlatConcat(p[2..k], [p[k]]);
    assert Flat([p[k]]) == p[k].asns;
  }

  /** A round is the encoding of its group exactly when it takes at most one. */
  lemma {:induction false} RoundExact(p: Path, use32: bool)
    requires p != [] && NoEmptySegment(p)
    ensures var k := Taken(p[0], p[1..]);
            && (forall i :: 0 < i <= k ==> FitsBeside(p[0], p[i]))
            && (k < 2 ==> WireSegments(Group(p, k)) && Round(p, k, use32) == Encode(Group(p, k), use32))
            && (k >= 2 && WireSegments(Group(p, k)) ==>
                  |Round(p, k, use32)| >= 2 && |Encode(Group(p, k), use32)| >= 2
                  && Round(p, k, use32)[1] != Encode(Group(p, k), use32)[1])
  {
    var k := Taken(p[0], p[1..]);
    TakenFit(p[0], p[1..]);
    ShiftFits(p, k);
    PiecesAreSplit(p[0], use32);
    if k > 0 {
      var g := Segment(p[0].kind, Flat(p[..k + 1]));
      assert FitsBeside(p[0], p[k]);
      if k == 1 {
        FlatHead(p, 1);
        assert p[1..][..1] == [p[1]] && Flat([p[1]]) == p[1].asns;
        EncodeSingle(g, use32);
      } else {
        FlatLonger(p, k);
        if WireSegment(g) { EncodeSingle(g, use32); }
      }
    }
  }

  lemma {:induction false} RoundsExact(p: Path, use32: bool)
    requires NoEmptySegment(p)
    ensures (WireSegments(Grouped(p)) && Rounds(p, use32) == Encode(Grouped(p), use32)) <==> !PacksTwice(p)
    decreases |p|
  {
    if p != [] {
      var k := Taken(p[0], p[1..]);
      var g, gs := Group(p, k), Grouped(p[k + 1..]);
      RoundExact(p, use32);
      RoundsExact(p[k + 1..], use32);
      GroupsApart(g, gs);
      hide Round, Group, Encode, NoEmptySegment;
      if WireSegments(g) && WireSegments(gs) {
        EncodeConcat(g, gs, use32);
        CompareRounds(Round(p, k, use32), Rounds(p[k + 1..], use32), Encode(g, use32), Encode(gs, use32));
      }
    }
  }

  lemma {:induction false} GroupsApart(g: Path, gs: Path)
    ensures WireSegments(g + gs) <==> WireSegments(g) && WireSegments(gs)
  {
    var w := g + gs;
    assert forall i :: 0 <= i < |g| ==> w[i] == g[i];
    assert forall i :: 0 <= i < |gs| ==> w[|g| + i] == gs[i];
  }

  lemma {:induction false} CompareRounds(x: seq<Byte>, xs: seq<Byte>, y: seq<Byte>, ys: seq<Byte>)
    ensures x == y ==> (x + xs == y + ys <==> xs == ys)
    ensures |x| >= 2 && |y| >= 2 && x[1] != y[1] ==> x + xs != y + ys
  {
    if x == y && x + xs == y + ys { assert xs == (x + xs)[|x|..] == (y + ys)[|y|..] == ys; }
    if |x| >= 2 && |y| >= 2 && x[1] != y[1] { assert (x + xs)[1] == x[1] && (y + ys)[1] == y[1]; }
  }

  /** On any list, normalised or not, aspath_put writes the encoding of the segments
      as it groups them exactly when no segment takes two others; if one does, its
      length byte counts only the last of those. */
  lemma {:induction false} PackingExact(p: Path, use32: bool, room: nat)
    requires NoEmptySegment(p) && WireSize(p, use32) <= room
    ensures (WireSegments(Grouped(p)) && PutPath(p, use32, room) == Encode(Grouped(p), use32)) <==> !PacksTwice(p)
  {
    RoundsExact(p, use32);
    PutSegmentsRounds([], p, use32, room);
    hide Grouped, PacksTwice, Rounds;
    assert [] + Rounds(p, use32) == Rounds(p, use32);
    if p == [] { NothingPut(use32); }
  }

  lemma {:induction false} NothingPut(use32: bool)
    ensures Rounds([], use32) == []
  {
  }

  /** The grouping keeps the meaning, as either encoding shows it. */
  lemma {:induction false} GroupedDenote(p: Path, use32: bool)
    requires NoEmptySegment(p) && NonSequencesFit(p)
    ensures Denote(SeenPath(Grouped(p), use32)) == Denote(SeenPath(p, use32))
    decreases |p|
  {
    hide *;
    if p == [] {
      NoGroups();
    } else {
      var k := Taken(p[0], p[1..]);
      var g, q := Group(p, k), p[k + 1..];
      TailKeepsShape(p, k + 1);
      GroupDenote(p, use32);
      GroupedDenote(q, use32);
      SeenJoined(g, Grouped(q), p[..k + 1], q, use32);
      assert p == p[..k + 1] + q;
      GroupsFrom(p, k);
    }
  }

  lemma {:induction false} NoGroups()
    ensures Grouped([]) == []
  {
  }

  lemma {:induction false} GroupsFrom(p: Path, k: nat)
    requires p != [] && k == Taken(p[0], p[1..])
    ensures Grouped(p) == Group(p, k) + Grouped(p[k + 1..])
  {
    hide Group, Taken;
  }

  lemma {:induction false} TailKeepsShape(p: Path, k: nat)
    requires k <= |p| && NoEmptySegment(p) && NonSequencesFit(p)
    ensures NoEmptySegment(p[k..]) && NonSequencesFit(p[k..])
  {
  }

  lemma {:induction false} SeenJoined(p: Path, ps: Path, q: Path, qs: Path, use32: bool)
    requires Denote(SeenPath(p, use32)) == Denote(SeenPath(q, use32))
    requires Denote(SeenPath(ps, use32)) == Denote(SeenPath(qs, use32))
    ensures Denote(SeenPath(p + ps, use32)) == Denote(SeenPath(q + qs, use32))
  {
    hide Denote;
    SeenConcat(p, ps, use32);
    SeenConcat(q, qs, use32);
    hide SeenPath;
    DenoteConcat(SeenPath(p, use32), SeenPath(ps, use32));
    DenoteConcat(SeenPath(q, use32), SeenPath(qs, use32));
  }

  lemma {:induction false} SeenConcat(p: Path, q: Path, use32: bool)
    ensures SeenPath(p + q, use32) == SeenPath(p, use32) + SeenPath(q, use32)
  {
  }

  lemma {:induction false} GroupDenote(p: Path, use32: bool)
    requires p != [] && NoEmptySegment(p) && NonSequencesFit(p)
    ensures var k := Taken(p[0], p[1..]);
            Denote(SeenPath(Group(p, k), use32)) == Denote(SeenPath(p[..k + 1], use32))
  {
    var k := Taken(p[0], p[1..]);
    TakenFit(p[0], p[1..]);
    ShiftFits(p, k);
    if k == 0 {
      var s := p[0].(asns := SeenAll(p[0].asns, use32));
      SeenSplitSegment(p[0], use32);
      SplitSegmentDenote(s);
      assert SeenPath(p[..1], use32) == [s];
      assert [s][1..] == [] && SegHops(s) + [] == SegHops(s);
    } else {
      assert FitsBeside(p[0], p[1]);
      forall i | 0 <= i < k + 1 ensures p[i].kind.AsSequence? { if i > 0 { assert FitsBeside(p[0], p[i]); } }
      FlatSeen(p[..k + 1], use32);
    }
  }

  /** Sequences run together mean what they meant one by one. */
  lemma {:induction false} FlatSeen(p: Path, use32: bool)
    requires forall i :: 0 <= i < |p| ==> p[i].kind.AsSequence?
    ensures Denote(SeenPath([Segment(AsSequence, Flat(p))], use32)) == Denote(SeenPath(p, use32))
  {
    var s := Segment(AsSequence, SeenAll(Flat(p), use32));
    assert SeenPath([Segment(AsSequence, Flat(p))], use32) == [s];
    assert [s][1..] == [] && SegHops(s) + [] == SegHops(s);
    if p == [] {
      assert SeenPath(p, use32) == [];
    } else {
      FlatSeen(p[1..], use32);
      SeenPathTail(p, use32);
      var x, y := SeenAll(p[0].asns, use32), SeenAll(Flat(p[1..]), use32);
      assert SeenAll(p[0].asns + Flat(p[1..]), use32) == x + y;
      AppendHops(Segment(AsSequence, x), Segment(AsSequence, y));
      var t := Segment(AsSequence, y);
      assert SeenPath([Segment(AsSequence, Flat(p[1..]))], use32) == [t];
      assert [t][1..] == [] && SegHops(t) + [] == SegHops(t);
    }
  }

  // ------------------------------------------------------------------
  // No other list can make up for a wrong length byte
  // ------------------------------------------------------------------

  ghost function Words(b: seq<Byte>): seq<Word> {
    if |b| < 2 then [] else [Word(b[0], b[1])] + Words(b[2..])
  }

  ghost function AsnWords(a: Asn, use32: bool): seq<Word> {
    var b := PutAsn(a, use32);
    if use32 then [Word(b[0], b[1]), Word(b[2], b[3])] else [Word(b[0], b[1])]
  }

  ghost function DataWords(asns: seq<Asn>, use32: bool): (w: seq<Word>)
    ensures |w| == if use32 then 2 * |asns| else |asns|
  {
    if asns == [] then [] else AsnWords(asns[0], use32) + DataWords(asns[1..], use32)
  }

  lemma {:induction false} TwoBytes(x: Byte, y: Byte, b: seq<Byte>)
    ensures Words([x, y] + b) == [Word(x, y)] + Words(b)
  {
    assert ([x, y] + b)[2..] == b;
  }

  lemma {:induction false} AsnThen(a: Asn, rest: seq<Byte>, use32: bool)
    ensures Words(PutAsn(a, use32) + rest) == AsnWords(a, use32) + Words(rest)
  {
    hide Words, PutAsn;
    var b := PutAsn(a, use32);
    if use32 {
      assert b + rest == [b[0], b[1]] + ([b[2], b[3]] + rest);
      TwoBytes(b[2], b[3], rest);
      TwoBytes(b[0], b[1], [b[2], b[3]] + rest);
    } else {
      assert b == [b[0], b[1]];
      TwoBytes(b[0], b[1], rest);
    }
  }

  lemma {:induction false} DataThen(asns: seq<Asn>, rest: seq<Byte>, use32: bool)
    ensures Words(PutData(asns, use32) + rest) == DataWords(asns, use32) + Words(rest)
  {
    hide Words, PutAsn, AsnWords;
    if asns == [] {
      assert PutData(asns, use32) + rest == rest;
    } else {
      DataThen(asns[1..], rest, use32);
      AsnThen(asns[0], PutData(asns[1..], use32) + rest, use32);
      AsWire.Assoc(PutAsn(asns[0], use32), PutData(asns[1..], use32), rest);
      AsFraming.Assoc(AsnWords(asns[0], use32), DataWords(asns[1..], use32), Words(rest));
    }
  }

  lemma {:induction false} DataWordsConcat(x: seq<Asn>, y: seq<Asn>, use32: bool)
    ensures DataWords(x + y, use32) == DataWords(x, use32) + DataWords(y, use32)
  {
    hide AsnWords;
    if x == [] {
      assert x + y == y;
    } else {
      DataWordsConcat(x[1..], y, use32);
      assert (x + y)[1..] == x[1..] + y;
      AsFraming.Assoc(AsnWords(x[0], use32), DataWords(x[1..], use32), DataWords(y, use32));
    }
  }

  /** A header over some data, and its words. */
  ghost function FrameOf(kind: SegKind, n: Byte, asns: seq<Asn>, use32: bool): Frame {
    Frame(Word(Code(kind), n), DataWords(asns, use32))
  }

  lemma {:induction false} FrameThen(kind: SegKind, n: Byte, asns: seq<Asn>, rest: seq<Byte>, use32: bool)
    ensures var f := FrameOf(kind, n, asns, use32);
            Words(([Code(kind), n] + PutData(asns, use32)) + rest) == [f.head] + f.data + Words(rest)
    ensures Code(kind) == SEQUENCE <==> kind.AsSequence?
  {
    hide Words, DataWords, PutData;
    AsWire.Assoc([Code(kind), n], PutData(asns, use32), rest);
    TwoBytes(Code(kind), n, PutData(asns, use32) + rest);
    DataThen(asns, rest, use32);
    AsFraming.Assoc([Word(Code(kind), n)], DataWords(asns, use32), Words(rest));
  }

  ghost function Frames(ws: Path, use32: bool): seq<Frame>
    requires WireSegments(ws)
  {
    if ws == [] then [] else [FrameOf(ws[0].kind, |ws[0].asns|, ws[0].asns, use32)] + Frames(ws[1..], use32)
  }

  /** The AS numbers of the AS_SEQUENCEs before anything else. */
  ghost function LeadAsns(p: Path): seq<Asn> {
    if p == [] || !p[0].kind.AsSequence? then [] else p[0].asns + LeadAsns(p[1..])
  }

  lemma {:induction false} FramesThen(ws: Path, rest: seq<Byte>, use32: bool)
    requires WireSegments(ws)
    ensures Words(Encode(ws, use32) + rest) == Stream(Frames(ws, use32)) + Words(rest)
  {
    hide Words, PutData, DataWords, Code, Stream;
    EmptyFrames(use32);
    if ws == [] {
      assert Encode(ws, use32) + rest == rest;
    } else {
      var s := ws[0];
      var f, fs := FrameOf(s.kind, |s.asns|, s.asns, use32), Frames(ws[1..], use32);
      FramesThen(ws[1..], rest, use32);
      FrameThen(s.kind, |s.asns|, s.asns, Encode(ws[1..], use32) + rest, use32);
      AsWire.Assoc(Chunk(s.kind, s.asns, use32), Encode(ws[1..], use32), rest);
      ConsFrame(f, fs, use32);
      AsFraming.Assoc([f.head] + f.data, Stream(fs), Words(rest));
    }
  }

  lemma {:induction false} FramesAre(ws: Path, use32: bool)
    requires WireSegments(ws)
    ensures Stream(Frames(ws, use32)) == Words(Encode(ws, use32))
    ensures Exact(Frames(ws, use32), use32) && Lead(Frames(ws, use32)) == DataWords(LeadAsns(ws), use32)
  {
    hide Words, DataWords, Lead, Stream, Exact, Encode, Frames;
    FramesThen(ws, [], use32);
    EmptyFrames(use32);
    assert Encode(ws, use32) + [] == Encode(ws, use32) && Stream(Frames(ws, use32)) + [] == Stream(Frames(ws, use32));
    FramesLead(ws, use32);
  }

  lemma {:induction false} FramesLead(ws: Path, use32: bool)
    requires WireSegments(ws)
    ensures Exact(Frames(ws, use32), use32) && Lead(Frames(ws, use32)) == DataWords(LeadAsns(ws), use32)
  {
    hide DataWords, Lead, Exact, LeadAsns, Frames, Stream, FrameOf, Code, Length;
    EmptyFrames(use32);
    if ws == [] {
      FramesNone(use32);
    } else {
      var s := ws[0];
      var f := FrameOf(s.kind, |s.asns|, s.asns, use32);
      FramesLead(ws[1..], use32);
      FramesFrom(ws, use32);
      FrameIs(s, use32);
      LeadFrom(ws);
      DataWordsConcat(s.asns, LeadAsns(ws[1..]), use32);
      ConsFrame(f, Frames(ws[1..], use32), use32);
    }
  }

  lemma {:induction false} FramesNone(use32: bool)
    ensures Frames([], use32) == [] && LeadAsns([]) == []
  {
  }

  lemma {:induction false} FramesFrom(ws: Path, use32: bool)
    requires ws != [] && WireSegments(ws)
    ensures Frames(ws, use32) == [FrameOf(ws[0].kind, |ws[0].asns|, ws[0].asns, use32)] + Frames(ws[1..], use32)
  {
    hide FrameOf;
  }

  lemma {:induction false} FrameIs(s: Segment, use32: bool)
    requires WireSegment(s)
    ensures var f := FrameOf(s.kind, |s.asns|, s.asns, use32);
            && f.data == DataWords(s.asns, use32) && |f.data| == Length(f.head, use32)
            && (f.head.hi == SEQUENCE <==> s.kind.AsSequence?)
  {
    hide DataWords;
  }

  lemma {:induction false} LeadFrom(p: Path)
    requires p != []
    ensures LeadAsns(p) == if p[0].kind.AsSequence? then p[0].asns + LeadAsns(p[1..]) else []
  {
  }

  lemma {:induction false} EmptyFrames(use32: bool)
    ensures Encode([], use32) == [] && Words([]) == [] && DataWords([], use32) == []
    ensures Stream([]) == [] && Lead([]) == [] && Exact([], use32)
  {
  }

  lemma {:induction false} ConsFrame(f: Frame, fs: seq<Frame>, use32: bool)
    ensures Stream([f] + fs) == [f.head] + f.data + Stream(fs)
    ensures Lead([f] + fs) == if f.head.hi == SEQUENCE then f.data + Lead(fs) else []
    ensures Exact([f] + fs, use32) <==> |f.data| == Length(f.head, use32) && Exact(fs, use32)
    ensures Loose([f] + fs, use32) <==> |f.data| >= Length(f.head, use32) && Loose(fs, use32)
  {
    var gs := [f] + fs;
    assert gs[0] == f && gs[1..] == fs;
    assert forall i :: 0 <= i < |fs| ==> gs[i + 1] == fs[i];
  }

  ghost predicate AllSequences(fs: seq<Frame>) { forall i :: 0 <= i < |fs| ==> fs[i].head.hi == SEQUENCE }

  lemma {:induction false} ConcatFrames(x: seq<Frame>, y: seq<Frame>, use32: bool)
    ensures Stream(x + y) == Stream(x) + Stream(y)
    ensures Loose(x, use32) && Loose(y, use32) ==> Loose(x + y, use32)
    ensures Lead(x + y) == if AllSequences(x) then Lead(x) + Lead(y) else Lead(x)
  {
    hide Lead, Stream, AllSequences;
    ConcatStream(x, y);
    ConcatLead(x, y);
  }

  lemma {:induction false} ConcatStream(x: seq<Frame>, y: seq<Frame>)
    ensures Stream(x + y) == Stream(x) + Stream(y)
  {
    if x == [] {
      assert x + y == y;
    } else {
      ConcatStream(x[1..], y);
      assert (x + y)[1..] == x[1..] + y;
      AsFraming.Assoc([x[0].head] + x[0].data, Stream(x[1..]), Stream(y));
    }
  }

  lemma {:induction false} ConcatLead(x: seq<Frame>, y: seq<Frame>)
    ensures Lead(x + y) == if AllSequences(x) then Lead(x) + Lead(y) else Lead(x)
  {
    hide AllSequences, Lead;
    NoSequences();
    if x == [] {
      assert x + y == y;
    } else {
      ConcatLead(x[1..], y);
      AllSequencesFrom(x);
      assert (x + y)[1..] == x[1..] + y;
      FirstFrame(x);
      FirstFrame(x + y);
      AsFraming.Assoc(x[0].data, Lead(x[1..]), Lead(y));
    }
  }

  lemma {:induction false} NoSequences()
    ensures AllSequences([]) && Lead([]) == [] && forall y: seq<Word> :: [] + y == y
  {
  }

  lemma {:induction false} AllSequencesFrom(x: seq<Frame>)
    requires x != []
    ensures AllSequences(x) <==> x[0].head.hi == SEQUENCE && AllSequences(x[1..])
  {
    assert forall i :: 0 < i < |x| ==> x[i] == x[1..][i - 1];
  }

  lemma {:induction false} ExactIsLoose(fs: seq<Frame>, use32: bool)
    requires Exact(fs, use32)
    ensures Loose(fs, use32)
  {
  }

  /** What one round writes, as frames; a group that takes others has a header for the
      last of them only. */
  ghost function RoundFrames(p: Path, k: nat, use32: bool): seq<Frame>
    requires k < |p| && p[0].asns != [] && forall i :: 0 < i <= k ==> FitsBeside(p[0], p[i])
  {
    if k == 0 then
      SplitSegmentBounded(p[0]);
      Frames(SplitSegment(p[0]), use32)
    else
      assert FitsBeside(p[0], p[k]);
      var n: Byte := |p[0].asns| + |p[k].asns|;
      [FrameOf(p[0].kind, n, Flat(p[..k + 1]), use32)]
  }

  lemma {:induction false} RoundFramesAre(p: Path, k: nat, rest: seq<Byte>, use32: bool)
    requires k < |p| && NoEmptySegment(p) && forall i :: 0 < i <= k ==> FitsBeside(p[0], p[i])
    ensures Words(Round(p, k, use32) + rest) == Stream(RoundFrames(p, k, use32)) + Words(rest)
    ensures Loose(RoundFrames(p, k, use32), use32)
  {
    hide Words, Frames, Pieces, Stream, DataWords, Flat, PutData;
    if k == 0 {
      SplitSegmentBounded(p[0]);
      PiecesAreSplit(p[0], use32);
      FramesThen(SplitSegment(p[0]), rest, use32);
      FramesLead(SplitSegment(p[0]), use32);
      ExactIsLoose(Frames(SplitSegment(p[0]), use32), use32);
    } else {
      assert FitsBeside(p[0], p[k]);
      var n: Byte := |p[0].asns| + |p[k].asns|;
      FlatAtLeast(p, k);
      FrameThen(p[0].kind, n, Flat(p[..k + 1]), rest, use32);
      OneFrame(FrameOf(p[0].kind, n, Flat(p[..k + 1]), use32), use32);
    }
  }

  lemma {:induction false} OneFrame(f: Frame, use32: bool)
    ensures Stream([f]) == [f.head] + f.data && Lead([f]) == if f.head.hi == SEQUENCE then f.data else []
    ensures Loose([f], use32) <==> |f.data| >= Length(f.head, use32)
  {
    assert [f] == [f] + [] && [f.head] + f.data + [] == [f.head] + f.data && f.data + [] == f.data;
    ConsFrame(f, [], use32);
  }

  lemma {:induction false} FlatAtLeast(p: Path, k: nat)
    requires 0 < k < |p|
    ensures |Flat(p[..k + 1])| >= |p[0].asns| + |p[k].asns|
  {
    FlatHead(p, k);
    assert p[1..][..k] == p[1..k] + [p[k]];
    FlatConcat(p[1..k], [p[k]]);
    assert Flat([p[k]]) == p[k].asns;
  }

  lemma {:induction false} LeadRun(p: Path, n: nat)
    requires n <= |p| && forall i :: 0 <= i < n ==> p[i].kind.AsSequence?
    ensures LeadAsns(p) == Flat(p[..n]) + LeadAsns(p[n..])
  {
    if n == 0 {
      assert p[n..] == p && [] + LeadAsns(p) == LeadAsns(p);
    } else {
      LeadRun(p[1..], n - 1);
      assert p[..n][1..] == p[1..][..n - 1] && p[1..][n - 1..] == p[n..];
    }
  }

  lemma {:induction false} LeadSplit(s: Segment)
    ensures SplitSegment(s) != [] && forall i :: 0 <= i < |SplitSegment(s)| ==> SplitSegment(s)[i].kind == s.kind
    ensures LeadAsns(SplitSegment(s)) == if s.kind.AsSequence? then s.asns else []
    decreases |s.asns|
  {
    if |s.asns| > AS_SEGMENT_MAX {
      var x, y := s.asns[..AS_SEGMENT_MAX], s.asns[AS_SEGMENT_MAX..];
      LeadSplit(s.(asns := y));
      assert x + y == s.asns;
      assert SplitSegment(s)[1..] == SplitSegment(s.(asns := y));
    } else {
      assert [s][1..] == [] && s.asns + [] == s.asns;
    }
  }

  lemma {:induction false} FrameKinds(ws: Path, use32: bool)
    requires WireSegments(ws)
    ensures |Frames(ws, use32)| == |ws|
    ensures forall i :: 0 <= i < |ws| ==> (Frames(ws, use32)[i].head.hi == SEQUENCE <==> ws[i].kind.AsSequence?)
  {
    hide DataWords;
    if ws != [] { FrameKinds(ws[1..], use32); }
  }

  /** The leading data of a round and what follows it. */
  lemma {:induction false} RoundLead(p: Path, fs: seq<Frame>, use32: bool)
    requires p != [] && NoEmptySegment(p)
    requires Lead(fs) == DataWords(LeadAsns(p[Taken(p[0], p[1..]) + 1..]), use32)
    ensures var k := Taken(p[0], p[1..]);
            && (forall i :: 0 < i <= k ==> FitsBeside(p[0], p[i]))
            && Lead(RoundFrames(p, k, use32) + fs) == DataWords(LeadAsns(p), use32)
  {
    var k := Taken(p[0], p[1..]);
    TakenFit(p[0], p[1..]);
    ShiftFits(p, k);
    hide DataWords, Lead, Frames, Flat, Taken;
    if k == 0 {
      SingleLead(p, fs, use32);
    } else {
      GroupLead(p, k, fs, use32);
    }
  }

  lemma {:induction false} SingleLead(p: Path, fs: seq<Frame>, use32: bool)
    requires p != [] && p[0].asns != [] && Lead(fs) == DataWords(LeadAsns(p[1..]), use32)
    ensures Lead(RoundFrames(p, 0, use32) + fs) == DataWords(LeadAsns(p), use32)
  {
    hide DataWords, Lead, Frames, SplitSegment;
    var g := SplitSegment(p[0]);
    SplitSegmentBounded(p[0]);
    LeadSplit(p[0]);
    FramesAre(g, use32);
    FrameKinds(g, use32);
    ConcatFrames(Frames(g, use32), fs, use32);
    if p[0].kind.AsSequence? {
      DataWordsConcat(p[0].asns, LeadAsns(p[1..]), use32);
    } else {
      assert Frames(g, use32)[0].head.hi != SEQUENCE;
    }
  }

  lemma {:induction false} GroupLead(p: Path, k: nat, fs: seq<Frame>, use32: bool)
    requires 0 < k < |p| && p[0].asns != [] && (forall i :: 0 < i <= k ==> FitsBeside(p[0], p[i]))
    requires Lead(fs) == DataWords(LeadAsns(p[k + 1..]), use32)
    ensures Lead(RoundFrames(p, k, use32) + fs) == DataWords(LeadAsns(p), use32)
  {
    hide DataWords, Lead, Frames, Flat, LeadAsns;
    assert FitsBeside(p[0], p[k]);
    var n: Byte := |p[0].asns| + |p[k].asns|;
    var f := FrameOf(p[0].kind, n, Flat(p[..k + 1]), use32);
    forall i | 0 <= i < k + 1 ensures p[i].kind.AsSequence? { if i > 0 { assert FitsBeside(p[0], p[i]); } }
    LeadRun(p, k + 1);
    DataWordsConcat(Flat(p[..k + 1]), LeadAsns(p[k + 1..]), use32);
    ConsFrame(f, fs, use32);
  }

  ghost function RoundsFrames(p: Path, use32: bool): seq<Frame>
    requires NoEmptySegment(p)
    decreases |p|
  {
    if p == [] then []
    else
      var k := Taken(p[0], p[1..]);
      TakenFit(p[0], p[1..]);
      ShiftFits(p, k);
      RoundFrames(p, k, use32) + RoundsFrames(p[k + 1..], use32)
  }

  lemma {:induction false} RoundsFramesAre(p: Path, use32: bool)
    requires NoEmptySegment(p)
    ensures Stream(RoundsFrames(p, use32)) == Words(Rounds(p, use32))
    ensures Loose(RoundsFrames(p, use32), use32) && Lead(RoundsFrames(p, use32)) == DataWords(LeadAsns(p), use32)
    decreases |p|
  {
    hide *;
    if p == [] {
      NoRounds(use32);
    } else {
      var k, fs := RoundsFrom(p, use32);
      RoundsFramesAre(p[k + 1..], use32);
      RoundLead(p, fs, use32);
      RoundFramesAre(p, k, Rounds(p[k + 1..], use32), use32);
      ConcatFrames(RoundFrames(p, k, use32), fs, use32);
    }
  }

  lemma {:induction false} NoRounds(use32: bool)
    ensures Rounds([], use32) == [] && RoundsFrames([], use32) == [] && Words([]) == [] && Stream([]) == []
    ensures Loose([], use32) && Lead([]) == DataWords(LeadAsns([]), use32)
  {
  }

  lemma {:induction false} RoundsFrom(p: Path, use32: bool) returns (k: nat, fs: seq<Frame>)
    requires p != [] && NoEmptySegment(p)
    ensures k == Taken(p[0], p[1..]) && k < |p| && NoEmptySegment(p[k + 1..]) && p[0].asns != []
    ensures forall i :: 0 < i <= k ==> FitsBeside(p[0], p[i])
    ensures fs == RoundsFrames(p[k + 1..], use32) && RoundsFrames(p, use32) == RoundFrames(p, k, use32) + fs
    ensures Rounds(p, use32) == Round(p, k, use32) + Rounds(p[k + 1..], use32)
  {
    hide Round, RoundFrames, FitsBeside;
    k := Taken(p[0], p[1..]);
    TakenFit(p[0], p[1..]);
    ShiftFits(p, k);
    fs := RoundsFrames(p[k + 1..], use32);
  }

  /** The AS numbers at the start of a meaning. */
  ghost function LeadHops(h: seq<Hop>): seq<Asn> {
    if h == [] || !h[0].As? then [] else [h[0].asn] + LeadHops(h[1..])
  }

  lemma {:induction false} LeadHopsAre(asns: seq<Asn>, h: seq<Hop>)
    ensures LeadHops(AsHops(asns) + h) == asns + LeadHops(h)
  {
    var g := AsHops(asns) + h;
    if asns == [] {
      assert g == h;
    } else {
      assert g[0] == As(asns[0]) && g[1..] == AsHops(asns[1..]) + h;
      LeadHopsAre(asns[1..], h);
      assert [asns[0]] + (asns[1..] + LeadHops(h)) == asns + LeadHops(h);
    }
  }

  lemma {:induction false} LeadOfMeaning(p: Path)
    ensures LeadHops(Denote(p)) == LeadAsns(p)
  {
    if p != [] {
      LeadOfMeaning(p[1..]);
      if p[0].kind.AsSequence? { LeadHopsAre(p[0].asns, Denote(p[1..])); }
    }
  }

  lemma {:induction false} LeadSeen(p: Path, use32: bool)
    ensures LeadAsns(SeenPath(p, use32)) == SeenAll(LeadAsns(p), use32)
  {
    if p != [] {
      LeadSeen(p[1..], use32);
      SeenPathTail(p, use32);
      SeenAllConcat(p[0].asns, LeadAsns(p[1..]), use32);
    }
  }

  lemma {:induction false} SeenAllConcat(x: seq<Asn>, y: seq<Asn>, use32: bool)
    ensures SeenAll(x + y, use32) == SeenAll(x, use32) + SeenAll(y, use32)
  {
  }

  lemma {:induction false} SeenWords(asns: seq<Asn>, use32: bool)
    ensures DataWords(SeenAll(asns, use32), use32) == DataWords(asns, use32)
  {
    if asns != [] {
      SeenWords(asns[1..], use32);
      assert SeenAll(asns, use32)[1..] == SeenAll(asns[1..], use32);
    }
  }

  /** Lists that mean the same to a reader have the same leading data. */
  lemma {:induction false} SameLead(p: Path, q: Path, use32: bool)
    requires Denote(SeenPath(p, use32)) == Denote(SeenPath(q, use32))
    ensures DataWords(LeadAsns(p), use32) == DataWords(LeadAsns(q), use32)
  {
    hide Denote, SeenPath, LeadAsns, DataWords;
    LeadOfMeaning(SeenPath(p, use32));
    LeadOfMeaning(SeenPath(q, use32));
    LeadSeen(p, use32);
    LeadSeen(q, use32);
    SeenWords(LeadAsns(p), use32);
    SeenWords(LeadAsns(q), use32);
  }

  /** A round that takes two or more is never read back with the right meaning. */
  lemma {:induction false} TwiceMisread(p: Path, ws: Path, use32: bool)
    requires p != [] && NoEmptySegment(p) && WireSegments(ws) && Encode(ws, use32) == Rounds(p, use32)
    requires Denote(SeenPath(ws, use32)) == Denote(SeenPath(p, use32))
    ensures Taken(p[0], p[1..]) < 2
  {
    hide *;
    SameLead(ws, p, use32);
    FramesAre(ws, use32);
    RoundsFramesAre(p, use32);
    var k, fs := RoundsFrom(p, use32);
    if k >= 2 {
      TwiceShort(p, k, fs, use32);
      ShortHeader(Frames(ws, use32), RoundsFrames(p, use32), use32);
    }
  }

  lemma {:induction false} TwiceShort(p: Path, k: nat, fs: seq<Frame>, use32: bool)
    requires 2 <= k < |p| && NoEmptySegment(p) && forall i :: 0 < i <= k ==> FitsBeside(p[0], p[i])
    ensures var gs := RoundFrames(p, k, use32) + fs;
            gs != [] && gs[0].head.hi == SEQUENCE && |gs[0].data| > Length(gs[0].head, use32)
  {
    hide DataWords;
    assert FitsBeside(p[0], p[k]);
    var n: Byte := |p[0].asns| + |p[k].asns|;
    FlatLonger(p, k);
  }

  /** Two encodings that start alike are of segments that start alike, as far as the
      reader can tell. */
  lemma {:induction false} StartAlike(g: Path, ws: Path, rest: seq<Byte>, use32: bool)
    requires WireSegments(g) && WireSegments(ws) && Encode(ws, use32) == Encode(g, use32) + rest
    ensures |g| <= |ws| && SeenPath(ws[..|g|], use32) == SeenPath(g, use32)
    ensures WireSegments(ws[|g|..]) && Encode(ws[|g|..], use32) == rest
  {
    if g == [] {
      assert ws[0..] == ws && [] + rest == rest && SeenPath(ws[..0], use32) == SeenPath(g, use32);
    } else {
      hide *;
      var xs := OneAlike(g, ws, rest, use32);
      StartAlike(g[1..], xs, rest, use32);
      JoinSeen(g, ws, use32);
      assert ws[1..][|g| - 1..] == ws[|g|..];
    }
  }

  lemma {:induction false} JoinSeen(g: Path, ws: Path, use32: bool)
    requires 0 < |g| <= |ws| && SeenPath([ws[0]], use32) == SeenPath([g[0]], use32)
    requires SeenPath(ws[1..][..|g| - 1], use32) == SeenPath(g[1..], use32)
    ensures SeenPath(ws[..|g|], use32) == SeenPath(g, use32)
  {
    hide SeenPath;
    assert ws[..|g|] == [ws[0]] + ws[1..][..|g| - 1] && g == [g[0]] + g[1..];
    SeenConcat([ws[0]], ws[1..][..|g| - 1], use32);
    SeenConcat([g[0]], g[1..], use32);
  }

  lemma {:induction false} OneAlike(g: Path, ws: Path, rest: seq<Byte>, use32: bool) returns (xs: Path)
    requires g != [] && WireSegments(g) && WireSegments(ws) && Encode(ws, use32) == Encode(g, use32) + rest
    ensures ws != [] && xs == ws[1..] && WireSegments(xs) && WireSegments(g[1..])
    ensures SeenPath([ws[0]], use32) == SeenPath([g[0]], use32)
    ensures Encode(xs, use32) == Encode(g[1..], use32) + rest
  {
    var x := Chunk(g[0].kind, g[0].asns, use32);
    AsWire.Assoc(x, Encode(g[1..], use32), rest);
    assert ws != [];
    xs := ws[1..];
    var y := Chunk(ws[0].kind, ws[0].asns, use32);
    hide Encode, PutData;
    SameChunk(x, Encode(g[1..], use32) + rest, y, Encode(xs, use32), g[0], ws[0], use32);
  }

  lemma {:induction false} SameChunk(x: seq<Byte>, xs: seq<Byte>, y: seq<Byte>, ys: seq<Byte>, s: Segment, t: Segment, use32: bool)
    requires WireSegment(s) && WireSegment(t) && x + xs == y + ys
    requires x == Chunk(s.kind, s.asns, use32) && y == Chunk(t.kind, t.asns, use32)
    ensures xs == ys && SeenPath([t], use32) == SeenPath([s], use32)
  {
    hide PutData;
    assert (x + xs)[0] == Code(s.kind) && (y + ys)[0] == Code(t.kind);
    assert (x + xs)[1] == |s.asns| && (y + ys)[1] == |t.asns|;
    assert x == (x + xs)[..|x|] == (y + ys)[..|y|] == y && xs == (x + xs)[|x|..] == ys;
    assert PutData(s.asns, use32) == x[2..] == y[2..] == PutData(t.asns, use32);
    GetPutData(s.asns, use32);
    GetPutData(t.asns, use32);
    assert s.kind == t.kind;
  }

  /** Whatever the rest of the list, only a list that does not pack twice is read back
      with its meaning. */
  lemma {:induction false} OnlyUnpacked(p: Path, ws: Path, use32: bool)
    requires NoEmptySegment(p) && NonSequencesFit(p) && WireSegments(ws) && Encode(ws, use32) == Rounds(p, use32)
    requires Denote(SeenPath(ws, use32)) == Denote(SeenPath(p, use32))
    ensures !PacksTwice(p)
    decreases |p|
  {
    if p != [] {
      hide *;
      TwiceMisread(p, ws, use32);
      var k, fs := RoundsFrom(p, use32);
      RoundExact(p, use32);
      TailKeepsShape(p, k + 1);
      var g, q := Group(p, k), p[k + 1..];
      StartAlike(g, ws, Rounds(q, use32), use32);
      SameRest(p, k, ws, use32);
      OnlyUnpacked(q, ws[|g|..], use32);
      PacksTwiceFrom(p, k);
    }
  }

  lemma {:induction false} PacksTwiceFrom(p: Path, k: nat)
    requires p != [] && k == Taken(p[0], p[1..]) < 2 && !PacksTwice(p[k + 1..])
    ensures !PacksTwice(p)
  {
  }

  /** Behind equal groups, what is left means the same. */
  lemma {:induction false} SameRest(p: Path, k: nat, ws: Path, use32: bool)
    requires p != [] && k == Taken(p[0], p[1..]) && NoEmptySegment(p) && NonSequencesFit(p) && |Group(p, k)| <= |ws|
    requires SeenPath(ws[..|Group(p, k)|], use32) == SeenPath(Group(p, k), use32)
    requires Denote(SeenPath(ws, use32)) == Denote(SeenPath(p, use32))
    ensures Denote(SeenPath(ws[|Group(p, k)|..], use32)) == Denote(SeenPath(p[k + 1..], use32))
  {
    hide *;
    var n := |Group(p, k)|;
    GroupDenote(p, use32);
    assert ws == ws[..n] + ws[n..] && p == p[..k + 1] + p[k + 1..];
    SeenParts(ws[..n], ws[n..], use32);
    SeenParts(p[..k + 1], p[k + 1..], use32);
    Cancel(Denote(SeenPath(Group(p, k), use32)), Denote(SeenPath(ws[n..], use32)), Denote(SeenPath(p[k + 1..], use32)));
  }

  lemma {:induction false} SeenParts(p: Path, q: Path, use32: bool)
    ensures Denote(SeenPath(p + q, use32)) == Denote(SeenPath(p, use32)) + Denote(SeenPath(q, use32))
  {
    hide SeenPath, Denote;
    SeenConcat(p, q, use32);
    DenoteConcat(SeenPath(p, use32), SeenPath(q, use32));
  }

  lemma {:induction false} Cancel(x: seq<Hop>, y: seq<Hop>, z: seq<Hop>)
    requires x + y == x + z
    ensures y == z
  {
    assert y == (x + y)[|x|..] == (x + z)[|x|..] == z;
  }

  /** A list whose sets are short is read back as its normal form exactly when it does
      not pack twice. */
  lemma {:induction false} UnnormalisedRoundTrip(p: Path, use32: bool, room: nat)
    requires NoEmptySegment(p) && NonSequencesFit(p) && WireSize(p, use32) <= room
    ensures var b := PutPath(p, use32, room);
            Parse(b, |b|, use32) == Parsed(NormalForm(SeenPath(p, use32))) <==> !PacksTwice(p)
  {
    hide PutPath, Parse, NormalForm, SeenPath, PacksTwice, NonSequencesFit, NoEmptySegment;
    if !PacksTwice(p) {
      UnpackedIsRead(p, use32, room);
    } else if Parse(PutPath(p, use32, room), |PutPath(p, use32, room)|, use32) == Parsed(NormalForm(SeenPath(p, use32))) {
      var ws := ReadBack(p, use32, room);
      OnlyUnpacked(p, ws, use32);
    }
  }

  lemma {:induction false} ReadBack(p: Path, use32: bool, room: nat) returns (ws: Path)
    requires NoEmptySegment(p) && WireSize(p, use32) <= room
    requires var b := PutPath(p, use32, room);
             Parse(b, |b|, use32) == Parsed(NormalForm(SeenPath(p, use32)))
    ensures WireSegments(ws) && Encode(ws, use32) == Rounds(p, use32)
    ensures Denote(SeenPath(ws, use32)) == Denote(SeenPath(p, use32))
  {
    hide Rounds, NormalForm, SeenPath, Denote, Encode, ParseSegments;
    var b := Rounds(p, use32);
    PutIsRounds(p, use32, room);
    assert b[..|b|] == b;
    ParseNothing(use32);
    ws := ParseSegments(b, use32).path;
    EncodeParse(b, use32);
    ParseEncode(ws, use32);
    NormalFormDenote(ws);
    NormalFormDenote(SeenPath(p, use32));
    NothingNormal();
  }

  lemma {:induction false} PutIsRounds(p: Path, use32: bool, room: nat)
    requires NoEmptySegment(p) && WireSize(p, use32) <= room
    ensures PutPath(p, use32, room) == Rounds(p, use32)
  {
    hide Rounds, PutSegments;
    PutSegmentsRounds([], p, use32, room);
    assert [] + Rounds(p, use32) == Rounds(p, use32);
    if p == [] { NothingPut(use32); }
  }

  lemma {:induction false} UnpackedIsRead(p: Path, use32: bool, room: nat)
    requires NoEmptySegment(p) && NonSequencesFit(p) && WireSize(p, use32) <= room && !PacksTwice(p)
    ensures var b := PutPath(p, use32, room);
            Parse(b, |b|, use32) == Parsed(NormalForm(SeenPath(p, use32)))
  {
    PackingExact(p, use32, room);
    var ws := Grouped(p);
    ParseEncode(ws, use32);
    EncodeEven(ws, use32);
    GroupedDenote(p, use32);
    SeenPathShape(p, use32);
    SeenPathShape(ws, use32);
    NoEmptyRunsCarry(SeenPath(ws, use32));
    NoEmptyRunsCarry(SeenPath(p, use32));
    CanonicalForm(SeenPath(ws, use32), SeenPath(p, use32));
    var b := Encode(ws, use32);
    assert b[..|b|] == b;
    hide Grouped, PacksTwice, NormalForm, Denote, SeenPath;
  }

  /** Three one-member sequences: all the data is written, but the length byte
      covers only two of them. */
  lemma {:induction false} PackingTwice(x: Asn, y: Asn, z: Asn)
    ensures var p := [Segment(AsSequence, [x]), Segment(AsSequence, [y]), Segment(AsSequence, [z])];
            && PacksTwice(p)
            && PutPath(p, true, 100) == [2, 2] + PutData([x], true) + PutData([y], true) + PutData([z], true)
  {
    var s1, s2, s3 := Segment(AsSequence, [x]), Segment(AsSequence, [y]), Segment(AsSequence, [z]);
    var p := [s1, s2, s3];
    hide PutData;
    var c := Chunk(AsSequence, [x], true);
    var d := (c + PutData([y], true))[1 := 2];
    var e := (d + PutData([z], true))[1 := 2];
    assert p[1..] == [s2, s3] && [s2, s3][1..] == [s3] && [s3][1..] == [];
    assert Taken(s1, [s3]) == 1 && Taken(s1, [s2, s3]) == 2;
    hide Taken, PacksTwice;
    assert [] + c == c;
    assert Pack(c, 1, 1, s1, [s2, s3], true) == Pack(d, 1, 1, s1, [s3], true) == Pack(e, 1, 1, s1, [], true) == (e, []);
    assert PutOne([], p, true) == (e, []);
    hide Pack, PutOne;
    assert PutSegments([], p, true, 100) == PutSegments(e, [], true, 100) == e;
  }
}
