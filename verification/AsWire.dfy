/**
 AS_PATH on the wire (aspath_put, assegments_parse): splitting at 255 AS
 numbers, 2-byte and 4-byte encodings, and the round trip.

 A stream is a sequence of bytes; `room` is what STREAM_WRITEABLE reports.
 */
module AsWire {
  import opened Common
  import opened AsPath

  const AS_SEGMENT_MAX := 255
  const AS_MAX16 := 65535
  const AS_TRANS := 23456

  datatype ParseResult = Malformed | Parsed(path: Path)

  // ------------------------------------------------------------------
  // AS numbers
  // ------------------------------------------------------------------

  function Width(use32: bool): nat { if use32 then 4 else 2 }

  function DataSize(n: nat, use32: bool): nat { if use32 then 4 * n else 2 * n }

  /** What a peer that reads this encoding sees in place of an AS number. */
  function Seen(a: Asn, use32: bool): Asn {
    if use32 || a <= AS_MAX16 then a else AS_TRANS
  }

  function PutAsn(a: Asn, use32: bool): (b: seq<Byte>)
    ensures |b| == Width(use32)
  {
    if use32 then PutWord(a / 0x1_0000) + PutWord(a % 0x1_0000) else PutWord(Seen(a, false))
  }

  function GetAsn(b: seq<Byte>, use32: bool): Asn
    requires |b| == Width(use32)
  {
    if use32 then 0x1_0000 * (GetWord(b[..2]) as int) + (GetWord(b[2..]) as int) else GetWord(b)
  }

  lemma {:induction false} GetPutAsn(a: Asn, use32: bool)
    ensures GetAsn(PutAsn(a, use32), use32) == Seen(a, use32)
  {
    if use32 {
      var b := PutAsn(a, true);
      assert b[..2] == PutWord(a / 0x1_0000) && b[2..] == PutWord(a % 0x1_0000);
      WordRoundTrip(a / 0x1_0000, b[..2]);
      WordRoundTrip(a % 0x1_0000, b[2..]);
    } else {
      WordRoundTrip(Seen(a, false), PutAsn(a, false));
    }
  }

  lemma {:induction false} WordsOf(x: U16, y: U16)
    ensures (0x1_0000 * (x as int) + (y as int)) / 0x1_0000 == x
    ensures (0x1_0000 * (x as int) + (y as int)) % 0x1_0000 == y
  {
  }

  lemma {:induction false} PutGetAsn(b: seq<Byte>, use32: bool)
    requires |b| == Width(use32)
    ensures PutAsn(GetAsn(b, use32), use32) == b
  {
    if use32 {
      WordRoundTrip(0, b[..2]);
      WordRoundTrip(0, b[2..]);
      WordsOf(GetWord(b[..2]), GetWord(b[2..]));
      hide PutWord, GetWord;
      assert b == b[..2] + b[2..];
    } else {
      WordRoundTrip(0, b);
    }
  }

  function SeenAll(asns: seq<Asn>, use32: bool): (r: seq<Asn>)
    ensures |r| == |asns|
  {
    seq(|asns|, i requires 0 <= i < |asns| => Seen(asns[i], use32))
  }

  /** A path as a peer reading this encoding sees it: AS_TRANS for the rest. */
  function SeenPath(p: Path, use32: bool): (r: Path)
    ensures |r| == |p|
  {
    seq(|p|, i requires 0 <= i < |p| => p[i].(asns := SeenAll(p[i].asns, use32)))
  }

  function PutData(asns: seq<Asn>, use32: bool): (b: seq<Byte>)
    ensures |b| == DataSize(|asns|, use32)
  {
    if asns == [] then [] else PutAsn(asns[0], use32) + PutData(asns[1..], use32)
  }

  function GetData(b: seq<Byte>, n: nat, use32: bool): (asns: seq<Asn>)
    requires |b| == DataSize(n, use32)
    ensures |asns| == n
    decreases n
  {
    if n == 0 then []
    else [GetAsn(b[..Width(use32)], use32)] + GetData(b[Width(use32)..], n - 1, use32)
  }

  lemma {:induction false} GetPutData(asns: seq<Asn>, use32: bool)
    ensures GetData(PutData(asns, use32), |asns|, use32) == SeenAll(asns, use32)
  {
    if asns != [] {
      var w := Width(use32);
      var b := PutData(asns, use32);
      assert b[..w] == PutAsn(asns[0], use32) && b[w..] == PutData(asns[1..], use32);
      GetPutAsn(asns[0], use32);
      GetPutData(asns[1..], use32);
    }
  }

  lemma {:induction false} PutGetData(b: seq<Byte>, n: nat, use32: bool)
    requires |b| == DataSize(n, use32)
    ensures PutData(GetData(b, n, use32), use32) == b
  {
    if n > 0 {
      var w := Width(use32);
      PutGetAsn(b[..w], use32);
      PutGetData(b[w..], n - 1, use32);
      assert GetData(b, n, use32)[1..] == GetData(b[w..], n - 1, use32);
      assert b == b[..w] + b[w..];
    }
  }

  lemma {:induction false} PutDataConcat(x: seq<Asn>, y: seq<Asn>, use32: bool)
    ensures PutData(x + y, use32) == PutData(x, use32) + PutData(y, use32)
  {
    if x == [] {
      assert x + y == y;
    } else {
      assert (x + y)[1..] == x[1..] + y;
      PutDataConcat(x[1..], y, use32);
    }
  }

  // ------------------------------------------------------------------
  // Segments on the wire
  // ------------------------------------------------------------------

  function Code(k: SegKind): Byte {
    match k case AsSet => 1 case AsSequence => 2 case ConfedSequence => 3 case ConfedSet => 4
  }

  predicate ValidCode(c: Byte) { 1 <= c <= 4 }

  function Kind(c: Byte): (k: SegKind)
    requires ValidCode(c)
    ensures Code(k) == c
  {
    if c == 1 then AsSet else if c == 2 then AsSequence else if c == 3 then ConfedSequence else ConfedSet
  }

  function SegmentSize(n: nat, use32: bool): nat { 2 + DataSize(n, use32) }

  predicate WireSegment(s: Segment) { 1 <= |s.asns| <= AS_SEGMENT_MAX }

  ghost predicate WireSegments(ws: Path) { forall i :: 0 <= i < |ws| ==> WireSegment(ws[i]) }

  function Chunk(kind: SegKind, asns: seq<Asn>, use32: bool): (b: seq<Byte>)
    requires |asns| <= AS_SEGMENT_MAX
    ensures |b| == SegmentSize(|asns|, use32)
  {
    [Code(kind), |asns|] + PutData(asns, use32)
  }

  ghost function Encode(ws: Path, use32: bool): seq<Byte>
    requires WireSegments(ws)
  {
    if ws == [] then [] else Chunk(ws[0].kind, ws[0].asns, use32) + Encode(ws[1..], use32)
  }

  /** Overlength segments are cut into pieces of 255. */
  ghost function SplitSegment(s: Segment): Path
    decreases |s.asns|
  {
    if |s.asns| <= AS_SEGMENT_MAX then [s]
    else [s.(asns := s.asns[..AS_SEGMENT_MAX])] + SplitSegment(s.(asns := s.asns[AS_SEGMENT_MAX..]))
  }

  ghost function Split(p: Path): Path {
    if p == [] then [] else SplitSegment(p[0]) + Split(p[1..])
  }

  lemma {:induction false} SplitSegmentBounded(s: Segment)
    requires s.asns != []
    ensures WireSegments(SplitSegment(s))
    decreases |s.asns|
  {
    if |s.asns| > AS_SEGMENT_MAX { SplitSegmentBounded(s.(asns := s.asns[AS_SEGMENT_MAX..])); }
  }

  /** Every segment that reaches the wire holds 1 to 255 AS numbers. */
  lemma {:induction false} SplitBounded(p: Path)
    requires NoEmptySegment(p)
    ensures WireSegments(Split(p))
  {
    if p != [] {
      SplitSegmentBounded(p[0]);
      SplitBounded(p[1..]);
    }
  }

  lemma {:induction false} EncodeConcat(x: Path, y: Path, use32: bool)
    requires WireSegments(x) && WireSegments(y)
    ensures WireSegments(x + y)
    ensures Encode(x + y, use32) == Encode(x, use32) + Encode(y, use32)
  {
    hide Chunk;
    if x == [] {
      assert x + y == y;
    } else {
      var z := x[1..] + y;
      EncodeConcat(x[1..], y, use32);
      assert x + y == [x[0]] + z;
      assert (x + y)[1..] == z;
    }
  }

  // ------------------------------------------------------------------
  // aspath_put
  // ------------------------------------------------------------------

  predicate FitsBeside(s: Segment, next: Segment) {
    Packable(s, next) && |s.asns| + |next.asns| <= AS_SEGMENT_MAX
  }

  /** All the pieces of one segment, the final one included. */
  function Pieces(kind: SegKind, asns: seq<Asn>, use32: bool): (b: seq<Byte>)
    ensures |b| >= SegmentSize(|asns|, use32)
    decreases |asns|
  {
    if |asns| <= AS_SEGMENT_MAX then Chunk(kind, asns, use32)
    else Chunk(kind, asns[..AS_SEGMENT_MAX], use32) + Pieces(kind, asns[AS_SEGMENT_MAX..], use32)
  }

  /** The packing loop: it appends the data of the next segment and patches the
      length byte at `lenp` with the final piece plus that one segment. */
  function Pack(s: seq<Byte>, lenp: nat, piece: nat, seg: Segment, next: Path, use32: bool): (r: (seq<Byte>, Path))
    requires lenp < |s| && piece <= |seg.asns|
    ensures |r.1| <= |next| && |r.0| >= |s|
    decreases |next|
  {
    if next == [] || !FitsBeside(seg, next[0]) then (s, next)
    else Pack((s + PutData(next[0].asns, use32))[lenp := piece + |next[0].asns|], lenp, piece, seg, next[1..], use32)
  }

  /** One round of the outer loop: the new stream and the segments left. */
  function PutOne(s: seq<Byte>, p: Path, use32: bool): (r: (seq<Byte>, Path))
    requires p != []
    ensures |r.1| < |p|
  {
    var piece := FinalPiece(|p[0].asns|);
    var t := s + Pieces(p[0].kind, p[0].asns, use32);
    Pack(t, |t| - DataSize(piece, use32) - 1, piece, p[0], p[1..], use32)
  }

  /** The number of AS numbers in the final piece of a segment. */
  function FinalPiece(n: nat): (m: nat)
    ensures m <= n && m <= AS_SEGMENT_MAX
  {
    if n <= AS_SEGMENT_MAX then n else FinalPiece(n - AS_SEGMENT_MAX)
  }

  function PutSegments(s: seq<Byte>, p: Path, use32: bool, room: nat): seq<Byte>
    decreases |p|
  {
    if p == [] || |s| + SegmentSize(|p[0].asns|, use32) > room then s
    else
      var (t, rest) := PutOne(s, p, use32);
      PutSegments(t, rest, use32, room)
  }

  function PutPath(p: Path, use32: bool, room: nat): seq<Byte> {
    if p == [] || p[0].asns == [] then [] else PutSegments([], p, use32, room)
  }

  /** aspath_put: the bytes written and the count it reports for them. */
  method AspathPut(p: Path, use32: bool, room: nat) returns (s: seq<Byte>, bytes: nat)
    ensures s == PutPath(p, use32, room)
    ensures bytes == |s|
  {
    hide PutOne;
    s, bytes := [], 0;
    if p == [] || p[0].asns == [] { return; }
    var rest := p;
    while rest != [] && SegmentSize(|rest[0].asns|, use32) <= room - |s|
      invariant bytes == |s|
      invariant PutSegments(s, rest, use32, room) == PutSegments([], p, use32, room)
      decreases |rest|
    {
      var more: nat;
      s, rest, more := PutSegment(s, rest, use32);
      bytes := bytes + more;
    }
  }

  method PutSegment(s0: seq<Byte>, p: Path, use32: bool) returns (s: seq<Byte>, next: Path, bytes: nat)
    requires p != []
    ensures (s, next) == PutOne(s0, p, use32)
    ensures bytes == |s| - |s0|
  {
    hide Chunk, PutData;
    var seg := p[0];
    var written := 0;
    s, bytes := s0, 0;
    while |seg.asns| - written > AS_SEGMENT_MAX
      invariant 0 <= written <= |seg.asns|
      invariant |s0| + bytes == |s|
      invariant FinalPiece(|seg.asns|) == FinalPiece(|seg.asns| - written)
      invariant s0 + Pieces(seg.kind, seg.asns, use32) == s + Pieces(seg.kind, seg.asns[written..], use32)
      decreases |seg.asns| - written
    {
      ghost var left := seg.asns[written..];
      var piece := seg.asns[written..written + AS_SEGMENT_MAX];
      assert left[..AS_SEGMENT_MAX] == piece && left[AS_SEGMENT_MAX..] == seg.asns[written + AS_SEGMENT_MAX..];
      Assoc(s, Chunk(seg.kind, piece, use32), Pieces(seg.kind, left[AS_SEGMENT_MAX..], use32));
      s := s + Chunk(seg.kind, piece, use32);
      written := written + AS_SEGMENT_MAX;
      bytes := bytes + SegmentSize(AS_SEGMENT_MAX, use32);
    }
    var lenp := |s| + 1;
    s := s + Chunk(seg.kind, seg.asns[written..], use32);
    var packed: nat;
    s, next, packed := PackFollowing(s, lenp, |seg.asns| - written, seg, p[1..], use32);
    bytes := bytes + SegmentSize(|seg.asns| - written + packed, use32);
  }

  method PackFollowing(s0: seq<Byte>, lenp: nat, piece: nat, seg: Segment, following: Path, use32: bool)
    returns (s: seq<Byte>, next: Path, packed: nat)
    requires lenp < |s0| && piece <= |seg.asns|
    ensures (s, next) == Pack(s0, lenp, piece, seg, following, use32)
    ensures |s| == |s0| + DataSize(packed, use32)
  {
    hide PutData;
    s, next, packed := s0, following, 0;
    while next != [] && FitsBeside(seg, next[0])
      invariant |s| == |s0| + DataSize(packed, use32)
      invariant Pack(s, lenp, piece, seg, next, use32) == Pack(s0, lenp, piece, seg, following, use32)
      decreases |next|
    {
      s := s + PutData(next[0].asns, use32);
      s := s[lenp := piece + |next[0].asns|];
      packed := packed + |next[0].asns|;
      next := next[1..];
    }
  }

  lemma {:induction false} Assoc(x: seq<Byte>, y: seq<Byte>, z: seq<Byte>)
    ensures x + y + z == x + (y + z)
  {
  }

  // ------------------------------------------------------------------
  // assegments_parse
  // ------------------------------------------------------------------

  /** The segments as they stand on the wire, before normalisation. */
  ghost function ParseSegments(b: seq<Byte>, use32: bool): (r: ParseResult)
    ensures r.Parsed? ==> NoEmptySegment(r.path)
    decreases |b|
  {
    if b == [] then Parsed([])
    else if |b| <= 2 || SegmentSize(b[1], use32) > |b| || b[1] == 0 || !ValidCode(b[0]) then Malformed
    else
      var size := SegmentSize(b[1], use32);
      var rest := ParseSegments(b[size..], use32);
      if rest.Malformed? then Malformed
      else Parsed([Segment(Kind(b[0]), GetData(b[2..size], b[1], use32))] + rest.path)
  }

  ghost function Parse(stream: seq<Byte>, length: nat, use32: bool): (r: ParseResult)
    ensures r.Parsed? ==> NoEmptySegment(r.path)
  {
    if length == 0 then Parsed([])
    else if |stream| < length || |stream| < 2 || length % 2 != 0 then Malformed
    else
      var raw := ParseSegments(stream[..length], use32);
      if raw.Malformed? then Malformed
      else
        NormalFormNonEmpty(raw.path);
        Parsed(NormalForm(raw.path))
  }

  /** The stream_getl / stream_getw loop over the AS numbers of one segment. */
  method ReadAsns(data: seq<Byte>, n: nat, use32: bool) returns (asns: seq<Asn>)
    requires |data| == DataSize(n, use32)
    ensures asns == GetData(data, n, use32)
  {
    hide GetData, GetAsn;
    asns := [];
    var unread, left := data, n;
    while left > 0
      invariant |unread| == DataSize(left, use32)
      invariant GetData(data, n, use32) == asns + GetData(unread, left, use32)
    {
      GetDataStep(unread, left, use32);
      asns := asns + [GetAsn(unread[..Width(use32)], use32)];
      unread, left := unread[Width(use32)..], left - 1;
    }
  }

  lemma {:induction false} GetDataStep(b: seq<Byte>, n: nat, use32: bool)
    requires n > 0 && |b| == DataSize(n, use32)
    ensures GetData(b, n, use32) == [GetAsn(b[..Width(use32)], use32)] + GetData(b[Width(use32)..], n - 1, use32)
  {
  }

  /** assegments_parse, which refuses what it cannot read and normalises the rest. */
  method AssegmentsParse(stream: seq<Byte>, length: nat, use32: bool) returns (r: ParseResult)
    ensures r == Parse(stream, length, use32)
  {
    hide GetData, NormalForm;
    if length == 0 { return Parsed([]); }
    if |stream| < length || |stream| < 2 || length % 2 != 0 { return Malformed; }
    var head: Path := [];
    var unread := stream[..length];
    ghost var all := ParseSegments(unread, use32);
    assert all == Prefixed([], all);
    while unread != []
      invariant all == Prefixed(head, ParseSegments(unread, use32))
      decreases |unread|
    {
      ghost var before := unread;
      if |unread| <= 2 { return Malformed; }
      var code, len := unread[0], unread[1];
      var size := SegmentSize(len, use32);
      if size > |unread| || len == 0 { return Malformed; }
      if !ValidCode(code) { return Malformed; }
      var asns := ReadAsns(unread[2..size], len, use32);
      unread := unread[size..];
      ghost var seg := Segment(Kind(code), asns);
      assert ParseSegments(before, use32) == Prefixed([seg], ParseSegments(unread, use32));
      PrefixedMore(head, seg, ParseSegments(unread, use32));
      head := head + [Segment(Kind(code), asns)];
    }
    assert all == Parsed(head);
    var path := Normalise(head);
    return Parsed(path);
  }

  ghost function Prefixed(head: Path, r: ParseResult): ParseResult {
    if r.Malformed? then Malformed else Parsed(head + r.path)
  }

  lemma {:induction false} PrefixedMore(head: Path, s: Segment, r: ParseResult)
    ensures Prefixed(head, Prefixed([s], r)) == Prefixed(head + [s], r)
  {
    if r.Parsed? { assert head + ([s] + r.path) == head + [s] + r.path; }
  }

  // ------------------------------------------------------------------
  // Round trips
  // ------------------------------------------------------------------

  lemma {:induction false} SeenPathTail(p: Path, use32: bool)
    requires p != []
    ensures SeenPath(p, use32)[1..] == SeenPath(p[1..], use32)
  {
  }

  /** Reading back what was encoded gives the segments as the reader sees them. */
  lemma {:induction false} ParseEncode(ws: Path, use32: bool)
    requires WireSegments(ws)
    ensures ParseSegments(Encode(ws, use32), use32) == Parsed(SeenPath(ws, use32))
  {
    if ws == [] {
      assert SeenPath(ws, use32) == [];
    } else {
      var s := ws[0];
      ParseEncode(ws[1..], use32);
      ParseChunk(s, Encode(ws[1..], use32), use32);
      SeenPathTail(ws, use32);
      hide Chunk, ParseSegments;
      assert SeenPath(ws, use32) == [s.(asns := SeenAll(s.asns, use32))] + SeenPath(ws[1..], use32);
    }
  }

  lemma {:induction false} ParseChunk(s: Segment, rest: seq<Byte>, use32: bool)
    requires WireSegment(s) && ParseSegments(rest, use32).Parsed?
    ensures ParseSegments(Chunk(s.kind, s.asns, use32) + rest, use32)
         == Parsed([s.(asns := SeenAll(s.asns, use32))] + ParseSegments(rest, use32).path)
  {
    var b := Chunk(s.kind, s.asns, use32) + rest;
    var size := SegmentSize(|s.asns|, use32);
    assert b[2..size] == PutData(s.asns, use32) && b[size..] == rest;
    GetPutData(s.asns, use32);
    hide PutData, GetData;
    assert Kind(b[0]) == s.kind;
  }

  /** The other direction: whatever is accepted is the encoding of what was read. */
  lemma {:induction false} EncodeParse(b: seq<Byte>, use32: bool)
    requires ParseSegments(b, use32).Parsed?
    ensures WireSegments(ParseSegments(b, use32).path)
    ensures Encode(ParseSegments(b, use32).path, use32) == b
    decreases |b|
  {
    hide ParseSegments;
    if b == [] {
      ParseNothing(use32);
    } else {
      var s, rest := ParseStep(b, use32);
      EncodeParse(rest, use32);
      EncodeCons(s, ParseSegments(rest, use32).path, use32);
    }
  }

  lemma {:induction false} ParseNothing(use32: bool)
    ensures ParseSegments([], use32) == Parsed([])
  {
  }

  lemma {:induction false} ParseStep(b: seq<Byte>, use32: bool) returns (s: Segment, rest: seq<Byte>)
    requires b != [] && ParseSegments(b, use32).Parsed?
    ensures WireSegment(s) && |rest| < |b| && ParseSegments(rest, use32).Parsed?
    ensures ParseSegments(b, use32).path == [s] + ParseSegments(rest, use32).path
    ensures b == [Code(s.kind), |s.asns|] + PutData(s.asns, use32) + rest
  {
    var size := SegmentSize(b[1], use32);
    var data := b[2..size];
    rest := b[size..];
    s := Segment(Kind(b[0]), GetData(data, b[1], use32));
    PutGetData(data, b[1], use32);
    hide GetData, PutData;
    assert b == [b[0], b[1]] + data + rest;
  }

  lemma {:induction false} EncodeCons(s: Segment, ws: Path, use32: bool)
    requires WireSegment(s) && WireSegments(ws)
    ensures WireSegments([s] + ws)
    ensures Encode([s] + ws, use32) == [Code(s.kind), |s.asns|] + PutData(s.asns, use32) + Encode(ws, use32)
  {
    assert ([s] + ws)[1..] == ws;
  }

  /** Only AS_SEQUENCEs may be cut up: the pieces of anything else do not merge
      again when they are read back. */
  ghost predicate NonSequencesFit(p: Path) {
    forall i :: 0 <= i < |p| && !p[i].kind.AsSequence? ==> |p[i].asns| <= AS_SEGMENT_MAX
  }

  lemma {:induction false} SplitSegmentDenote(s: Segment)
    requires s.asns != []
    requires s.kind.AsSequence? || |s.asns| <= AS_SEGMENT_MAX
    ensures Denote(SplitSegment(s)) == SegHops(s)
    decreases |s.asns|
  {
    if |s.asns| > AS_SEGMENT_MAX {
      var x, y := s.asns[..AS_SEGMENT_MAX], s.asns[AS_SEGMENT_MAX..];
      SplitSegmentDenote(s.(asns := y));
      DenoteConcat([s.(asns := x)], SplitSegment(s.(asns := y)));
      AppendHops(s.(asns := x), s.(asns := y));
      assert x + y == s.asns;
    }
  }

  lemma {:induction false} SplitDenote(p: Path)
    requires NoEmptySegment(p) && NonSequencesFit(p)
    ensures Denote(Split(p)) == Denote(p)
  {
    if p != [] {
      SplitSegmentDenote(p[0]);
      SplitDenote(p[1..]);
      DenoteConcat(SplitSegment(p[0]), Split(p[1..]));
    }
  }

  lemma {:induction false} SplitNormalForm(p: Path)
    requires NoEmptySegment(p) && NonSequencesFit(p)
    ensures NormalForm(Split(p)) == NormalForm(p)
  {
    SplitDenote(p);
    SplitBounded(p);
    NoEmptyRunsCarry(Split(p));
    NoEmptyRunsCarry(p);
    CanonicalForm(Split(p), p);
  }

  lemma {:induction false} SeenSplitSegment(s: Segment, use32: bool)
    ensures SeenPath(SplitSegment(s), use32) == SplitSegment(s.(asns := SeenAll(s.asns, use32)))
    decreases |s.asns|
  {
    if |s.asns| > AS_SEGMENT_MAX {
      SeenSplitSegment(s.(asns := s.asns[AS_SEGMENT_MAX..]), use32);
      assert SeenAll(s.asns, use32)[..AS_SEGMENT_MAX] == SeenAll(s.asns[..AS_SEGMENT_MAX], use32);
      assert SeenAll(s.asns, use32)[AS_SEGMENT_MAX..] == SeenAll(s.asns[AS_SEGMENT_MAX..], use32);
      SeenPathTail(SplitSegment(s), use32);
    }
  }

  lemma {:induction false} SeenSplit(p: Path, use32: bool)
    ensures SeenPath(Split(p), use32) == Split(SeenPath(p, use32))
  {
    if p != [] {
      SeenSplitSegment(p[0], use32);
      SeenSplit(p[1..], use32);
      SeenPathTail(p, use32);
      var x, y := SplitSegment(p[0]), Split(p[1..]);
      assert SeenPath(x + y, use32) == SeenPath(x, use32) + SeenPath(y, use32);
    }
  }

  lemma {:induction false} PiecesAreSplit(s: Segment, use32: bool)
    requires s.asns != []
    ensures WireSegments(SplitSegment(s)) && Pieces(s.kind, s.asns, use32) == Encode(SplitSegment(s), use32)
    decreases |s.asns|
  {
    SplitSegmentBounded(s);
    hide Chunk;
    if |s.asns| > AS_SEGMENT_MAX {
      var rest := s.(asns := s.asns[AS_SEGMENT_MAX..]);
      PiecesAreSplit(rest, use32);
      assert SplitSegment(s)[1..] == SplitSegment(rest);
    }
  }

  ghost function WireSize(p: Path, use32: bool): nat
    requires NoEmptySegment(p)
  {
    SplitBounded(p);
    |Encode(Split(p), use32)|
  }

  /** A normalised path never reaches the packing loop, so given the room
      aspath_put writes exactly the encoding of its pieces. */
  lemma {:induction false} PutSegmentsEncodes(s: seq<Byte>, p: Path, use32: bool, room: nat)
    requires IsNormal(p) && NoEmptySegment(p) && |s| + WireSize(p, use32) <= room
    ensures WireSegments(Split(p)) && PutSegments(s, p, use32, room) == s + Encode(Split(p), use32)
    decreases |p|
  {
    hide PutOne, Pieces, Encode, SplitSegment, IsNormal;
    SplitBounded(p);
    if p != [] {
      var b := Pieces(p[0].kind, p[0].asns, use32);
      PiecesAreSplit(p[0], use32);
      SplitBounded(p[1..]);
      EncodeConcat(SplitSegment(p[0]), Split(p[1..]), use32);
      PutOneNormal(s, p, use32);
      PutSegmentsEncodes(s + b, p[1..], use32, room);
      Assoc(s, b, Encode(Split(p[1..]), use32));
    } else {
      NothingEncoded(use32);
    }
  }

  lemma {:induction false} NothingEncoded(use32: bool)
    ensures Encode([], use32) == []
  {
  }

  /** In a normalised path no segment takes another. */
  lemma {:induction false} PutOneNormal(s: seq<Byte>, p: Path, use32: bool)
    requires p != [] && IsNormal(p)
    ensures IsNormal(p[1..]) && PutOne(s, p, use32) == (s + Pieces(p[0].kind, p[0].asns, use32), p[1..])
  {
    hide Pieces;
    if |p| > 1 { assert !FitsBeside(p[0], p[1..][0]); }
  }

  lemma {:induction false} EncodeEven(ws: Path, use32: bool)
    requires WireSegments(ws)
    ensures |Encode(ws, use32)| % 2 == 0 && (ws != [] ==> |Encode(ws, use32)| >= 2)
  {
    hide Chunk;
    if ws != [] {
      EncodeEven(ws[1..], use32);
      SegmentSizeEven(|ws[0].asns|, use32);
    }
  }

  lemma {:induction false} SegmentSizeEven(n: nat, use32: bool)
    ensures SegmentSize(n, use32) % 2 == 0 && SegmentSize(n, use32) >= 2
  {
  }

  lemma {:induction false} NothingNormal()
    ensures NormalForm([]) == []
  {
  }

  lemma {:induction false} SplitSome(p: Path)
    requires p != []
    ensures Split(p) != []
  {
  }

  /** Nothing but the attribute's own bytes is read. */
  lemma {:induction false} ParseOwnBytes(b: seq<Byte>, rest: seq<Byte>, use32: bool)
    ensures Parse(b + rest, |b|, use32) == Parse(b, |b|, use32)
  {
    hide ParseSegments;
    assert (b + rest)[..|b|] == b == b[..|b|];
  }

  /** What a peer reads back of any normalised path, whatever is too long included. */
  lemma {:induction false} PutThenParse(p: Path, use32: bool, room: nat)
    requires IsNormal(p) && NoEmptySegment(p) && WireSize(p, use32) <= room
    ensures var b := PutPath(p, use32, room);
            |b| == WireSize(p, use32) && Parse(b, |b|, use32) == Parsed(NormalForm(Split(SeenPath(p, use32))))
  {
    hide Encode, PutSegments, ParseSegments, NormalForm, SplitSegment;
    SplitBounded(p);
    var ws := Split(p);
    var b := Encode(ws, use32);
    if p == [] {
      assert SeenPath(p, use32) == [];
      NothingEncoded(use32);
      NothingNormal();
    } else {
      SplitSome(p);
      PutSegmentsEncodes([], p, use32, room);
      assert [] + b == b;
      EncodeEven(ws, use32);
      ParseEncode(ws, use32);
      SeenSplit(p, use32);
      assert b[..|b|] == b;
    }
  }

  lemma {:induction false} SeenPathShape(p: Path, use32: bool)
    requires NoEmptySegment(p)
    ensures NoEmptySegment(SeenPath(p, use32))
    ensures NonSequencesFit(p) <==> NonSequencesFit(SeenPath(p, use32))
  {
    var q := SeenPath(p, use32);
    assert forall i :: 0 <= i < |p| ==> q[i].kind == p[i].kind && |q[i].asns| == |p[i].asns|;
  }

  /** A 2-byte or 4-byte peer reads back the normal form of the path as that
      encoding shows it; a 2-byte peer sees AS_TRANS for every large ASN. */
  lemma {:induction false} WireRoundTrip(p: Path, use32: bool, room: nat)
    requires IsNormal(p) && NoEmptySegment(p) && WireSize(p, use32) <= room
    requires NonSequencesFit(p)
    ensures var b := PutPath(p, use32, room);
            Parse(b, |b|, use32) == Parsed(NormalForm(SeenPath(p, use32)))
  {
    PutThenParse(p, use32, room);
    SeenPathShape(p, use32);
    SplitNormalForm(SeenPath(p, use32));
  }

  lemma {:induction false} Seen32(p: Path)
    ensures SeenPath(p, true) == p
  {
    forall i | 0 <= i < |p| ensures SeenPath(p, true)[i] == p[i] {
      assert SeenAll(p[i].asns, true) == p[i].asns;
    }
  }

  /** 4-byte round trip: the same path comes back exactly when every segment
      other than an AS_SEQUENCE holds at most 255 AS numbers. */
  lemma {:induction false} WireRoundTrip32(p: Path, room: nat)
    requires IsNormal(p) && NoEmptySegment(p) && WireSize(p, true) <= room
    ensures var b := PutPath(p, true, room);
            Parse(b, |b|, true) == Parsed(p) <==> NonSequencesFit(p)
  {
    PutThenParse(p, true, room);
    Seen32(p);
    if NonSequencesFit(p) {
      SplitNormalForm(p);
      NormalFormFixed(p);
    } else {
      SplitMakesMore(p);
      NormalFormNonSequences(Split(p));
    }
  }

  ghost function NonSequences(p: Path): nat {
    if p == [] then 0 else (if p[0].kind.AsSequence? then 0 else 1) + NonSequences(p[1..])
  }

  lemma {:induction false} NonSequencesConcat(p: Path, q: Path)
    ensures NonSequences(p + q) == NonSequences(p) + NonSequences(q)
  {
    if p == [] {
      assert p + q == q;
    } else {
      assert (p + q)[1..] == p[1..] + q;
      NonSequencesConcat(p[1..], q);
    }
  }

  lemma {:induction false} NormalFormNonSequences(p: Path)
    ensures NonSequences(NormalForm(p)) == NonSequences(p)
    decreases |p|
  {
    if p == [] {
    } else if |p| > 1 && Packable(p[0], p[1]) {
      var q := [Append(p[0], p[1])] + p[2..];
      NormalFormNonSequences(q);
      assert q[1..] == p[2..] == p[1..][1..];
    } else {
      NormalFormNonSequences(p[1..]);
      assert ([NormalSegment(p[0])] + NormalForm(p[1..]))[1..] == NormalForm(p[1..]);
    }
  }

  lemma {:induction false} SplitSegmentNonSequences(s: Segment)
    ensures if s.kind.AsSequence? then NonSequences(SplitSegment(s)) == 0
            else if |s.asns| <= AS_SEGMENT_MAX then NonSequences(SplitSegment(s)) == 1
            else NonSequences(SplitSegment(s)) > 1
    decreases |s.asns|
  {
    if |s.asns| > AS_SEGMENT_MAX {
      var rest := s.(asns := s.asns[AS_SEGMENT_MAX..]);
      SplitSegmentNonSequences(rest);
      assert SplitSegment(s)[1..] == SplitSegment(rest);
    }
  }

  lemma {:induction false} SplitMakesMore(p: Path)
    ensures NonSequences(Split(p)) >= NonSequences(p)
    ensures !NonSequencesFit(p) ==> NonSequences(Split(p)) > NonSequences(p)
  {
    if p != [] {
      SplitSegmentNonSequences(p[0]);
      SplitMakesMore(p[1..]);
      NonSequencesConcat(SplitSegment(p[0]), Split(p[1..]));
      assert p == [p[0]] + p[1..];
    }
  }
}
