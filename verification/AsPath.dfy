/**
 AS_PATH segment lists (bgpd/bgp_aspath.c): the in-memory normal form, what a
 list of segments means, and the proof that the normal form is canonical.

 A linked list of `struct assegment` is a `Path`.  The qsort call is the
 function `Sorted`; everything the file itself does is a method below.
 */
module AsPath {

  type Asn = n: int | 0 <= n < 0x1_0000_0000

  datatype SegKind = AsSet | AsSequence | ConfedSequence | ConfedSet {
    /** Set-like segments are sorted and have their duplicates removed. */
    predicate Unordered() { AsSet? || ConfedSet? }
    predicate Confed() { ConfedSequence? || ConfedSet? }
  }

  datatype Segment = Segment(kind: SegKind, asns: seq<Asn>)

  type Path = seq<Segment>

  /** All AS numbers of a list in order. */
  function Flat(p: Path): seq<Asn> { if p == [] then [] else p[0].asns + Flat(p[1..]) }

  // ------------------------------------------------------------------
  // Sets of AS numbers: qsort followed by weeding out duplicates
  // ------------------------------------------------------------------

  function Members(s: seq<Asn>): set<Asn> {
    set a | a in s
  }

  lemma {:induction false} MembersConcat(s: seq<Asn>, t: seq<Asn>)
    ensures Members(s + t) == Members(s) + Members(t)
  {
  }

  lemma {:induction false} NoMembers(s: seq<Asn>)
    ensures Members(s) == {} <==> s == []
  {
    if s != [] { assert s[0] in Members(s); }
  }

  ghost predicate Ascending(s: seq<Asn>) {
    forall i, j :: 0 <= i < j < |s| ==> s[i] <= s[j]
  }

  ghost predicate StrictlyAscending(s: seq<Asn>) {
    forall i, j :: 0 <= i < j < |s| ==> s[i] < s[j]
  }

  function Insert(x: Asn, s: seq<Asn>): seq<Asn> {
    if s == [] || x <= s[0] then [x] + s else [s[0]] + Insert(x, s[1..])
  }

  /** What qsort with int_cmp leaves in the buffer. */
  function Sorted(s: seq<Asn>): seq<Asn> {
    if s == [] then [] else Insert(s[0], Sorted(s[1..]))
  }

  lemma {:induction false} InsertMembers(x: Asn, s: seq<Asn>)
    ensures Members(Insert(x, s)) == {x} + Members(s) && |Insert(x, s)| == |s| + 1
  {
    if s == [] || x <= s[0] {
      MembersConcat([x], s);
    } else {
      InsertMembers(x, s[1..]);
      assert s == [s[0]] + s[1..];
      MembersConcat([s[0]], s[1..]);
      MembersConcat([s[0]], Insert(x, s[1..]));
    }
  }

  lemma {:induction false} AscendingPrepend(x: Asn, s: seq<Asn>)
    requires Ascending(s) && forall y :: y in Members(s) ==> x <= y
    ensures Ascending([x] + s)
  {
    assert forall i :: 0 <= i < |s| ==> s[i] in Members(s);
  }

  lemma {:induction false} InsertAscending(x: Asn, s: seq<Asn>)
    requires Ascending(s)
    ensures Ascending(Insert(x, s))
  {
    if s != [] && x > s[0] {
      InsertAscending(x, s[1..]);
      InsertMembers(x, s[1..]);
      AscendingPrepend(s[0], Insert(x, s[1..]));
    }
  }

  lemma {:induction false} SortedIsSorted(s: seq<Asn>)
    ensures Ascending(Sorted(s)) && Members(Sorted(s)) == Members(s) && |Sorted(s)| == |s|
  {
    if s != [] {
      SortedIsSorted(s[1..]);
      InsertAscending(s[0], Sorted(s[1..]));
      InsertMembers(s[0], Sorted(s[1..]));
      MembersConcat([s[0]], s[1..]);
      assert s == [s[0]] + s[1..];
    }
  }

  /** The members of a set in ascending order, each once. */
  ghost function SetToSeq(s: set<Asn>): seq<Asn> {
    if s == {} then [] else [Least(s)] + SetToSeq(s - {Least(s)})
  }

  ghost function Least(s: set<Asn>): (m: Asn)
    requires s != {}
    ensures m in s && forall x :: x in s ==> m <= x
  {
    var x :| x in s;
    if s == {x} then x
    else
      var m := Least(s - {x});
      assert forall y :: y in s ==> y == x || y in s - {x};
      if x < m then x else m
  }

  lemma {:induction false} StrictlyPrepend(x: Asn, s: seq<Asn>)
    requires StrictlyAscending(s) && forall y :: y in Members(s) ==> x < y
    ensures StrictlyAscending([x] + s)
  {
    assert forall i :: 0 <= i < |s| ==> s[i] in Members(s);
  }

  lemma {:induction false} SetToSeqAscending(s: set<Asn>)
    ensures StrictlyAscending(SetToSeq(s)) && Members(SetToSeq(s)) == s
  {
    if s != {} {
      var m := Least(s);
      var t := SetToSeq(s - {m});
      SetToSeqAscending(s - {m});
      StrictlyPrepend(m, t);
      MembersConcat([m], t);
    }
  }

  lemma {:induction false} HeadIsLeast(s: seq<Asn>)
    requires s != [] && StrictlyAscending(s)
    ensures forall x :: x in Members(s[1..]) ==> s[0] < x
    ensures Members(s) == {s[0]} + Members(s[1..])
  {
    assert s == [s[0]] + s[1..];
    MembersConcat([s[0]], s[1..]);
  }

  lemma {:induction false} StrictlyAscendingUnique(s: seq<Asn>, t: seq<Asn>)
    requires StrictlyAscending(s) && StrictlyAscending(t)
    requires Members(s) == Members(t)
    ensures s == t
  {
    NoMembers(s);
    NoMembers(t);
    if s != [] {
      HeadIsLeast(s);
      HeadIsLeast(t);
      assert s[0] == t[0];
      assert Members(s[1..]) == Members(s) - {s[0]} == Members(t[1..]);
      StrictlyAscendingUnique(s[1..], t[1..]);
      assert s == [s[0]] + s[1..] && t == [t[0]] + t[1..];
    }
  }

  lemma {:induction false} SetToSeqOfMembers(s: seq<Asn>)
    requires StrictlyAscending(s)
    ensures SetToSeq(Members(s)) == s
  {
    SetToSeqAscending(Members(s));
    StrictlyAscendingUnique(SetToSeq(Members(s)), s);
  }

  method Qsort(a: array<Asn>)
    modifies a
    ensures a[..] == Sorted(old(a[..]))
  {
    var sorted := Sorted(a[..]);
    SortedIsSorted(a[..]);
    for i := 0 to a.Length
      invariant a[..i] == sorted[..i]
    {
      a[i] := sorted[i];
    }
    assert a[..] == sorted;
  }

  /** Weeds out the duplicates of a sorted buffer in place. */
  method WeedOut(a: array<Asn>) returns (len: nat)
    requires a.Length > 0
    modifies a
    ensures 0 < len <= a.Length
    ensures a[..len] == Weed(old(a[..]), a.Length)
  {
    ghost var sorted := a[..];
    ghost var kept := [a[0]];
    var tail, i := 0, 1;
    while i < a.Length
      invariant 0 <= tail < i <= a.Length && |kept| == tail + 1
      invariant kept == Weed(sorted, i)
      invariant forall k :: i <= k < a.Length ==> a[k] == sorted[k]
      invariant forall k :: 0 <= k <= tail ==> a[k] == kept[k]
    {
      if a[tail] != a[i] {
        kept := kept + [sorted[i]];
        tail := tail + 1;
        if tail < i { a[tail] := a[i]; }
      }
      i := i + 1;
    }
    assert a[..tail + 1] == kept;
    return tail + 1;
  }

  /** Sorts the buffer and weeds out duplicates in place, as the SET branch of
      assegment_normalise does; the first `len` cells are the surviving ASNs. */
  method SortAndWeed(a: array<Asn>) returns (len: nat)
    modifies a
    ensures len <= a.Length
    ensures a[..len] == SetToSeq(Members(old(a[..])))
  {
    Weeded(a[..]);
    Qsort(a);
    if a.Length == 0 { return 0; }
    len := WeedOut(a);
  }

  /** What weeding keeps of the first `i` cells. */
  ghost function Weed(s: seq<Asn>, i: nat): (kept: seq<Asn>)
    requires 0 < i <= |s|
    ensures kept != []
  {
    if i == 1 then [s[0]]
    else
      var kept := Weed(s, i - 1);
      if kept[|kept| - 1] == s[i - 1] then kept else kept + [s[i - 1]]
  }

  lemma {:induction false} AscendingAppend(s: seq<Asn>, x: Asn)
    requires StrictlyAscending(s) && s != [] && s[|s| - 1] < x
    ensures StrictlyAscending(s + [x])
  {
  }

  lemma {:induction false} WeedAscending(s: seq<Asn>, i: nat)
    requires 0 < i <= |s| && Ascending(s)
    ensures StrictlyAscending(Weed(s, i)) && Weed(s, i)[|Weed(s, i)| - 1] == s[i - 1]
  {
    if i == 1 {
      assert Weed(s, i) == [s[0]];
    } else {
      hide StrictlyAscending, Weed;
      WeedAscending(s, i - 1);
      WeedStep(s, i);
      if s[i - 2] < s[i - 1] { AscendingAppend(Weed(s, i - 1), s[i - 1]); }
    }
  }

  lemma {:induction false} WeedStep(s: seq<Asn>, i: nat)
    requires 1 < i <= |s|
    ensures var kept := Weed(s, i - 1);
            Weed(s, i) == if kept[|kept| - 1] == s[i - 1] then kept else kept + [s[i - 1]]
  {
  }

  lemma {:induction false} WeedMembers(s: seq<Asn>, i: nat)
    requires 0 < i <= |s|
    ensures Members(Weed(s, i)) == Members(s[..i])
  {
    assert s[..i] == s[..i - 1] + [s[i - 1]];
    if i > 1 {
      WeedMembers(s, i - 1);
      MembersConcat(s[..i - 1], [s[i - 1]]);
      MembersConcat(Weed(s, i - 1), [s[i - 1]]);
    }
  }

  lemma {:induction false} Weeded(s: seq<Asn>)
    ensures |Sorted(s)| == |s|
    ensures if s == [] then SetToSeq(Members(s)) == [] else SetToSeq(Members(s)) == Weed(Sorted(s), |s|)
  {
    SortedIsSorted(s);
    if s != [] {
      WeedAscending(Sorted(s), |s|);
      WeedMembers(Sorted(s), |s|);
      assert Sorted(s)[..|s|] == Sorted(s);
      SetToSeqOfMembers(Weed(Sorted(s), |s|));
    }
  }

  // ------------------------------------------------------------------
  // Meaning: one hop per AS_SEQUENCE member, one per set, one per confed unit
  // ------------------------------------------------------------------

  datatype Hop =
    | As(asn: Asn)
    | OneOf(members: set<Asn>)
    | ConfedRun(asns: seq<Asn>)
    | ConfedOneOf(members: set<Asn>)

  ghost function AsHops(asns: seq<Asn>): (h: seq<Hop>) {
    seq(|asns|, i requires 0 <= i < |asns| => As(asns[i]))
  }

  ghost function SegHops(s: Segment): seq<Hop> {
    match s.kind
    case AsSequence => AsHops(s.asns)
    case AsSet => [OneOf(Members(s.asns))]
    case ConfedSequence => [ConfedRun(s.asns)]
    case ConfedSet => [ConfedOneOf(Members(s.asns))]
  }

  ghost function Denote(p: Path): seq<Hop> {
    if p == [] then [] else SegHops(p[0]) + Denote(p[1..])
  }

  lemma {:induction false} FlatConcat(p: Path, q: Path)
    ensures Flat(p + q) == Flat(p) + Flat(q)
  {
    if p == [] {
      assert p + q == q;
    } else {
      assert (p + q)[1..] == p[1..] + q;
      FlatConcat(p[1..], q);
      assert p[0].asns + (Flat(p[1..]) + Flat(q)) == (p[0].asns + Flat(p[1..])) + Flat(q);
    }
  }

  lemma {:induction false} DenoteConcat(p: Path, q: Path)
    ensures Denote(p + q) == Denote(p) + Denote(q)
  {
    if p == [] {
      assert p + q == q;
    } else {
      assert (p + q)[1..] == p[1..] + q;
      DenoteConcat(p[1..], q);
      assert SegHops(p[0]) + (Denote(p[1..]) + Denote(q)) == (SegHops(p[0]) + Denote(p[1..])) + Denote(q);
    }
  }

  /** The one path that stands for a list of hops. */
  ghost function Build(h: seq<Hop>): Path {
    if h == [] then []
    else
      var rest := Build(h[1..]);
      match h[0]
      case As(a) =>
        if rest != [] && rest[0].kind.AsSequence?
        then [Segment(AsSequence, [a] + rest[0].asns)] + rest[1..]
        else [Segment(AsSequence, [a])] + rest
      case OneOf(s) => [Segment(AsSet, SetToSeq(s))] + rest
      case ConfedRun(s) => [Segment(ConfedSequence, s)] + rest
      case ConfedOneOf(s) => [Segment(ConfedSet, SetToSeq(s))] + rest
  }

  // ------------------------------------------------------------------
  // The normal form
  // ------------------------------------------------------------------

  ghost function NormalSegment(s: Segment): Segment {
    if s.kind.Unordered() then s.(asns := SetToSeq(Members(s.asns))) else s
  }

  predicate Packable(x: Segment, y: Segment) {
    x.kind == y.kind && x.kind.AsSequence?
  }

  function Append(x: Segment, y: Segment): Segment {
    x.(asns := x.asns + y.asns)
  }

  ghost function NormalForm(p: Path): Path
    decreases |p|
  {
    if p == [] then []
    else if |p| > 1 && Packable(p[0], p[1]) then NormalForm([Append(p[0], p[1])] + p[2..])
    else [NormalSegment(p[0])] + NormalForm(p[1..])
  }

  ghost predicate IsNormal(p: Path) {
    && (forall i :: 0 <= i < |p| && p[i].kind.Unordered() ==> StrictlyAscending(p[i].asns))
    && NoAdjacentSequences(p)
  }

  ghost predicate NoAdjacentSequences(p: Path) {
    forall i, j :: 0 <= i < j < |p| && j == i + 1 ==> !(p[i].kind.AsSequence? && p[j].kind.AsSequence?)
  }

  ghost predicate NoEmptySequence(p: Path) {
    forall i :: 0 <= i < |p| && p[i].kind.AsSequence? ==> p[i].asns != []
  }

  ghost predicate NoEmptySegment(p: Path) {
    forall i :: 0 <= i < |p| ==> p[i].asns != []
  }

  method NormaliseSegment(s: Segment) returns (r: Segment)
    ensures r == NormalSegment(s) == NormalSegment(r)
  {
    r := s;
    if s.kind.Unordered() {
      var data := new Asn[|s.asns|](i requires 0 <= i < |s.asns| => s.asns[i]);
      assert data[..] == s.asns;
      var len := SortAndWeed(data);
      SetToSeqAscending(Members(s.asns));
      r := s.(asns := data[..len]);
    }
  }

  /** assegment_normalise: sort and weed each set, then pull every following
      AS_SEQUENCE into the pinned one. */
  method Normalise(head: Path) returns (segs: Path)
    ensures segs == NormalForm(head)
  {
    hide NormalForm, NormalSegment;
    segs := head;
    var pin := 0;
    assert head[..0] == [] && head[0..] == head && [] + NormalForm(head) == NormalForm(head);
    while pin < |segs|
      invariant 0 <= pin <= |segs|
      invariant NormalForm(head) == segs[..pin] + NormalForm(segs[pin..])
      decreases |segs| - pin
    {
      ghost var done, old_ := segs[..pin], segs;
      var seg := NormaliseSegment(segs[pin]);
      segs := segs[pin := seg];
      NormalFormFirst(old_, segs, pin);
      while pin + 1 < |segs| && Packable(segs[pin], segs[pin + 1])
        invariant pin < |segs| && segs[..pin] == done
        invariant NormalSegment(segs[pin]) == segs[pin]
        invariant NormalForm(head) == done + NormalForm(segs[pin..])
        decreases |segs| - pin
      {
        NormalFormMerged(segs, pin);
        segs := segs[..pin] + [Append(segs[pin], segs[pin + 1])] + segs[pin + 2..];
      }
      NormalFormDone(segs, pin);
      pin := pin + 1;
    }
    NormalFormEnd(segs);
  }

  /** The head of what is left may be normalised first. */
  lemma {:induction false} NormalFormFirst(p: Path, q: Path, i: nat)
    requires i < |p| && q == p[i := NormalSegment(p[i])] && NormalSegment(q[i]) == q[i]
    ensures NormalForm(q[i..]) == NormalForm(p[i..]) && q[..i] == p[..i]
  {
    assert p[i..][1..] == p[i + 1..] == q[i + 1..] == q[i..][1..];
    if |p[i..]| > 1 && Packable(p[i], p[i + 1]) { assert q == p; }
  }

  lemma {:induction false} NormalFormMerged(p: Path, i: nat)
    requires i + 1 < |p| && Packable(p[i], p[i + 1])
    ensures var q := p[..i] + [Append(p[i], p[i + 1])] + p[i + 2..];
            && q[..i] == p[..i] && q[i] == Append(p[i], p[i + 1]) && NormalForm(q[i..]) == NormalForm(p[i..])
            && NormalSegment(q[i]) == q[i]
  {
    var q := p[..i] + [Append(p[i], p[i + 1])] + p[i + 2..];
    assert p[i..][2..] == p[i + 2..] && q[i..] == [Append(p[i], p[i + 1])] + p[i + 2..];
  }

  lemma {:induction false} NormalFormDone(p: Path, i: nat)
    requires i < |p| && NormalSegment(p[i]) == p[i] && (i + 1 < |p| ==> !Packable(p[i], p[i + 1]))
    ensures p[..i] + NormalForm(p[i..]) == p[..i + 1] + NormalForm(p[i + 1..])
  {
    assert p[i..][1..] == p[i + 1..];
    assert p[..i + 1] == p[..i] + [p[i]];
    assert (p[..i] + [p[i]]) + NormalForm(p[i + 1..]) == p[..i] + ([p[i]] + NormalForm(p[i + 1..]));
  }

  lemma {:induction false} NormalFormEnd(p: Path)
    ensures p[..|p|] + NormalForm(p[|p|..]) == p
  {
  }

  lemma {:induction false} AppendHops(x: Segment, y: Segment)
    requires Packable(x, y)
    ensures SegHops(Append(x, y)) == SegHops(x) + SegHops(y)
  {
  }

  lemma {:induction false} PackedDenote(p: Path)
    requires |p| > 1 && Packable(p[0], p[1])
    ensures Denote([Append(p[0], p[1])] + p[2..]) == Denote(p)
  {
    AppendHops(p[0], p[1]);
    var q := [Append(p[0], p[1])] + p[2..];
    assert q[1..] == p[2..] == p[1..][1..];
    assert Denote(p) == SegHops(p[0]) + (SegHops(p[1]) + Denote(p[2..]));
    assert SegHops(p[0]) + (SegHops(p[1]) + Denote(p[2..])) == (SegHops(p[0]) + SegHops(p[1])) + Denote(p[2..]);
  }

  lemma {:induction false} NormalFormDenote(p: Path)
    ensures Denote(NormalForm(p)) == Denote(p)
    decreases |p|
  {
    if p == [] {
    } else if |p| > 1 && Packable(p[0], p[1]) {
      NormalFormDenote([Append(p[0], p[1])] + p[2..]);
      PackedDenote(p);
    } else {
      NormalFormDenote(p[1..]);
      SetToSeqAscending(Members(p[0].asns));
      assert ([NormalSegment(p[0])] + NormalForm(p[1..]))[1..] == NormalForm(p[1..]);
    }
  }

  lemma {:induction false} BuildSequence(asns: seq<Asn>, h: seq<Hop>)
    requires asns != []
    requires Build(h) == [] || !Build(h)[0].kind.AsSequence?
    ensures Build(AsHops(asns) + h) == [Segment(AsSequence, asns)] + Build(h)
  {
    var g := AsHops(asns) + h;
    assert g[0] == As(asns[0]);
    assert g[1..] == AsHops(asns[1..]) + h;
    if |asns| > 1 {
      BuildSequence(asns[1..], h);
      assert [asns[0]] + asns[1..] == asns;
      assert ([Segment(AsSequence, asns[1..])] + Build(h))[1..] == Build(h);
    } else {
      assert g[1..] == h;
      assert asns == [asns[0]];
    }
  }

  lemma {:induction false} BuildHead(p: Path)
    requires p != [] && NoEmptySequence(p) && !p[0].kind.AsSequence?
    ensures Build(Denote(p)) == [NormalSegment(p[0])] + Build(Denote(p[1..]))
  {
    assert Denote(p)[1..] == Denote(p[1..]);
  }

  /** The normal form is determined by the meaning alone. */
  lemma {:induction false} NormalFormIsBuild(p: Path)
    requires NoEmptySequence(p)
    ensures NormalForm(p) == Build(Denote(p))
    decreases |p|
  {
    if p == [] {
    } else if |p| > 1 && Packable(p[0], p[1]) {
      var q := [Append(p[0], p[1])] + p[2..];
      AppendHops(p[0], p[1]);
      assert q[1..] == p[2..] == p[1..][1..];
      assert Denote(p) == Denote(q);
      NormalFormIsBuild(q);
    } else {
      NormalFormIsBuild(p[1..]);
      if p[0].kind.AsSequence? {
        if |p| > 1 { BuildHead(p[1..]); }
        BuildSequence(p[0].asns, Denote(p[1..]));
      } else {
        BuildHead(p);
      }
    }
  }

  lemma {:induction false} BuildNoEmpty(h: seq<Hop>)
    ensures NoEmptySequence(Build(h))
  {
    if h != [] { BuildNoEmpty(h[1..]); }
  }

  /** Segments `i` and `j` belong to one run of AS_SEQUENCEs. */
  ghost predicate SameRun(p: Path, i: nat, j: nat) {
    forall k :: 0 <= k < |p| && (i <= k <= j || j <= k <= i) ==> p[k].kind.AsSequence?
  }

  ghost predicate Carried(p: Path, i: nat) {
    exists j :: 0 <= j < |p| && p[j].asns != [] && SameRun(p, i, j)
  }

  /** Every run of AS_SEQUENCEs has a member that is not empty. */
  ghost predicate RunsCarry(p: Path) {
    forall i :: 0 <= i < |p| && p[i].kind.AsSequence? ==> Carried(p, i)
  }

  lemma {:induction false} NoEmptyRunsCarry(p: Path)
    requires NoEmptySequence(p)
    ensures RunsCarry(p)
  {
    forall i | 0 <= i < |p| && p[i].kind.AsSequence? ensures Carried(p, i) { assert SameRun(p, i, i); }
  }

  lemma {:induction false} CarriedMerged(p: Path, i: nat)
    requires |p| > 1 && Packable(p[0], p[1]) && i < |p|
    ensures Carried(p, i) <==> Carried([Append(p[0], p[1])] + p[2..], if i == 0 then 0 else i - 1)
  {
    hide Carried, SameRun;
    if Carried(p, i) { CarriedInMerged(p, i); }
    if Carried([Append(p[0], p[1])] + p[2..], if i == 0 then 0 else i - 1) { CarriedBefore(p, i); }
  }

  lemma {:induction false} CarriedInMerged(p: Path, i: nat)
    requires |p| > 1 && Packable(p[0], p[1]) && i < |p| && Carried(p, i)
    ensures Carried([Append(p[0], p[1])] + p[2..], if i == 0 then 0 else i - 1)
  {
    var q, i' := [Append(p[0], p[1])] + p[2..], if i == 0 then 0 else i - 1;
    assert forall k :: 2 <= k < |p| ==> q[k - 1] == p[k];
    var j :| 0 <= j < |p| && p[j].asns != [] && SameRun(p, i, j);
    var j' := if j == 0 then 0 else j - 1;
    forall k | 0 <= k < |q| && (i' <= k <= j' || j' <= k <= i') ensures q[k].kind.AsSequence? {
      if k > 0 { assert p[k + 1].kind.AsSequence?; }
    }
    assert q[j'].asns != [] && SameRun(q, i', j');
  }

  lemma {:induction false} CarriedBefore(p: Path, i: nat)
    requires |p| > 1 && Packable(p[0], p[1]) && i < |p|
    requires Carried([Append(p[0], p[1])] + p[2..], if i == 0 then 0 else i - 1)
    ensures Carried(p, i)
  {
    var q, i' := [Append(p[0], p[1])] + p[2..], if i == 0 then 0 else i - 1;
    assert forall k :: 2 <= k < |p| ==> q[k - 1] == p[k];
    var j' :| 0 <= j' < |q| && q[j'].asns != [] && SameRun(q, i', j');
    var j := if j' > 0 then j' + 1 else if p[0].asns != [] then 0 else 1;
    forall k | 0 <= k < |p| && (i <= k <= j || j <= k <= i) ensures p[k].kind.AsSequence? {
      if k > 1 { assert q[k - 1].kind.AsSequence?; }
    }
    assert p[j].asns != [] && SameRun(p, i, j);
  }

  lemma {:induction false} CarriedTail(p: Path, i: nat)
    requires |p| > 1 && !Packable(p[0], p[1]) && 0 < i < |p| && p[i].kind.AsSequence?
    ensures Carried(p, i) <==> Carried(p[1..], i - 1)
  {
    var q := p[1..];
    assert forall k :: 0 <= k < |q| ==> q[k] == p[k + 1];
    if Carried(p, i) {
      var j :| 0 <= j < |p| && p[j].asns != [] && SameRun(p, i, j);
      if j == 0 {
        assert false;
      }
      forall k | 0 <= k < |q| && (i - 1 <= k <= j - 1 || j - 1 <= k <= i - 1) ensures q[k].kind.AsSequence? {
        assert p[k + 1].kind.AsSequence?;
      }
      assert q[j - 1].asns != [] && SameRun(q, i - 1, j - 1);
    }
    if Carried(q, i - 1) {
      var j :| 0 <= j < |q| && q[j].asns != [] && SameRun(q, i - 1, j);
      forall k | 0 <= k < |p| && (i <= k <= j + 1 || j + 1 <= k <= i) ensures p[k].kind.AsSequence? {
        assert q[k - 1].kind.AsSequence?;
      }
      assert p[j + 1].asns != [] && SameRun(p, i, j + 1);
    }
  }

  lemma {:induction false} CarriedAlone(p: Path)
    requires p != [] && p[0].kind.AsSequence? && (|p| > 1 ==> !p[1].kind.AsSequence?)
    ensures Carried(p, 0) <==> p[0].asns != []
  {
    if p[0].asns != [] { assert SameRun(p, 0, 0); }
    if Carried(p, 0) {
      var j :| 0 <= j < |p| && p[j].asns != [] && SameRun(p, 0, j);
      if j > 0 {
        assert false;
      }
    }
  }

  lemma {:induction false} RunsCarryMerged(p: Path)
    requires |p| > 1 && Packable(p[0], p[1])
    ensures RunsCarry(p) <==> RunsCarry([Append(p[0], p[1])] + p[2..])
  {
    hide Carried;
    var q := [Append(p[0], p[1])] + p[2..];
    forall i | 0 <= i < |p| ensures Carried(p, i) <==> Carried(q, if i == 0 then 0 else i - 1) { CarriedMerged(p, i); }
    assert forall k :: 2 <= k < |p| ==> q[k - 1] == p[k];
    if RunsCarry(p) {
      forall i | 0 <= i < |q| && q[i].kind.AsSequence? ensures Carried(q, i) {
        assert Carried(p, if i == 0 then 0 else i + 1);
      }
    }
  }

  lemma {:induction false} RunsCarryTail(p: Path)
    requires p != [] && (|p| > 1 ==> !Packable(p[0], p[1]))
    ensures RunsCarry(p) <==> (p[0].kind.AsSequence? ==> p[0].asns != []) && RunsCarry(p[1..])
  {
    hide Carried;
    var q := p[1..];
    if p[0].kind.AsSequence? { CarriedAlone(p); }
    forall i | 0 < i < |p| && p[i].kind.AsSequence? ensures Carried(p, i) <==> Carried(q, i - 1) { CarriedTail(p, i); }
    if RunsCarry(p) {
      forall i | 0 <= i < |q| && q[i].kind.AsSequence? ensures Carried(q, i) { assert Carried(p, i + 1); }
    }
  }

  lemma {:induction false} RunsCarryNormal(p: Path)
    ensures RunsCarry(p) <==> NoEmptySequence(NormalForm(p))
    decreases |p|
  {
    hide RunsCarry;
    if p == [] {
      NothingToCarry();
    } else if |p| > 1 && Packable(p[0], p[1]) {
      RunsCarryMerged(p);
      RunsCarryNormal([Append(p[0], p[1])] + p[2..]);
    } else {
      RunsCarryTail(p);
      RunsCarryNormal(p[1..]);
      NoEmptySequenceHead(NormalSegment(p[0]), NormalForm(p[1..]));
    }
  }

  lemma {:induction false} NothingToCarry()
    ensures RunsCarry([])
  {
  }

  lemma {:induction false} NoEmptySequenceHead(s: Segment, p: Path)
    ensures NoEmptySequence([s] + p) <==> (s.kind.AsSequence? ==> s.asns != []) && NoEmptySequence(p)
  {
    var q := [s] + p;
    assert q[0] == s && forall i :: 0 <= i < |p| ==> q[i + 1] == p[i];
  }

  /** The normal form is the one path that stands for the meaning exactly when every
      run of AS_SEQUENCEs has a member that is not empty, so that none is left empty. */
  lemma {:induction false} CanonicalExactly(p: Path)
    ensures NormalForm(p) == Build(Denote(p)) <==> RunsCarry(p)
    ensures RunsCarry(p) <==> NoEmptySequence(NormalForm(p))
  {
    hide RunsCarry;
    RunsCarryNormal(p);
    BuildNoEmpty(Denote(p));
    if NoEmptySequence(NormalForm(p)) {
      NormalFormIsBuild(NormalForm(p));
      NormaliseIdempotent(p);
      NormalFormDenote(p);
    }
  }

  /** Canonical form: two lists mean the same exactly when they normalise to
      the same list, so aspath_cmp and the hash decide equality of meaning. */
  lemma CanonicalForm(p: Path, q: Path)
    requires RunsCarry(p) && RunsCarry(q)
    ensures Denote(p) == Denote(q) <==> NormalForm(p) == NormalForm(q)
  {
    CanonicalExactly(p);
    CanonicalExactly(q);
    NormalFormDenote(p);
    NormalFormDenote(q);
  }

  /** An empty AS_SEQUENCE that is left means nothing, yet aspath_cmp sees it. */
  lemma EmptySequenceNotCanonical()
    ensures var p := [Segment(AsSequence, [])];
            Denote(p) == Denote([]) && NormalForm(p) != NormalForm([])
  {
    var p := [Segment(AsSequence, [])];
    assert NormalForm(p)[0] == p[0];
  }

  lemma {:induction false} NormalFormIsNormal(p: Path)
    ensures IsNormal(NormalForm(p))
    ensures p != [] ==> NormalForm(p) != [] && NormalForm(p)[0].kind == p[0].kind
    decreases |p|
  {
    if p == [] {
    } else if |p| > 1 && Packable(p[0], p[1]) {
      NormalFormIsNormal([Append(p[0], p[1])] + p[2..]);
    } else {
      NormalFormIsNormal(p[1..]);
      SetToSeqAscending(Members(p[0].asns));
    }
  }

  lemma {:induction false} NormalFormFixed(p: Path)
    requires IsNormal(p)
    ensures NormalForm(p) == p
  {
    if p != [] {
      NormalFormFixed(p[1..]);
      if p[0].kind.Unordered() { SetToSeqOfMembers(p[0].asns); }
      assert p == [p[0]] + p[1..];
    }
  }

  /** assegment_normalise is idempotent, on every list. */
  lemma NormaliseIdempotent(p: Path)
    ensures NormalForm(NormalForm(p)) == NormalForm(p)
  {
    NormalFormIsNormal(p);
    NormalFormFixed(NormalForm(p));
  }

  lemma {:induction false} NormalFormNonEmpty(p: Path)
    requires NoEmptySegment(p)
    ensures NoEmptySegment(NormalForm(p))
    decreases |p|
  {
    if p == [] {
    } else if |p| > 1 && Packable(p[0], p[1]) {
      NormalFormNonEmpty([Append(p[0], p[1])] + p[2..]);
    } else {
      NormalFormNonEmpty(p[1..]);
      SetToSeqAscending(Members(p[0].asns));
      assert p[0].asns[0] in Members(p[0].asns);
    }
  }

  // ------------------------------------------------------------------
  // Comparison, counting and loop detection
  // ------------------------------------------------------------------

  /** aspath_cmp */
  method Compare(p: Path, q: Path) returns (same: bool)
    ensures same <==> p == q
  {
    var k := 0;
    while k < |p| || k < |q|
      invariant k <= |p| && k <= |q|
      invariant p[..k] == q[..k]
      decreases |p| + |q| - k
    {
      if k >= |p| || k >= |q| { return false; }
      if p[k].kind != q[k].kind { return false; }
      if |p[k].asns| != |q[k].asns| { return false; }
      for i := 0 to |p[k].asns|
        invariant p[k].asns[..i] == q[k].asns[..i]
      {
        if p[k].asns[i] != q[k].asns[i] { return false; }
      }
      assert p[k].asns == p[k].asns[..|p[k].asns|] == q[k].asns;
      assert p[..k + 1] == p[..k] + [p[k]] && q[..k + 1] == q[..k] + [q[k]];
      k := k + 1;
    }
    assert p[..k] == p && q[..k] == q;
    return true;
  }

  ghost predicate HopCounted(h: Hop) { h.As? || h.OneOf? }

  /** The length of the path for route selection: confed hops do not count. */
  ghost function Hops(h: seq<Hop>): nat {
    if h == [] then 0 else (if HopCounted(h[0]) then 1 else 0) + Hops(h[1..])
  }

  /** Members of confed sequences plus one for each confed set. */
  ghost function ConfedHops(h: seq<Hop>): nat {
    if h == [] then 0
    else (match h[0] case ConfedRun(s) => |s| case ConfedOneOf(_) => 1 case _ => 0) + ConfedHops(h[1..])
  }

  lemma {:induction false} HopsConcat(g: seq<Hop>, h: seq<Hop>)
    ensures Hops(g + h) == Hops(g) + Hops(h)
    ensures ConfedHops(g + h) == ConfedHops(g) + ConfedHops(h)
  {
    if g == [] {
      assert g + h == h;
    } else {
      assert (g + h)[1..] == g[1..] + h;
      HopsConcat(g[1..], h);
    }
  }

  lemma {:induction false} HopsOfSequence(asns: seq<Asn>)
    ensures Hops(AsHops(asns)) == |asns| && ConfedHops(AsHops(asns)) == 0
  {
    if asns != [] {
      assert AsHops(asns)[1..] == AsHops(asns[1..]);
      HopsOfSequence(asns[1..]);
    }
  }

  lemma HopsOfSegment(s: Segment)
    ensures Hops(SegHops(s)) == (match s.kind case AsSequence => |s.asns| case AsSet => 1 case _ => 0)
    ensures ConfedHops(SegHops(s)) == (match s.kind case ConfedSequence => |s.asns| case ConfedSet => 1 case _ => 0)
  {
    HopsOfSequence(s.asns);
  }

  /** aspath_count_hops and aspath_count_confeds in one walk each. */
  method CountHops(p: Path) returns (count: nat)
    ensures count == Hops(Denote(p))
  {
    count := 0;
    ghost var all := Hops(Denote(p));
    for k := 0 to |p|
      invariant count + Hops(Denote(p[k..])) == all
    {
      HopsOfSegment(p[k]);
      HopsConcat(SegHops(p[k]), Denote(p[k + 1..]));
      assert p[k..][1..] == p[k + 1..];
      if p[k].kind.AsSequence? {
        count := count + |p[k].asns|;
      } else if p[k].kind.AsSet? {
        count := count + 1;
      }
    }
  }

  method CountConfeds(p: Path) returns (count: nat)
    ensures count == ConfedHops(Denote(p))
  {
    count := 0;
    ghost var all := ConfedHops(Denote(p));
    for k := 0 to |p|
      invariant count + ConfedHops(Denote(p[k..])) == all
    {
      HopsOfSegment(p[k]);
      HopsConcat(SegHops(p[k]), Denote(p[k + 1..]));
      assert p[k..][1..] == p[k + 1..];
      if p[k].kind.ConfedSequence? {
        count := count + |p[k].asns|;
      } else if p[k].kind.ConfedSet? {
        count := count + 1;
      }
    }
  }

  /** Every AS number a path mentions. */
  function AsnsOf(p: Path): set<Asn> {
    if p == [] then {} else Members(p[0].asns) + AsnsOf(p[1..])
  }

  lemma {:induction false} AsnsConcat(p: Path, q: Path)
    ensures AsnsOf(p + q) == AsnsOf(p) + AsnsOf(q)
  {
    if p == [] {
      assert p + q == q;
    } else {
      assert (p + q)[1..] == p[1..] + q;
      AsnsConcat(p[1..], q);
    }
  }

  /** Normalising never hides an AS number from the loop check. */
  lemma {:induction false} NormalFormAsns(p: Path)
    ensures AsnsOf(NormalForm(p)) == AsnsOf(p)
    decreases |p|
  {
    if p == [] {
    } else if |p| > 1 && Packable(p[0], p[1]) {
      var q := [Append(p[0], p[1])] + p[2..];
      NormalFormAsns(q);
      assert q[1..] == p[2..] == p[1..][1..];
      assert Members(p[0].asns + p[1].asns) == Members(p[0].asns) + Members(p[1].asns);
    } else {
      NormalFormAsns(p[1..]);
      SetToSeqAscending(Members(p[0].asns));
      assert ([NormalSegment(p[0])] + NormalForm(p[1..]))[1..] == NormalForm(p[1..]);
    }
  }

  /** aspath_loop_check: how often the AS number is in the path. */
  method LoopCheck(p: Path, asn: Asn) returns (count: nat)
    ensures count == multiset(Flat(p))[asn]
    ensures count > 0 <==> asn in AsnsOf(p)
  {
    hide Flat;
    count := 0;
    OccursAll(p, asn);
    for k := 0 to |p|
      invariant count + multiset(Flat(p[k..]))[asn] == multiset(Flat(p))[asn]
    {
      ghost var before := count;
      for i := 0 to |p[k].asns|
        invariant count == before + multiset(p[k].asns[..i])[asn]
      {
        OccursOne(p[k].asns, i, asn);
        if p[k].asns[i] == asn { count := count + 1; }
      }
      OccursSegment(p, k, asn);
    }
    OccursNone(p, asn);
    FlatAsns(p);
  }

  lemma {:induction false} OccursAll(p: Path, asn: Asn)
    ensures Flat(p[0..]) == Flat(p)
  {
    assert p[0..] == p;
  }

  lemma {:induction false} OccursOne(s: seq<Asn>, i: nat, asn: Asn)
    requires i < |s|
    ensures multiset(s[..0])[asn] == 0
    ensures multiset(s[..i + 1])[asn] == multiset(s[..i])[asn] + if s[i] == asn then 1 else 0
  {
    assert s[..i + 1] == s[..i] + [s[i]];
  }

  lemma {:induction false} OccursSegment(p: Path, k: nat, asn: Asn)
    requires k < |p|
    ensures var s := p[k].asns;
            multiset(Flat(p[k..]))[asn] == multiset(s[..|s|])[asn] + multiset(Flat(p[k + 1..]))[asn]
  {
    assert p[k..][1..] == p[k + 1..] && p[k].asns[..|p[k].asns|] == p[k].asns;
    assert Flat(p[k..]) == p[k].asns + Flat(p[k + 1..]);
  }

  lemma {:induction false} OccursNone(p: Path, asn: Asn)
    ensures multiset(Flat(p[|p|..]))[asn] == 0
  {
  }

  lemma {:induction false} FlatAsns(p: Path)
    ensures forall a :: a in Flat(p) <==> a in AsnsOf(p)
  {
    if p != [] { FlatAsns(p[1..]); }
  }
}
