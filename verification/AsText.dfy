/**
 AS paths as text (aspath_make_str_count and aspath_str2aspath in
 bgpd/bgp_aspath.c).  The text is also the key under which a path is hashed, so
 what it tells apart matters.
 */
module AsText {
  import opened Common
  import opened AsPath

  // ------------------------------------------------------------------
  // Numbers
  // ------------------------------------------------------------------

  function Digit(d: nat): (c: char)
    requires d < 10
    ensures IsDigit(c) && DigitValue(c) == d
  {
    ['0', '1', '2', '3', '4', '5', '6', '7', '8', '9'][d]
  }

  predicate IsDigit(c: char) { '0' <= c <= '9' }

  function DigitValue(c: char): nat
    requires IsDigit(c)
  {
    (c - '0') as int
  }

  /** A number as %u prints it. */
  function Decimal(n: nat): (s: string)
    ensures s != [] && forall i :: 0 <= i < |s| ==> IsDigit(s[i])
  {
    if n < 10 then [Digit(n)] else Decimal(n / 10) + [Digit(n % 10)]
  }

  function Power10(k: nat): nat { if k == 0 then 1 else 10 * Power10(k - 1) }

  lemma {:induction false} DecimalLength(n: nat, k: nat)
    requires k > 0 && n < Power10(k)
    ensures |Decimal(n)| <= k
  {
    if n >= 10 { DecimalLength(n / 10, k - 1); }
  }

  lemma {:induction false} AsnLength(a: Asn)
    ensures |Decimal(a)| <= 10
  {
    assert Power10(10) == 10 * (10 * (10 * (10 * Power10(6)))) && Power10(6) == 10 * (10 * (10 * (10 * (10 * (10 * Power10(0))))));
    DecimalLength(a, 10);
  }

  // ------------------------------------------------------------------
  // Printing
  // ------------------------------------------------------------------

  function Separator(k: SegKind): char { if k.Unordered() then ',' else ' ' }

  function Opening(k: SegKind): string {
    match k case AsSequence => "" case AsSet => "{" case ConfedSequence => "(" case ConfedSet => "["
  }

  function Closing(k: SegKind): string {
    match k case AsSequence => "" case AsSet => "}" case ConfedSequence => ")" case ConfedSet => "]"
  }

  function Joined(asns: seq<Asn>, sep: char): string {
    if asns == [] then ""
    else if |asns| == 1 then Decimal(asns[0])
    else Decimal(asns[0]) + [sep] + Joined(asns[1..], sep)
  }

  function SegText(s: Segment): string { Opening(s.kind) + Joined(s.asns, Separator(s.kind)) + Closing(s.kind) }

  /** The text of a path: its segments with a space between them. */
  function Text(p: Path): string {
    if p == [] then "" else if |p| == 1 then SegText(p[0]) else SegText(p[0]) + " " + Text(p[1..])
  }

  lemma {:induction false} JoinedLength(asns: seq<Asn>, sep: char)
    ensures |Joined(asns, sep)| <= 11 * |asns|
  {
    if asns != [] {
      AsnLength(asns[0]);
      if |asns| > 1 { JoinedLength(asns[1..], sep); }
    }
  }

  // ------------------------------------------------------------------
  // Tokens
  // ------------------------------------------------------------------

  datatype Token = Value(asn: Asn) | Open(kind: SegKind) | Close(kind: SegKind) | Unknown

  predicate IsSpace(c: char) { c == ' ' || '\t' <= c <= '\r' }

  predicate Skipped(c: char) { IsSpace(c) || c == ',' }

  /** The digits at the start of a text, taken into `asval`, which wraps around at
      32 bits. */
  function Digits(s: string, asval: Asn): (r: (Asn, string))
    ensures |r.1| <= |s|
  {
    if s == "" || !IsDigit(s[0]) then (asval, s)
    else Digits(s[1..], (asval as int * 10 + DigitValue(s[0])) % 0x1_0000_0000)
  }

  function Bracket(c: char): Option<Token> {
    if c == '{' then Some(Open(AsSet))
    else if c == '}' then Some(Close(AsSet))
    else if c == '(' then Some(Open(ConfedSequence))
    else if c == ')' then Some(Close(ConfedSequence))
    else if c == '[' then Some(Open(ConfedSet))
    else if c == ']' then Some(Close(ConfedSet))
    else None
  }

  /** aspath_gettoken */
  function GetToken(s: string): (r: Option<(Token, string)>)
    ensures r.Some? ==> |r.value.1| < |s|
  {
    if s == "" then None
    else if Skipped(s[0]) then GetToken(s[1..])
    else if Bracket(s[0]).Some? then Some((Bracket(s[0]).value, s[1..]))
    else if IsDigit(s[0]) then
      var d := Digits(s[1..], DigitValue(s[0]));
      Some((Value(d.0), d.1))
    else Some((Unknown, s[1..]))
  }

  function Tokens(s: string): seq<Token>
    decreases |s|
  {
    match GetToken(s)
    case None => []
    case Some(r) => [r.0] + Tokens(r.1)
  }

  /** The loops of aspath_gettoken. */
  method NextToken(s: string) returns (r: Option<(Token, string)>)
    ensures r == GetToken(s)
  {
    var i := 0;
    while i < |s| && Skipped(s[i])
      invariant 0 <= i <= |s| && GetToken(s) == GetToken(s[i..])
    {
      assert s[i..][1..] == s[i + 1..];
      i := i + 1;
    }
    if i == |s| { return None; }
    var b := Bracket(s[i]);
    assert s[i..][1..] == s[i + 1..];
    if b.Some? { return Some((b.value, s[i + 1..])); }
    if !IsDigit(s[i]) { return Some((Unknown, s[i + 1..])); }
    var asval: Asn, k := DigitValue(s[i]), i + 1;
    while k < |s| && IsDigit(s[k])
      invariant i < k <= |s| && Digits(s[i + 1..], DigitValue(s[i])) == Digits(s[k..], asval)
    {
      assert s[k..][1..] == s[k + 1..];
      asval := (asval as int * 10 + DigitValue(s[k])) % 0x1_0000_0000;
      k := k + 1;
    }
    return Some((Value(asval), s[k..]));
  }

  // ------------------------------------------------------------------
  // Parsing
  // ------------------------------------------------------------------

  /** The segments so far, and whether the next number needs a segment. */
  datatype Parser = Parser(path: Path, kind: SegKind, needType: bool)

  const START := Parser([], AsSequence, true)

  /** aspath_as_add */
  function AddAsn(p: Path, a: Asn): Path {
    if p == [] then p else p[|p| - 1 := p[|p| - 1].(asns := p[|p| - 1].asns + [a])]
  }

  function Advance(st: Parser, t: Token): Option<Parser> {
    match t
    case Value(a) =>
      var p := if st.needType then st.path + [Segment(st.kind, [])] else st.path;
      Some(Parser(AddAsn(p, a), st.kind, false))
    case Open(k) => Some(Parser(st.path + [Segment(k, [])], k, false))
    case Close(_) => Some(Parser(st.path, AsSequence, true))
    case Unknown => None
  }

  function AdvanceAll(st: Parser, ts: seq<Token>): Option<Parser>
    decreases ts
  {
    if ts == [] then Some(st)
    else
      match Advance(st, ts[0])
      case None => None
      case Some(st') => AdvanceAll(st', ts[1..])
  }

  function Parsed(s: string): Option<Path> {
    match AdvanceAll(START, Tokens(s))
    case None => None
    case Some(st) => Some(st.path)
  }

  /** aspath_str2aspath */
  method StrToAspath(str: string) returns (r: Option<Path>)
    ensures r == Parsed(str)
  {
    var st, s := START, str;
    while true
      invariant AdvanceAll(START, Tokens(str)) == AdvanceAll(st, Tokens(s))
      decreases |s|
    {
      var t := NextToken(s);
      if t.None? { return Some(st.path); }
      ghost var ts := Tokens(s);
      assert ts[0] == t.value.0 && ts[1..] == Tokens(t.value.1);
      var next := Advance(st, t.value.0);
      if next.None? { return None; }
      st, s := next.value, t.value.1;
    }
  }

  // ------------------------------------------------------------------
  // What is read of any text
  // ------------------------------------------------------------------

  /** A character that has a meaning in a path: space, comma, bracket or digit. */
  predicate Legal(c: char) { c == ' ' || '\t' <= c <= '\r' || c == ',' || c in "{}()[]" || '0' <= c <= '9' }

  ghost predicate AllLegal(s: string) { forall i :: 0 <= i < |s| ==> Legal(s[i]) }

  lemma {:induction false} LegalHead(s: string)
    requires s != ""
    ensures AllLegal(s) <==> Legal(s[0]) && AllLegal(s[1..])
  {
    assert forall i :: 0 < i < |s| ==> s[i] == s[1..][i - 1];
  }

  lemma {:induction false} DigitsLegal(s: string, n: Asn)
    ensures AllLegal(s) <==> AllLegal(Digits(s, n).1)
  {
    if s != "" && IsDigit(s[0]) {
      LegalHead(s);
      DigitsLegal(s[1..], (n as int * 10 + DigitValue(s[0])) % 0x1_0000_0000);
    }
  }

  lemma {:induction false} TokenLegal(s: string)
    ensures var t := GetToken(s);
            AllLegal(s) <==> t.None? || (!t.value.0.Unknown? && AllLegal(t.value.1))
  {
    if s != "" {
      LegalHead(s);
      if Skipped(s[0]) {
        TokenLegal(s[1..]);
      } else if IsDigit(s[0]) {
        DigitsLegal(s[1..], DigitValue(s[0]));
      }
    }
  }

  lemma {:induction false} TokensLegal(s: string)
    ensures AllLegal(s) <==> Unknown !in Tokens(s)
    decreases |s|
  {
    hide AllLegal, GetToken;
    TokenLegal(s);
    var t := GetToken(s);
    if t.Some? {
      TokensLegal(t.value.1);
      assert Tokens(s) == [t.value.0] + Tokens(t.value.1);
    }
  }

  lemma {:induction false} AdvanceFails(st: Parser, ts: seq<Token>)
    ensures AdvanceAll(st, ts).None? <==> Unknown in ts
    decreases ts
  {
    if ts != [] {
      var n := Advance(st, ts[0]);
      if n.Some? { AdvanceFails(n.value, ts[1..]); }
      assert ts == [ts[0]] + ts[1..];
    }
  }

  /** Exactly the texts with a character that has no meaning are refused; brackets need
      not match. */
  lemma {:induction false} RefusedExactly(s: string)
    ensures Parsed(s).None? <==> exists i :: 0 <= i < |s| && !Legal(s[i])
  {
    TokensLegal(s);
    AdvanceFails(START, Tokens(s));
    hide Tokens, AdvanceAll;
  }

  /** The numbers of a text in order. */
  ghost function Numbers(ts: seq<Token>): seq<Asn> {
    if ts == [] then [] else (if ts[0].Value? then [ts[0].asn] else []) + Numbers(ts[1..])
  }

  lemma {:induction false} FlatAdd(p: Path, a: Asn)
    requires p != []
    ensures Flat(AddAsn(p, a)) == Flat(p) + [a]
  {
    var init, last := p[..|p| - 1], p[|p| - 1];
    assert p == init + [last] && AddAsn(p, a) == init + [last.(asns := last.asns + [a])];
    FlatConcat(init, [last]);
    FlatConcat(init, [last.(asns := last.asns + [a])]);
    FlatOne(last);
    FlatOne(last.(asns := last.asns + [a]));
  }

  lemma {:induction false} FlatOne(s: Segment)
    ensures Flat([s]) == s.asns
  {
    assert [s][1..] == [];
  }

  lemma {:induction false} AdvanceNumbers(st: Parser, ts: seq<Token>)
    requires st.needType || st.path != []
    ensures AdvanceAll(st, ts).Some? ==> Flat(AdvanceAll(st, ts).value.path) == Flat(st.path) + Numbers(ts)
    decreases ts
  {
    if ts != [] {
      var n := Advance(st, ts[0]);
      if n.Some? {
        AdvanceKeeps(st, ts[0]);
        AdvanceNumbers(n.value, ts[1..]);
        hide Advance, Flat;
      }
    }
  }

  lemma {:induction false} AdvanceKeeps(st: Parser, t: Token)
    requires st.needType || st.path != []
    ensures var n := Advance(st, t);
            n.Some? ==> (n.value.needType || n.value.path != [])
                        && Flat(n.value.path) == Flat(st.path) + if t.Value? then [t.asn] else []
  {
    match t
    case Value(a) =>
      var p := if st.needType then st.path + [Segment(st.kind, [])] else st.path;
      FlatAdd(p, a);
      FlatConcat(st.path, [Segment(st.kind, [])]);
      FlatOne(Segment(st.kind, []));
    case Open(k) =>
      FlatConcat(st.path, [Segment(k, [])]);
      FlatOne(Segment(k, []));
    case Close(_) =>
    case Unknown =>
  }

  /** Whatever is accepted, no number of the text is lost, added or moved. */
  lemma {:induction false} NumbersKept(s: string)
    ensures Parsed(s).Some? ==> Flat(Parsed(s).value) == Numbers(Tokens(s))
  {
    AdvanceNumbers(START, Tokens(s));
    hide Tokens, AdvanceAll;
    assert [] + Numbers(Tokens(s)) == Numbers(Tokens(s));
  }

  /** What a string of digits says. */
  function DecimalValue(ds: string): nat
    requires forall i :: 0 <= i < |ds| ==> IsDigit(ds[i])
  {
    if ds == "" then 0 else 10 * DecimalValue(ds[..|ds| - 1]) + DigitValue(ds[|ds| - 1])
  }

  lemma {:induction false} DigitsTake(ds: string, k: nat, t: string)
    requires k <= |ds| && forall i :: 0 <= i < |ds| ==> IsDigit(ds[i])
    ensures Digits(ds + t, 0) == Digits(ds[k..] + t, DecimalValue(ds[..k]) % 0x1_0000_0000)
  {
    if k == 0 {
      assert ds[0..] == ds && ds[..0] == "";
    } else {
      DigitsTake(ds, k - 1, t);
      var x := ds[k - 1..] + t;
      assert x[0] == ds[k - 1] && x[1..] == ds[k..] + t;
      assert ds[..k][..k - 1] == ds[..k - 1] && ds[..k][k - 1] == ds[k - 1];
      WrappedDigit(DecimalValue(ds[..k - 1]), DigitValue(ds[k - 1]));
    }
  }

  lemma {:induction false} WrappedDigit(n: nat, d: nat)
    ensures (n % 0x1_0000_0000 * 10 + d) % 0x1_0000_0000 == (10 * n + d) % 0x1_0000_0000
  {
    var q, r := n / 0x1_0000_0000, n % 0x1_0000_0000;
    assert 10 * n + d == (r * 10 + d) + 10 * q * 0x1_0000_0000;
  }

  /** A string of digits is one number, modulo 2^32. */
  lemma {:induction false} NumberWraps(ds: string, t: string)
    requires ds != "" && (forall i :: 0 <= i < |ds| ==> IsDigit(ds[i])) && Stops(t)
    ensures GetToken(ds + t) == Some((Value(DecimalValue(ds) % 0x1_0000_0000), t))
  {
    DigitsTake(ds, |ds|, t);
    assert ds[|ds|..] + t == t && ds[..|ds|] == ds;
    var s := ds + t;
    assert s[0] == ds[0];
    FirstDigit(s);
  }

  lemma {:induction false} FirstDigit(s: string)
    requires s != "" && IsDigit(s[0])
    ensures Digits(s, 0) == Digits(s[1..], DigitValue(s[0]))
    ensures GetToken(s) == Some((Value(Digits(s, 0).0), Digits(s, 0).1))
  {
  }

  // ------------------------------------------------------------------
  // The tokens of a printed path
  // ------------------------------------------------------------------

  /** A number ends here. */
  ghost predicate Stops(s: string) { s == "" || !IsDigit(s[0]) }

  /** The digits of a number are read back, without wrapping around. */
  lemma {:induction false} DecimalRead(n: Asn, t: string)
    ensures Digits(Decimal(n)[1..] + t, DigitValue(Decimal(n)[0])) == Digits(t, n)
    decreases n
  {
    if n < 10 {
      assert Decimal(n)[1..] + t == t;
    } else {
      var c, d := Digit(n % 10), Decimal(n / 10);
      DecimalRead(n / 10, [c] + t);
      assert Decimal(n) == d + [c];
      hide Decimal, Digit;
      assert (d + [c])[1..] + t == d[1..] + ([c] + t) && (d + [c])[0] == d[0];
      DigitRead(n, t);
    }
  }

  lemma {:induction false} DigitRead(n: Asn, t: string)
    ensures Digits([Digit(n % 10)] + t, n / 10) == Digits(t, n)
  {
    var c := Digit(n % 10);
    assert ([c] + t)[1..] == t;
    assert n / 10 * 10 + DigitValue(c) == n;
  }

  lemma {:induction false} NumberToken(n: Asn, t: string)
    requires Stops(t)
    ensures Tokens(Decimal(n) + t) == [Value(n)] + Tokens(t)
  {
    hide Tokens, Decimal;
    var s := Decimal(n) + t;
    assert s[1..] == Decimal(n)[1..] + t && s[0] == Decimal(n)[0];
    DecimalRead(n, t);
    DigitFirst(s, n, t);
    TokensFirst(s, Value(n), t);
  }

  lemma {:induction false} DigitFirst(s: string, n: Asn, t: string)
    requires s != "" && IsDigit(s[0]) && Digits(s[1..], DigitValue(s[0])) == Digits(t, n) && Stops(t)
    ensures GetToken(s) == Some((Value(n), t))
  {
  }

  lemma {:induction false} TokensFirst(s: string, k: Token, t: string)
    requires GetToken(s) == Some((k, t))
    ensures Tokens(s) == [k] + Tokens(t)
  {
    hide GetToken;
  }

  lemma {:induction false} SkippedToken(c: char, t: string)
    requires Skipped(c)
    ensures Tokens([c] + t) == Tokens(t)
  {
    assert ([c] + t)[1..] == t;
    assert GetToken([c] + t) == GetToken(t);
  }

  lemma {:induction false} BracketToken(c: char, t: string)
    requires Bracket(c).Some?
    ensures Tokens([c] + t) == [Bracket(c).value] + Tokens(t)
  {
    assert ([c] + t)[1..] == t;
  }

  function Values(asns: seq<Asn>): seq<Token> {
    if asns == [] then [] else [Value(asns[0])] + Values(asns[1..])
  }

  lemma {:induction false} JoinedTokens(asns: seq<Asn>, sep: char, t: string)
    requires (sep == ',' || sep == ' ') && Stops(t)
    ensures Tokens(Joined(asns, sep) + t) == Values(asns) + Tokens(t)
  {
    hide Tokens, Decimal, Joined, Stops;
    JoinedShort(asns, sep);
    if asns == [] {
      assert "" + t == t && [] + Tokens(t) == Tokens(t);
    } else if |asns| == 1 {
      NumberToken(asns[0], t);
      assert Values(asns) == [Value(asns[0])];
    } else {
      var rest := Joined(asns[1..], sep) + t;
      SeparatorStops(sep, rest);
      NumberToken(asns[0], [sep] + rest);
      SkippedToken(sep, rest);
      JoinedTokens(asns[1..], sep, t);
      JoinedThen(asns, sep, t);
      TokenAssoc([Value(asns[0])], Values(asns[1..]), Tokens(t));
    }
  }

  lemma {:induction false} JoinedShort(asns: seq<Asn>, sep: char)
    ensures asns == [] ==> Joined(asns, sep) == ""
    ensures |asns| == 1 ==> Joined(asns, sep) == Decimal(asns[0])
  {
    hide Decimal;
  }

  lemma {:induction false} SeparatorStops(sep: char, rest: string)
    requires sep == ',' || sep == ' '
    ensures Stops([sep] + rest)
  {
  }

  lemma {:induction false} TokenAssoc(x: seq<Token>, y: seq<Token>, z: seq<Token>)
    ensures (x + y) + z == x + (y + z)
  {
  }

  lemma {:induction false} JoinedThen(asns: seq<Asn>, sep: char, t: string)
    requires |asns| > 1
    ensures Joined(asns, sep) + t == Decimal(asns[0]) + ([sep] + (Joined(asns[1..], sep) + t))
  {
    hide Decimal;
  }

  function SegTokens(s: Segment): seq<Token> {
    if s.kind.AsSequence? then Values(s.asns) else [Open(s.kind)] + Values(s.asns) + [Close(s.kind)]
  }

  function PathTokens(p: Path): seq<Token> { if p == [] then [] else SegTokens(p[0]) + PathTokens(p[1..]) }

  lemma {:induction false} SegTextTokens(s: Segment, t: string)
    requires Stops(t)
    ensures Tokens(SegText(s) + t) == SegTokens(s) + Tokens(t)
  {
    hide Tokens, Joined, Values;
    var j, sep := Joined(s.asns, Separator(s.kind)), Separator(s.kind);
    if s.kind.AsSequence? {
      JoinedTokens(s.asns, sep, t);
      assert SegText(s) + t == j + t;
    } else {
      var o, c := Opening(s.kind)[0], Closing(s.kind)[0];
      BracketToken(c, t);
      JoinedTokens(s.asns, sep, [c] + t);
      BracketToken(o, j + ([c] + t));
      assert SegText(s) + t == [o] + (j + ([c] + t));
      assert SegTokens(s) + Tokens(t) == [Open(s.kind)] + (Values(s.asns) + ([Close(s.kind)] + Tokens(t)));
    }
  }

  lemma {:induction false} TextTokens(p: Path)
    ensures Tokens(Text(p)) == PathTokens(p)
  {
    if p == [] {
    } else {
      assert PathTokens([]) == [] && Tokens("") == [];
      hide Tokens, SegText, SegTokens;
      if |p| == 1 {
        SegTextTokens(p[0], "");
        assert SegText(p[0]) + "" == SegText(p[0]);
      } else {
        var t := " " + Text(p[1..]);
        SegTextTokens(p[0], t);
        SkippedToken(' ', Text(p[1..]));
        TextTokens(p[1..]);
        assert Text(p) == SegText(p[0]) + t;
      }
    }
  }

  // ------------------------------------------------------------------
  // Round trip
  // ------------------------------------------------------------------

  /** What the text cannot tell apart: neighbouring AS_SEQUENCEs run together, and
      an empty one leaves no trace. */
  function Coalesced(p: Path): Path {
    if p == [] then []
    else if !p[0].kind.AsSequence? then [p[0]] + Coalesced(p[1..])
    else if p[0].asns == [] then Coalesced(p[1..])
    else Glued([p[0]], Coalesced(p[1..]))
  }

  /** `r` after `q`, whose last segment is still open. */
  function Glued(q: Path, r: Path): Path
    requires q != []
  {
    var last := |q| - 1;
    if r != [] && r[0].kind.AsSequence? then q[..last] + [Append(q[last], r[0])] + r[1..] else q + r
  }

  lemma {:induction false} AdvanceAllConcat(st: Parser, ts: seq<Token>, us: seq<Token>)
    ensures AdvanceAll(st, ts + us) == match AdvanceAll(st, ts) case None => None case Some(st') => AdvanceAll(st', us)
    decreases ts
  {
    hide Advance;
    if ts == [] {
      assert ts + us == us;
    } else {
      assert (ts + us)[1..] == ts[1..] + us;
      match Advance(st, ts[0])
      case None =>
      case Some(st') => AdvanceAllConcat(st', ts[1..], us);
    }
  }

  ghost function Extended(q: Path, asns: seq<Asn>): Path
    requires q != []
  {
    q[|q| - 1 := q[|q| - 1].(asns := q[|q| - 1].asns + asns)]
  }

  /** Numbers go to the segment that is open. */
  lemma {:induction false} ValuesAdvance(st: Parser, asns: seq<Asn>)
    requires !st.needType && st.path != []
    ensures AdvanceAll(st, Values(asns)) == Some(st.(path := Extended(st.path, asns)))
    decreases asns
  {
    var q, last := st.path, |st.path| - 1;
    if asns == [] {
      assert q[last].asns + [] == q[last].asns;
      assert Extended(q, asns) == q;
    } else {
      var st1 := st.(path := AddAsn(q, asns[0]));
      assert Advance(st, Value(asns[0])) == Some(st1);
      ExtendedMore(q, asns);
      hide Advance, AddAsn, Extended;
      assert Values(asns)[1..] == Values(asns[1..]);
      ValuesAdvance(st1, asns[1..]);
    }
  }

  lemma {:induction false} ExtendedMore(q: Path, asns: seq<Asn>)
    requires q != [] && asns != []
    ensures AddAsn(q, asns[0]) != [] && Extended(AddAsn(q, asns[0]), asns[1..]) == Extended(q, asns)
  {
    var last := |q| - 1;
    assert q[last].asns + [asns[0]] + asns[1..] == q[last].asns + asns;
  }

  lemma {:induction false} FirstValues(st: Parser, asns: seq<Asn>)
    requires st.needType && asns != []
    ensures AdvanceAll(st, Values(asns)) == Some(Parser(st.path + [Segment(st.kind, asns)], st.kind, false))
  {
    var q := st.path + [Segment(st.kind, [])];
    var st1 := Parser(q, st.kind, false);
    ValuesAdvance(st1, asns);
    assert [] + asns == asns;
    assert Extended(q, asns) == st.path + [Segment(st.kind, asns)];
    assert Advance(st, Value(asns[0])) == Advance(st1, Value(asns[0]));
  }

  lemma {:induction false} BracketedAdvance(st: Parser, s: Segment)
    requires !s.kind.AsSequence?
    ensures AdvanceAll(st, SegTokens(s)) == Some(Parser(st.path + [s], AsSequence, true))
  {
    var st1 := Parser(st.path + [Segment(s.kind, [])], s.kind, false);
    ValuesAdvance(st1, s.asns);
    assert [] + s.asns == s.asns;
    assert Extended(st1.path, s.asns) == st.path + [s];
    var st2 := st1.(path := st.path + [s]);
    AdvanceAllConcat(st1, Values(s.asns), [Close(s.kind)]);
    AdvanceOne(st2, Close(s.kind));
    assert SegTokens(s) == [Open(s.kind)] + (Values(s.asns) + [Close(s.kind)]);
    assert SegTokens(s)[1..] == Values(s.asns) + [Close(s.kind)];
  }

  lemma {:induction false} AdvanceOne(st: Parser, t: Token)
    ensures AdvanceAll(st, [t]) == Advance(st, t)
  {
    assert [t][1..] == [];
  }

  lemma {:induction false} GluedAfter(q: Path, s: Segment, r: Path)
    ensures Glued(q + [s], r) == q + Glued([s], r)
  {
    assert (q + [s])[..|q|] == q;
    if r != [] && r[0].kind.AsSequence? {
      var x := [Append(s, r[0])] + r[1..];
      assert [s][..0] + [Append(s, r[0])] + r[1..] == x;
      assert q + [Append(s, r[0])] + r[1..] == q + x;
    } else {
      assert (q + [s]) + r == q + ([s] + r);
    }
  }

  lemma {:induction false} GluedOnto(q: Path, s: Segment, r: Path)
    requires q != [] && s.kind.AsSequence?
    ensures Glued(Extended(q, s.asns), r) == Glued(q, Glued([s], r))
  {
    var last := |q| - 1;
    var g := Glued([s], r);
    assert Extended(q, s.asns)[..last] == q[..last] && Extended(q, s.asns) == q[..last] + [Append(q[last], s)];
    if r != [] && r[0].kind.AsSequence? {
      assert g == [Append(s, r[0])] + r[1..] && g[1..] == r[1..];
      assert q[last].asns + s.asns + r[0].asns == q[last].asns + (s.asns + r[0].asns);
    } else {
      assert g == [s] + r && g[1..] == r;
    }
  }

  lemma {:induction false} GluedPlain(q: Path, r: Path)
    requires q != [] && (r == [] || !r[0].kind.AsSequence?)
    ensures Glued(q, r) == q + r
  {
  }

  /** What the path should be after the tokens of `p`. */
  ghost function After(st: Parser, p: Path): Path
    requires st.needType || st.path != []
  {
    if st.needType then st.path + Coalesced(p) else Glued(st.path, Coalesced(p))
  }

  /** The parser on the tokens of one segment, between segments. */
  lemma {:induction false} SegmentAdvance(st: Parser, p: Path)
    requires st.kind.AsSequence? && (st.needType || st.path != []) && p != []
    ensures var r := AdvanceAll(st, SegTokens(p[0]));
            && r.Some? && r.value.kind.AsSequence? && (r.value.needType || r.value.path != [])
            && After(r.value, p[1..]) == After(st, p)
  {
    var s, c := p[0], Coalesced(p[1..]);
    if !s.kind.AsSequence? {
      BracketedAdvance(st, s);
      assert (st.path + [s]) + c == st.path + ([s] + c);
      if !st.needType { GluedPlain(st.path, [s] + c); }
    } else if s.asns == [] {
      NoTokens(st);
    } else if st.needType {
      FirstValues(st, s.asns);
      GluedAfter(st.path, s, c);
    } else {
      ValuesAdvance(st, s.asns);
      GluedOnto(st.path, s, c);
    }
    hide AdvanceAll, Glued, Extended, Values;
  }

  lemma {:induction false} PathAdvance(st: Parser, p: Path)
    requires st.kind.AsSequence? && (st.needType || st.path != [])
    ensures AdvanceAll(st, PathTokens(p)).Some? && AdvanceAll(st, PathTokens(p)).value.path == After(st, p)
    decreases p
  {
    if p == [] {
    } else {
      AdvanceAllConcat(st, SegTokens(p[0]), PathTokens(p[1..]));
      SegmentAdvance(st, p);
      hide AdvanceAll, After, SegTokens;
      PathAdvance(AdvanceAll(st, SegTokens(p[0])).value, p[1..]);
    }
  }

  lemma {:induction false} NoTokens(st: Parser)
    ensures AdvanceAll(st, []) == Some(st)
  {
  }

  /** Reading back what was printed gives the path, up to its AS_SEQUENCEs. */
  lemma {:induction false} TextRoundTrip(p: Path)
    ensures Parsed(Text(p)) == Some(Coalesced(p))
  {
    TextTokens(p);
    PathAdvance(START, p);
    assert [] + Coalesced(p) == Coalesced(p);
  }

  lemma {:induction false} CoalescedFixed(p: Path)
    requires NoEmptySequence(p) && NoAdjacentSequences(p)
    ensures Coalesced(p) == p
  {
    if p != [] {
      CoalescedFixed(p[1..]);
      assert p == [p[0]] + p[1..];
    }
  }

  lemma {:induction false} CoalescedSeparate(p: Path)
    ensures NoEmptySequence(Coalesced(p)) && NoAdjacentSequences(Coalesced(p))
  {
    if p != [] { CoalescedSeparate(p[1..]); }
  }

  /** The round trip is exact for just the paths without an empty AS_SEQUENCE and
      without two in a row. */
  lemma {:induction false} TextExact(p: Path)
    ensures Parsed(Text(p)) == Some(p) <==> NoEmptySequence(p) && NoAdjacentSequences(p)
  {
    TextRoundTrip(p);
    CoalescedSeparate(p);
    if NoEmptySequence(p) && NoAdjacentSequences(p) { CoalescedFixed(p); }
  }

  lemma {:induction false} GluedDenote(s: Segment, r: Path)
    requires s.kind.AsSequence?
    ensures Denote(Glued([s], r)) == SegHops(s) + Denote(r)
  {
    var g := Glued([s], r);
    if r != [] && r[0].kind.AsSequence? {
      AppendHops(s, r[0]);
      assert g == [Append(s, r[0])] + r[1..] && g[1..] == r[1..];
      assert (SegHops(s) + SegHops(r[0])) + Denote(r[1..]) == SegHops(s) + (SegHops(r[0]) + Denote(r[1..]));
    } else {
      assert g == [s] + r && g[1..] == r;
    }
  }

  lemma {:induction false} CoalescedDenote(p: Path)
    ensures Denote(Coalesced(p)) == Denote(p)
  {
    if p != [] {
      CoalescedDenote(p[1..]);
      var r := Coalesced(p[1..]);
      if !p[0].kind.AsSequence? {
        assert ([p[0]] + r)[1..] == r;
      } else if p[0].asns == [] {
        assert SegHops(p[0]) + Denote(p[1..]) == Denote(p[1..]);
      } else {
        GluedDenote(p[0], r);
      }
    }
  }

  /** The hash key is faithful: equal texts mean equal paths, and for normalised
      paths without an empty AS_SEQUENCE they are the same path. */
  lemma {:induction false} SameText(p: Path, q: Path)
    requires Text(p) == Text(q)
    ensures Denote(p) == Denote(q)
    ensures IsNormal(p) && IsNormal(q) && NoEmptySequence(p) && NoEmptySequence(q) ==> p == q
  {
    TextRoundTrip(p);
    TextRoundTrip(q);
    CoalescedDenote(p);
    CoalescedDenote(q);
    if NoEmptySequence(p) && NoAdjacentSequences(p) { CoalescedFixed(p); }
    if NoEmptySequence(q) && NoAdjacentSequences(q) { CoalescedFixed(q); }
  }

  // ------------------------------------------------------------------
  // The buffer
  // ------------------------------------------------------------------

  const ASN_STR_LEN := 10 + 1
  const ASPATH_STR_DEFAULT_LEN := 32

  function SegmentStrLen(s: Segment): nat { |s.asns| * ASN_STR_LEN + 2 + 1 + 1 }

  lemma {:induction false} SegTextFits(s: Segment)
    ensures |SegText(s)| + 1 < SegmentStrLen(s)
  {
    JoinedLength(s.asns, Separator(s.kind));
  }

  /** snprintf at `len`: what is put there is never cut off, because it and its
      terminator fit. */
  method Put(buf: array<char>, len: nat, text: string)
    requires len + |text| < buf.Length
    modifies buf
    ensures buf[..len + |text|] == old(buf[..len]) + text
  {
    var i := 0;
    while i < |text|
      invariant 0 <= i <= |text| && buf[..len + i] == old(buf[..len]) + text[..i]
    {
      buf[len + i] := text[i];
      i := i + 1;
      assert buf[..len + i] == buf[..len + i - 1] + [text[i - 1]];
    }
    buf[len + |text|] := '\0';
  }

  /** XREALLOC */
  method Grow(buf: array<char>, len: nat, size: nat) returns (r: array<char>)
    requires len <= buf.Length <= size
    ensures fresh(r) && r.Length == size && r[..len] == buf[..len]
  {
    r := new char[size](i reads buf => if 0 <= i < buf.Length then buf[i] else '\0');
    assert forall i :: 0 <= i < len ==> r[i] == buf[i];
  }

  method PutSegment(buf: array<char>, len0: nat, s: Segment) returns (len: nat)
    requires len0 + |SegText(s)| + 1 < buf.Length
    modifies buf
    ensures len == len0 + |SegText(s)| && buf[..len] == old(buf[..len0]) + SegText(s)
  {
    hide Joined, Separator, Opening, Closing;
    Brackets(s.kind);
    ghost var before, open, close, j := buf[..len0], Opening(s.kind), Closing(s.kind), Joined(s.asns, Separator(s.kind));
    len := len0;
    if !s.kind.AsSequence? {
      Put(buf, len, Opening(s.kind));
      len := len + 1;
    } else {
      assert before + "" == before;
    }
    len := PutAsns(buf, len, s.asns, Separator(s.kind));
    if !s.kind.AsSequence? {
      Put(buf, len, Closing(s.kind));
      len := len + 1;
    } else {
      assert (before + open + j) + "" == before + open + j;
    }
    TextAssoc(before + open, j, close);
    TextAssoc(before, open, j + close);
    TextAssoc(open, j, close);
  }

  lemma {:induction false} Brackets(k: SegKind)
    ensures if k.AsSequence? then Opening(k) == "" && Closing(k) == "" else |Opening(k)| == 1 && |Closing(k)| == 1
  {
  }

  method PutAsns(buf: array<char>, len0: nat, asns: seq<Asn>, sep: char) returns (len: nat)
    requires len0 + |Joined(asns, sep)| < buf.Length
    modifies buf
    ensures len == len0 + |Joined(asns, sep)| && buf[..len] == old(buf[..len0]) + Joined(asns, sep)
  {
    hide Joined, Decimal;
    ghost var before, all := buf[..len0], Joined(asns, sep);
    len := len0;
    var i := 0;
    assert asns[0..] == asns;
    while i < |asns|
      invariant 0 <= i <= |asns| && len0 <= len && len + |Joined(asns[i..], sep)| == len0 + |all|
      invariant buf[..len] + Joined(asns[i..], sep) == before + all
    {
      JoinedStep(asns, i, sep);
      var text := Decimal(asns[i]);
      if i < |asns| - 1 { text := text + [sep]; }
      ghost var b := buf[..len];
      Put(buf, len, text);
      len := len + |text|;
      TextAssoc(b, text, Joined(asns[i + 1..], sep));
      i := i + 1;
    }
    JoinedEnd(asns, sep);
    assert buf[..len] + "" == buf[..len];
  }

  lemma {:induction false} JoinedStep(asns: seq<Asn>, i: nat, sep: char)
    requires i < |asns|
    ensures Joined(asns[i..], sep)
         == (if i < |asns| - 1 then Decimal(asns[i]) + [sep] else Decimal(asns[i])) + Joined(asns[i + 1..], sep)
  {
    hide Decimal;
    assert asns[i..][1..] == asns[i + 1..];
    if i == |asns| - 1 { assert Decimal(asns[i]) + "" == Decimal(asns[i]); }
  }

  lemma {:induction false} JoinedEnd(asns: seq<Asn>, sep: char)
    ensures Joined(asns[|asns|..], sep) == ""
  {
  }

  lemma {:induction false} TextAssoc(x: string, y: string, z: string)
    ensures (x + y) + z == x + (y + z)
  {
  }

  function Total(p: Path): nat { if p == [] then 0 else |p[0].asns| + Total(p[1..]) }

  ghost function Gap(more: bool): string { if more then " " else "" }

  lemma {:induction false} TextStep(p: Path, k: nat)
    requires k < |p|
    ensures Text(p[k..]) == SegText(p[k]) + Gap(k + 1 < |p|) + Text(p[k + 1..])
  {
    assert p[k..][1..] == p[k + 1..];
    hide SegText;
    if k + 1 == |p| { assert SegText(p[k]) + "" + "" == SegText(p[k]); }
  }

  /** One turn of the printing loop: room is made for the segment and the space
      after it, and both are written. */
  method PutNext(buf: array<char>, len: nat, s: Segment, more: bool) returns (b: array<char>, n: nat)
    requires len < buf.Length
    modifies buf
    ensures (b == buf || fresh(b)) && n < b.Length && b[..n] == old(buf[..len]) + SegText(s) + Gap(more)
  {
    SegTextFits(s);
    hide SegText;
    b := buf;
    if len + SegmentStrLen(s) > b.Length { b := Grow(buf, len, len + SegmentStrLen(s)); }
    n := PutSegment(b, len, s);
    if more {
      Put(b, n, " ");
      n := n + 1;
    }
  }

  /** aspath_make_str_count: the buffer grows as needed, its final assertion
      holds, and it ends up with the text of the path. */
  method MakeStr(p: Path) returns (str: string)
    ensures str == Text(p)
  {
    if p == [] { return ""; }
    var strSize := Total(p) * ASN_STR_LEN + 2 + 1;
    if strSize < ASPATH_STR_DEFAULT_LEN { strSize := ASPATH_STR_DEFAULT_LEN; }
    var buf := new char[strSize](_ => '\0');
    var len: nat, k := 0, 0;
    assert p[0..] == p && Text([]) == "";
    hide Text, SegText, Gap;
    while k < |p|
      invariant 0 <= k <= |p| && fresh(buf) && len < buf.Length
      invariant buf[..len] + Text(p[k..]) == Text(p)
    {
      TextStep(p, k);
      ghost var before := buf[..len];
      buf, len := PutNext(buf, len, p[k], k + 1 < |p|);
      Regroup(before, SegText(p[k]), Gap(k + 1 < |p|), Text(p[k + 1..]));
      k := k + 1;
    }
    assert p[k..] == [] && buf[..len] + "" == buf[..len];
    assert len < buf.Length;
    str := buf[..len];
    buf[len] := '\0';
  }

  lemma {:induction false} Regroup(w: string, x: string, y: string, z: string)
    ensures w + (x + y + z) == (w + x + y) + z
  {
  }
}
