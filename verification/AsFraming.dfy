/**
 Two ways to read one stream of 16-bit words as headers and data.  In the first each
 header gives the length of its data; in the second it gives at most that, as in what
 aspath_put writes when its packing loop takes several segments.  Once a header is
 short, the two readings never agree on the AS_SEQUENCE data again.
 */
module AsFraming {
  import opened Common

  datatype Word = Word(hi: Byte, lo: Byte)

  datatype Frame = Frame(head: Word, data: seq<Word>)

  /** The segment type AS_SEQUENCE. */
  const SEQUENCE: Byte := 2

  ghost function Stream(fs: seq<Frame>): seq<Word> {
    if fs == [] then [] else [fs[0].head] + fs[0].data + Stream(fs[1..])
  }

  /** The data of the AS_SEQUENCEs before anything else. */
  ghost function Lead(fs: seq<Frame>): seq<Word> {
    if fs == [] || fs[0].head.hi != SEQUENCE then [] else fs[0].data + Lead(fs[1..])
  }

  /** How many words of data a header announces. */
  function Length(w: Word, use32: bool): nat { if use32 then 2 * w.lo else w.lo }

  ghost predicate Exact(fs: seq<Frame>, use32: bool) {
    forall i :: 0 <= i < |fs| ==> |fs[i].data| == Length(fs[i].head, use32)
  }

  ghost predicate Loose(fs: seq<Frame>, use32: bool) {
    forall i :: 0 <= i < |fs| ==> |fs[i].data| >= Length(fs[i].head, use32)
  }

  /** What the frames with these headers take. */
  ghost function Span(q: seq<Word>, use32: bool): nat {
    if q == [] then 0 else 1 + Length(q[0], use32) + Span(q[1..], use32)
  }

  lemma {:induction false} SpanAppend(q: seq<Word>, w: Word, use32: bool)
    ensures Span(q + [w], use32) == Span(q, use32) + 1 + Length(w, use32)
  {
    if q == [] {
      assert [w][1..] == [];
    } else {
      SpanAppend(q[1..], w, use32);
      assert (q + [w])[1..] == q[1..] + [w];
    }
  }

  /** Both readings stand at the same word: the first has `x` left of the current data
      and then `xs`, the second `y` and `ys`.  `q` is the data that the second has read
      and the first has not; it consists of headers that only the first has seen.  As
      long as the first reaches its next header before the second has made up for
      `q`, this goes on until the stream ends, with data missing. */
  ghost predicate Behind(q: seq<Word>, x: seq<Word>, xs: seq<Frame>, y: seq<Word>, ys: seq<Frame>, use32: bool) {
    && Exact(xs, use32) && Loose(ys, use32) && (forall i :: 0 <= i < |q| ==> q[i].hi == SEQUENCE)
    && x + Stream(xs) == y + Stream(ys) && x + Lead(xs) == q + y + Lead(ys)
    && |x| < |y| + Span(q, use32)
  }

  lemma {:induction false} NeverBehind(q: seq<Word>, x: seq<Word>, xs: seq<Frame>, y: seq<Word>, ys: seq<Frame>, use32: bool)
    ensures !Behind(q, x, xs, y, ys, use32)
    decreases |x| + |Stream(xs)|
  {
    if Behind(q, x, xs, y, ys, use32) {
      if x != [] && y != [] {
        BothData(q, x, xs, y, ys, use32);
        NeverBehind(if q == [] then [] else q[1..] + [y[0]], x[1..], xs, y[1..], ys, use32);
      } else if y != [] {
        NewHeader(q, xs, y, ys, use32);
        NeverBehind(q + [y[0]], xs[0].data, xs[1..], y[1..], ys, use32);
      } else if x != [] {
        OldHeader(q, x, xs, ys, use32);
        NeverBehind(q[1..], x[1..], xs, ys[0].data, ys[1..], use32);
      } else {
        BothHeaders(q, xs, ys, use32);
        NeverBehind(q, xs[0].data, xs[1..], ys[0].data, ys[1..], use32);
      }
    }
  }

  lemma {:induction false} BothData(q: seq<Word>, x: seq<Word>, xs: seq<Frame>, y: seq<Word>, ys: seq<Frame>, use32: bool)
    requires Behind(q, x, xs, y, ys, use32) && x != [] && y != []
    ensures Behind(if q == [] then [] else q[1..] + [y[0]], x[1..], xs, y[1..], ys, use32)
  {
    hide Stream, Lead, Exact, Loose;
    var s, l := Stream(xs), Lead(xs);
    assert (x + s)[0] == x[0] && (x + s)[1..] == x[1..] + s;
    assert (y + Stream(ys))[0] == y[0] && (y + Stream(ys))[1..] == y[1..] + Stream(ys);
    assert (x + l)[0] == x[0] && (x + l)[1..] == x[1..] + l;
    if q == [] {
      assert (q + y + Lead(ys))[1..] == [] + y[1..] + Lead(ys);
    } else {
      assert (q + y + Lead(ys))[0] == q[0];
      assert (q + y + Lead(ys))[1..] == q[1..] + [y[0]] + y[1..] + Lead(ys);
      SpanAppend(q[1..], y[0], use32);
    }
  }

  lemma {:induction false} Cut(x: seq<Word>, l: seq<Word>)
    requires x != []
    ensures (x + l)[0] == x[0] && (x + l)[1..] == x[1..] + l
  {
  }

  lemma {:induction false} FirstFrame(fs: seq<Frame>)
    requires fs != []
    ensures Stream(fs) != [] && Stream(fs)[0] == fs[0].head && Stream(fs)[1..] == fs[0].data + Stream(fs[1..])
    ensures Lead(fs) == if fs[0].head.hi == SEQUENCE then fs[0].data + Lead(fs[1..]) else []
  {
  }

  lemma {:induction false} NoFrame(fs: seq<Frame>)
    ensures Stream(fs) == [] <==> fs == []
    ensures Lead(fs) != [] ==> fs != []
  {
  }

  lemma {:induction false} RestExact(fs: seq<Frame>, use32: bool)
    requires fs != []
    ensures Exact(fs, use32) ==> Exact(fs[1..], use32) && |fs[0].data| == Length(fs[0].head, use32)
    ensures Loose(fs, use32) ==> Loose(fs[1..], use32) && |fs[0].data| >= Length(fs[0].head, use32)
  {
  }

  lemma {:induction false} Assoc(x: seq<Word>, y: seq<Word>, z: seq<Word>)
    ensures (x + y) + z == x + (y + z)
  {
  }

  lemma {:induction false} Nothing(x: seq<Word>)
    ensures [] + x == x && x + [] == x
  {
  }

  /** The first reading meets a header where the second sees data. */
  lemma {:induction false} NewHeader(q: seq<Word>, xs: seq<Frame>, y: seq<Word>, ys: seq<Frame>, use32: bool)
    requires Behind(q, [], xs, y, ys, use32) && y != []
    ensures xs != [] && Behind(q + [y[0]], xs[0].data, xs[1..], y[1..], ys, use32)
  {
    hide Stream, Lead, Exact, Loose, Span, Length;
    Nothing(Stream(xs));
    Nothing(Lead(xs));
    NoFrame(xs);
    FirstFrame(xs);
    RestExact(xs, use32);
    Cut(y, Stream(ys));
    Assoc(q, [y[0]], y[1..]);
    assert [y[0]] + y[1..] == y;
    SpanAppend(q, y[0], use32);
  }

  /** The second reading meets a header where the first sees data. */
  lemma {:induction false} OldHeader(q: seq<Word>, x: seq<Word>, xs: seq<Frame>, ys: seq<Frame>, use32: bool)
    requires Behind(q, x, xs, [], ys, use32) && x != []
    ensures q != [] && ys != [] && Behind(q[1..], x[1..], xs, ys[0].data, ys[1..], use32)
  {
    SpanHead(q, use32);
    hide Stream, Lead, Exact, Loose, Span, Length;
    Nothing(Stream(ys));
    Nothing(q);
    NoFrame(ys);
    FirstFrame(ys);
    RestExact(ys, use32);
    Cut(x, Stream(xs));
    Cut(x, Lead(xs));
    Cut(q, Lead(ys));
    Assoc(q[1..], ys[0].data, Lead(ys[1..]));
  }

  lemma {:induction false} SpanHead(q: seq<Word>, use32: bool)
    ensures q == [] <==> Span(q, use32) == 0
    ensures q != [] ==> Span(q, use32) == 1 + Length(q[0], use32) + Span(q[1..], use32)
  {
  }

  lemma {:induction false} BothHeaders(q: seq<Word>, xs: seq<Frame>, ys: seq<Frame>, use32: bool)
    requires Behind(q, [], xs, [], ys, use32)
    ensures xs != [] && ys != [] && Behind(q, xs[0].data, xs[1..], ys[0].data, ys[1..], use32)
  {
    SpanHead(q, use32);
    hide Stream, Lead, Exact, Loose, Span, Length;
    Nothing(Stream(xs));
    Nothing(Stream(ys));
    Nothing(Lead(xs));
    Nothing(q);
    NoFrame(xs);
    NoFrame(ys);
    FirstFrame(xs);
    FirstFrame(ys);
    RestExact(xs, use32);
    RestExact(ys, use32);
    Assoc(q, ys[0].data, Lead(ys[1..]));
  }

  /** So two readings that start with one AS_SEQUENCE header, which the second takes to
      be short, differ in the leading data. */
  lemma {:induction false} ShortHeader(xs: seq<Frame>, ys: seq<Frame>, use32: bool)
    requires Exact(xs, use32) && Loose(ys, use32) && Stream(xs) == Stream(ys)
    requires ys != [] && ys[0].head.hi == SEQUENCE && |ys[0].data| > Length(ys[0].head, use32)
    ensures Lead(xs) != Lead(ys)
  {
    hide Stream, Lead, Exact, Loose, Length;
    NoFrame(xs);
    NoFrame(ys);
    FirstFrame(xs);
    FirstFrame(ys);
    RestExact(xs, use32);
    RestExact(ys, use32);
    if Lead(xs) == Lead(ys) {
      Assoc([], ys[0].data, Lead(ys[1..]));
      assert Behind([], xs[0].data, xs[1..], ys[0].data, ys[1..], use32);
      NeverBehind([], xs[0].data, xs[1..], ys[0].data, ys[1..], use32);
    }
  }
}
