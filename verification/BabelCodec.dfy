/**
 Babel's Update encoding (babeld/message.c, mask_prefix in babeld/util.c;
 sections 4.4.7 to 4.4.9 of RFC 6126).  Prefixes, router-ids and next hops are
 compressed against what the same packet has said before, so sender and receiver
 each keep a state that must stay in step.

 This module has the receiver's side and the meaning of what is sent; module
 BabelSender fills the buffer.
 */
module BabelCodec {
  import opened Common
  import BabelNode

  const MESSAGE_PAD1: Byte := 0
  const MESSAGE_ROUTER_ID: Byte := 6
  const MESSAGE_NH: Byte := 7
  const MESSAGE_UPDATE: Byte := 8

  // ------------------------------------------------------------------
  // Addresses and prefixes
  // ------------------------------------------------------------------

  type Addr = a: seq<Byte> | |a| == 16 witness [0, 0, 0, 0, 0, 0, 0, 0, 0, 0, 0, 0, 0, 0, 0, 0]

  const ZEROS: Addr := [0, 0, 0, 0, 0, 0, 0, 0, 0, 0, 0, 0, 0, 0, 0, 0]

  /** The twelve bytes that every IPv4-mapped address starts with. */
  const V4PREFIX: seq<Byte> := [0, 0, 0, 0, 0, 0, 0, 0, 0, 0, 0xFF, 0xFF]

  predicate V4Mapped(a: Addr) { a[..12] == V4PREFIX }

  function Unit(k: nat): (u: nat)
    requires k < 8
    ensures u > 0
  {
    match k case 0 => 256 case 1 => 128 case 2 => 64 case 3 => 32 case 4 => 16 case 5 => 8 case 6 => 4 case 7 => 2
  }

  /** The `k` high bits of a byte. */
  function HighBits(b: Byte, k: nat): (r: Byte)
    requires k < 8
  {
    b - b % Unit(k)
  }

  function MaskedAt(a: Addr, plen: nat, i: nat): Byte
    requires i < 16
  {
    if i < plen / 8 then a[i] else if i == plen / 8 then HighBits(a[i], plen % 8) else 0
  }

  /** mask_prefix: the first `plen` bits of an address. */
  function Mask(a: Addr, plen: nat): (r: Addr) {
    seq(16, i requires 0 <= i < 16 => MaskedAt(a, plen, i))
  }

  method MaskPrefix(ret: array<Byte>, a: Addr, plen: nat)
    requires ret.Length == 16
    modifies ret
    ensures ret[..] == Mask(a, plen)
  {
    var i := 0;
    while i < 16
      invariant 0 <= i <= 16
      invariant forall k :: 0 <= k < i ==> ret[k] == if plen >= 128 || k < plen / 8 then a[k] else 0
    {
      ret[i] := if plen >= 128 || i < plen / 8 then a[i] else 0;
      i := i + 1;
    }
    if plen < 128 && plen % 8 != 0 {
      ret[plen / 8] := HighBits(a[plen / 8], plen % 8);
    }
    assert forall k :: 0 <= k < 16 ==> ret[k] == MaskedAt(a, plen, k);
  }

  ghost predicate IsMasked(a: Addr, plen: nat) { Mask(a, plen) == a }

  /** A masked prefix of fewer than 96 bits is never IPv4-mapped. */
  lemma {:induction false} ShortIsNotV4(a: Addr, plen: nat)
    requires IsMasked(a, plen) && plen < 96
    ensures !V4Mapped(a)
  {
    assert Mask(a, plen)[11] == MaskedAt(a, plen, 11);
    assert a[..12][11] == a[11];
  }

  /** Masked prefixes that agree on the bytes that hold `plen` bits are equal. */
  lemma {:induction false} MaskedByBytes(a: Addr, b: Addr, plen: nat)
    requires IsMasked(a, plen) && plen <= 128
    requires a[..(plen + 7) / 8] == b[..(plen + 7) / 8]
    ensures Mask(b, plen) == a
  {
    var n := (plen + 7) / 8;
    forall i | 0 <= i < 16 ensures Mask(b, plen)[i] == a[i] {
      assert Mask(a, plen)[i] == a[i];
      if i < n { assert a[..n][i] == b[..n][i]; }
    }
  }

  /** How many bytes hold a prefix of this length, or an address (-1). */
  function PrefixBytes(ae: Byte, plen: int): nat
    requires plen >= -1
  {
    if plen >= 0 then (plen + 7) / 8 else if ae == 1 then 4 else 16
  }

  /** A prefix that starts with `start` and goes on with the first `n` of `p`. */
  function Completed(start: seq<Byte>, p: seq<Byte>, n: nat, plen: nat): (Addr, nat)
    requires n <= |p| && |start| + n <= 16
  {
    (Mask(Filled(start + p[..n]), plen), n)
  }

  /** network_prefix for a prefix whose length is sent (`plen` >= 0) or for a
      whole address (-1): the prefix and the number of bytes it took. */
  function NetworkPrefix(ae: Byte, plen: int, omitted: Byte, p: seq<Byte>, dp: Option<Addr>): (r: Option<(Addr, nat)>)
    requires plen >= -1
    ensures r.Some? ==> r.value.1 <= |p|
  {
    var pb := PrefixBytes(ae, plen);
    if pb > 16 then None
    else if ae == 0 then Some((Mask(ZEROS, if plen < 0 then 128 else plen), 0))
    else if ae == 1 then
      if omitted > 4 || pb > 4 || pb < omitted as int || |p| < pb - omitted as int then None
      else if omitted == 0 then Some(Completed(V4PREFIX, p, pb, if plen < 0 then 128 else plen + 96))
      else if dp.None? || !V4Mapped(dp.value) then None
      else Some(Completed(dp.value[..12 + omitted as int], p, pb - omitted as int, if plen < 0 then 128 else plen + 96))
    else if ae == 2 then
      if omitted > 16 || pb < omitted as int || |p| < pb - omitted as int then None
      else if omitted == 0 then Some(Completed([], p, pb, if plen < 0 then 128 else plen))
      else if dp.None? || V4Mapped(dp.value) then None
      else Some(Completed(dp.value[..omitted], p, pb - omitted as int, if plen < 0 then 128 else plen))
    else if ae == 3 then
      if pb < 8 || |p| < pb - 8 then None
      else Some(Completed([0xFE, 0x80, 0, 0, 0, 0, 0, 0], p, pb - 8, if plen < 0 then 128 else plen))
    else None
  }

  /** An address that starts with these bytes and goes on with zeros. */
  function Filled(bs: seq<Byte>): (a: Addr)
    requires |bs| <= 16
    ensures a[..|bs|] == bs
  {
    bs + ZEROS[|bs|..]
  }

  // ------------------------------------------------------------------
  // Receiving
  // ------------------------------------------------------------------

  type RouterId = a: seq<Byte> | |a| == 8 witness [0, 0, 0, 0, 0, 0, 0, 0]

  /** What parse_packet remembers while it walks one packet. */
  datatype Receiver = Receiver(
    id: Option<RouterId>, v4nh: Option<Addr>, v6nh: Option<Addr>, v4prefix: Option<Addr>, v6prefix: Option<Addr>)

  const START := Receiver(None, None, None, None, None)

  /** What comes out of a packet: arguments for update_route, where no next hop
      stands for the sender's address, or a retraction of everything. */
  datatype Event =
    | Updated(id: RouterId, prefix: Addr, plen: nat, seqno: U16, metric: U16, interval: U16, nh: Option<Addr>, sub: seq<Byte>)
    | RetractAll

  datatype Tlv = Tlv(ty: Byte, body: seq<Byte>)

  predicate Flag(flags: Byte, bit: nat)
    requires bit > 0
  {
    flags / bit % 2 == 1
  }

  function HandleNh(st: Receiver, body: seq<Byte>): Receiver
    requires |body| >= 2
  {
    match NetworkPrefix(body[0], -1, 0, body[2..], None)
    case None => st.(v4nh := None, v6nh := None)
    case Some(r) => if body[0] == 1 then st.(v4nh := Some(r.0)) else st.(v6nh := Some(r.0))
  }

  /** The receiver after an Update whose prefix could be parsed. */
  function Remember(st: Receiver, ae: Byte, flags: Byte, prefix: Addr): Receiver {
    var st1 := if !Flag(flags, 128) then st
               else if ae == 1 then st.(v4prefix := Some(prefix)) else st.(v6prefix := Some(prefix));
    if !Flag(flags, 64) then st1
    else st1.(id := Some(if ae == 1 then [0, 0, 0, 0] + prefix[12..] else prefix[8..]))
  }

  function ParsedPrefix(st: Receiver, body: seq<Byte>): Option<(Addr, nat)>
    requires |body| >= 10
  {
    var dp := if body[0] == 1 then st.v4prefix else st.v6prefix;
    if body[3] != 0 && dp.None? then None else NetworkPrefix(body[0], body[2] as int, body[3], body[10..], dp)
  }

  /** update_route's arguments, from an Update with this prefix and next hop. */
  function EventOf(id: RouterId, prefix: Addr, nh: Option<Addr>, body: seq<Byte>, used: nat): Event
    requires |body| >= 10 + used
  {
    Updated(id, prefix, body[2] as int + (if body[0] == 1 then 96 else 0),
            GetWord([body[6], body[7]]), GetWord([body[8], body[9]]), GetWord([body[4], body[5]]), nh, body[10 + used..])
  }

  function HandleUpdate(st: Receiver, body: seq<Byte>): (Receiver, seq<Event>)
    requires |body| >= 10
  {
    match ParsedPrefix(st, body)
    case None => (if Flag(body[1], 128) then st.(v4prefix := None, v6prefix := None) else st, [])
    case Some(r) =>
      var st1 := Remember(st, body[0], body[1], r.0);
      if body[0] == 0 then (st1, if GetWord([body[8], body[9]]) < BabelNode.INFINITY then [] else [RetractAll])
      else if st1.id.None? || (body[0] == 1 && st1.v4nh.None?) then (st1, [])
      else (st1, [EventOf(st1.id.value, r.0, if body[0] == 1 then st1.v4nh else st1.v6nh, body, r.1)])
  }

  /** One TLV; those of other types do not concern routes. */
  function Handle(st: Receiver, t: Tlv): (Receiver, seq<Event>) {
    if t.ty == MESSAGE_ROUTER_ID && |t.body| >= 10 then (st.(id := Some(t.body[2..10])), [])
    else if t.ty == MESSAGE_NH && |t.body| >= 2 then (HandleNh(st, t.body), [])
    else if t.ty == MESSAGE_UPDATE && |t.body| >= 10 then HandleUpdate(st, t.body)
    else (st, [])
  }

  /** Walking the TLVs one after another. */
  function Walk(st: Receiver, ts: seq<Tlv>): (Receiver, seq<Event>)
    decreases ts
  {
    if ts == [] then (st, [])
    else
      var r := Handle(st, ts[0]);
      var s := Walk(r.0, ts[1..]);
      (s.0, r.1 + s.1)
  }

  lemma {:induction false} WalkConcat(st: Receiver, ts: seq<Tlv>, us: seq<Tlv>)
    ensures Walk(st, ts + us).0 == Walk(Walk(st, ts).0, us).0
    ensures Walk(st, ts + us).1 == Walk(st, ts).1 + Walk(Walk(st, ts).0, us).1
    decreases ts
  {
    hide Handle;
    if ts == [] {
      assert ts + us == us;
    } else {
      assert (ts + us)[1..] == ts[1..] + us;
      WalkConcat(Handle(st, ts[0]).0, ts[1..], us);
    }
  }

  /** The bytes of a body, as a sequence of TLVs; Pad1 is a single byte, and a
      TLV that is cut short ends the walk. */
  function Frames(bs: seq<Byte>): seq<Tlv> {
    if bs == [] then []
    else if bs[0] == MESSAGE_PAD1 then Frames(bs[1..])
    else if |bs| < 2 || |bs| < 2 + bs[1] as int then []
    else [Tlv(bs[0], bs[2..2 + bs[1] as int])] + Frames(bs[2 + bs[1] as int..])
  }

  /** One turn of the walk over the bytes of a body. */
  lemma {:induction false} WalkStep(st: Receiver, bs: seq<Byte>)
    requires bs != []
    ensures bs[0] == MESSAGE_PAD1 ==> Frames(bs) == Frames(bs[1..])
    ensures bs[0] != MESSAGE_PAD1 && (|bs| < 2 || |bs| < 2 + bs[1] as int) ==> Walk(st, Frames(bs)) == (st, [])
    ensures bs[0] != MESSAGE_PAD1 && |bs| >= 2 && |bs| >= 2 + bs[1] as int ==>
              var n := 2 + bs[1] as int;
              var r := Handle(st, Tlv(bs[0], bs[2..n]));
              && Walk(st, Frames(bs)).0 == Walk(r.0, Frames(bs[n..])).0
              && Walk(st, Frames(bs)).1 == r.1 + Walk(r.0, Frames(bs[n..])).1
  {
    hide Handle;
    if bs[0] != MESSAGE_PAD1 && |bs| >= 2 && |bs| >= 2 + bs[1] as int {
      var n := 2 + bs[1] as int;
      assert Frames(bs) == [Tlv(bs[0], bs[2..n])] + Frames(bs[n..]);
      assert Frames(bs)[1..] == Frames(bs[n..]);
    }
  }

  /** parse_packet on the body of a packet. */
  method ParsePacket(body: seq<Byte>) returns (events: seq<Event>, st: Receiver)
    ensures (st, events) == Walk(START, Frames(body))
  {
    hide Walk, Frames, Handle;
    ghost var w := Walk(START, Frames(body));
    events, st := [], START;
    var i := 0;
    assert body[i..] == body;
    while i < |body|
      invariant 0 <= i <= |body|
      invariant w.0 == Walk(st, Frames(body[i..])).0 && w.1 == events + Walk(st, Frames(body[i..])).1
    {
      ghost var rest := body[i..];
      WalkStep(st, rest);
      if body[i] == MESSAGE_PAD1 {
        assert rest[1..] == body[i + 1..];
        i := i + 1;
      } else {
        if |body| < i + 2 || |body| < i + 2 + body[i + 1] as int {
          assert events + [] == events;
          return;
        }
        var n := i + 2 + body[i + 1] as int;
        assert rest[2..n - i] == body[i + 2..n] && rest[n - i..] == body[n..];
        var r := Handle(st, Tlv(body[i], body[i + 2..n]));
        assert w.1 == events + (r.1 + Walk(r.0, Frames(body[n..])).1);
        st, events, i := r.0, events + r.1, n;
      }
    }
    assert body[i..] == [];
    WalkNothing(st);
    assert events + [] == events;
  }

  lemma {:induction false} WalkNothing(st: Receiver)
    ensures Walk(st, Frames([])) == (st, [])
  {
  }

  // ------------------------------------------------------------------
  // Framing
  // ------------------------------------------------------------------

  /** TLVs that start_message can write: a length of one byte, and not Pad1. */
  predicate Writable(t: Tlv) { t.ty != MESSAGE_PAD1 && |t.body| < 256 }

  predicate AllWritable(ts: seq<Tlv>) { forall i :: 0 <= i < |ts| ==> Writable(ts[i]) }

  function EncodeOne(t: Tlv): seq<Byte>
    requires Writable(t)
  {
    [t.ty, |t.body|] + t.body
  }

  function Encode(ts: seq<Tlv>): seq<Byte>
    requires AllWritable(ts)
  {
    if ts == [] then [] else EncodeOne(ts[0]) + Encode(ts[1..])
  }

  lemma {:induction false} EncodeConcat(ts: seq<Tlv>, us: seq<Tlv>)
    requires AllWritable(ts) && AllWritable(us)
    ensures AllWritable(ts + us) && Encode(ts + us) == Encode(ts) + Encode(us)
  {
    hide EncodeOne, Writable;
    if ts == [] {
      assert ts + us == us;
    } else {
      assert (ts + us)[1..] == ts[1..] + us;
      EncodeConcat(ts[1..], us);
    }
  }

  /** What was framed is found again, TLV by TLV. */
  lemma {:induction false} FramesEncode(ts: seq<Tlv>)
    requires AllWritable(ts)
    ensures Frames(Encode(ts)) == ts
  {
    if ts != [] {
      var t, bs := ts[0], Encode(ts);
      var n := 2 + |t.body|;
      FramesEncode(ts[1..]);
      assert bs[0] == t.ty && bs[1] == |t.body| && bs[2..n] == t.body && bs[n..] == Encode(ts[1..]);
      assert ts == [t] + ts[1..];
    }
  }

  // ------------------------------------------------------------------
  // Any encoder's Updates
  // ------------------------------------------------------------------

  const LINK_LOCAL: seq<Byte> := [0xFE, 0x80, 0, 0, 0, 0, 0, 0]

  /** The bytes that the receiver of this address encoding starts from: those omitted
      from `before`, after what the encoding implies. */
  ghost predicate Implies(ae: Byte, omitted: nat, before: Option<Addr>, start: seq<Byte>) {
    || (ae == 1 && omitted == 0 && start == V4PREFIX)
    || (ae == 1 && 0 < omitted <= 4 && before.Some? && V4Mapped(before.value) && start == before.value[..12 + omitted])
    || (ae == 2 && omitted == 0 && start == [])
    || (ae == 2 && 0 < omitted <= 16 && before.Some? && !V4Mapped(before.value) && start == before.value[..omitted])
    || (ae == 3 && omitted == 0 && start == LINK_LOCAL)
  }

  /** Address encodings 1 to 3 of a prefix of `plen` bits: what is implied and the bytes
      `part` make up its beginning. */
  ghost predicate EncodesPrefix(ae: Byte, plen: nat, omitted: Byte, part: seq<Byte>, before: Option<Addr>, prefix: Addr) {
    var n := (plen + 7) / 8;
    && plen <= 128 && IsMasked(prefix, plen) && (ae == 1 ==> plen >= 96)
    && exists start :: Implies(ae, omitted, before, start) && |start| <= n && start + part == prefix[..n]
  }

  /** Section 4.4.9 of RFC 6126: however an encoder compresses a prefix, it is read
      back. */
  lemma {:induction false} AnyPrefixRead(ae: Byte, plen: nat, omitted: Byte, part: seq<Byte>, rest: seq<Byte>, before: Option<Addr>, prefix: Addr)
    requires EncodesPrefix(ae, plen, omitted, part, before, prefix)
    ensures NetworkPrefix(ae, if ae == 1 then plen - 96 else plen, omitted, part + rest, before) == Some((prefix, |part|))
  {
    hide Completed, Mask, IsMasked, V4Mapped, NetworkPrefix, Implies, PrefixBytes;
    var n := (plen + 7) / 8;
    var start :| Implies(ae, omitted, before, start) && |start| <= n && start + part == prefix[..n];
    assert |start + part| == n;
    CompletedRead(start, part, rest, plen, prefix);
    PartLength(ae, plen, omitted, before, start);
    ReadFrom(ae, plen, omitted, part + rest, before, start, |part|);
  }

  lemma {:induction false} ReadFrom(ae: Byte, plen: nat, omitted: Byte, p: seq<Byte>, before: Option<Addr>, start: seq<Byte>, k: nat)
    requires Implies(ae, omitted, before, start) && k <= |p| && |start| + k == (plen + 7) / 8 && plen <= 128 && (ae == 1 ==> plen >= 96)
    ensures |start| + k <= 16
    ensures NetworkPrefix(ae, if ae == 1 then plen - 96 else plen, omitted, p, before) == Some(Completed(start, p, k, plen))
  {
    hide Completed, Mask, V4Mapped;
    PartLength(ae, plen, omitted, before, start);
  }

  lemma {:induction false} CompletedRead(start: seq<Byte>, part: seq<Byte>, rest: seq<Byte>, plen: nat, prefix: Addr)
    requires plen <= 128 && IsMasked(prefix, plen) && |start| <= (plen + 7) / 8 && start + part == prefix[..(plen + 7) / 8]
    ensures |start| + |part| == (plen + 7) / 8 && Completed(start, part + rest, |part|, plen) == (prefix, |part|)
  {
    hide Mask;
    assert (part + rest)[..|part|] == part;
    assert |start + part| == (plen + 7) / 8;
    MaskedByBytes(prefix, Filled(start + part), plen);
  }

  lemma {:induction false} PartLength(ae: Byte, plen: nat, omitted: Byte, before: Option<Addr>, start: seq<Byte>)
    requires plen <= 128 && Implies(ae, omitted, before, start) && |start| <= (plen + 7) / 8 && (ae == 1 ==> plen >= 96)
    ensures var bytes := PrefixBytes(ae, if ae == 1 then plen - 96 else plen);
            bytes <= 16 && (ae == 1 ==> bytes == (plen + 7) / 8 - 12 <= 4) && (ae != 1 ==> bytes == (plen + 7) / 8)
    ensures |start| == if ae == 1 then 12 + omitted as int else if ae == 2 then omitted as int else 8
  {
    hide V4Mapped;
  }

  /** The prefix that an Update with this address encoding refers to. */
  function Before(st: Receiver, ae: Byte): Option<Addr> { if ae == 1 then st.v4prefix else st.v6prefix }

  /** An Update TLV with these fields. */
  function UpdateWith(ae: Byte, flags: Byte, plen: Byte, omitted: Byte, interval: U16, seqno: U16, metric: U16, tail: seq<Byte>): Tlv {
    Tlv(MESSAGE_UPDATE, [ae, flags, plen, omitted] + PutWord(interval) + PutWord(seqno) + PutWord(metric) + tail)
  }

  /** What a receiver makes of any encoder's Update for a prefix: it learns the prefix
      (flag 0x80) and the router-id (0x40) if told to, and the update is for the
      router-id, next hop and prefix it then knows; without one of the first two it is
      for nobody. */
  lemma {:induction false} AnyUpdateRead(st: Receiver, ae: Byte, p: bool, r: bool, plen: nat, omitted: Byte, interval: U16, seqno: U16,
                                         metric: U16, part: seq<Byte>, rest: seq<Byte>, prefix: Addr)
    requires 1 <= ae <= 3 && EncodesPrefix(ae, plen, omitted, part, Before(st, ae), prefix)
    ensures var sent: Byte := if ae == 1 then plen - 96 else plen;
            var flags: Byte := (if p then 128 else 0) + (if r then 64 else 0);
            var (after, events) := Handle(st, UpdateWith(ae, flags, sent, omitted, interval, seqno, metric, part + rest));
            var nh := if ae == 1 then st.v4nh else st.v6nh;
            && after.v4nh == st.v4nh && after.v6nh == st.v6nh
            && after.v4prefix == (if p && ae == 1 then Some(prefix) else st.v4prefix)
            && after.v6prefix == (if p && ae != 1 then Some(prefix) else st.v6prefix)
            && after.id == (if r then Some(if ae == 1 then [0, 0, 0, 0] + prefix[12..] else prefix[8..]) else st.id)
            && events == if after.id.None? || (ae == 1 && nh.None?) then []
                         else [Updated(after.id.value, prefix, plen, seqno, metric, interval, nh, rest)]
  {
    hide NetworkPrefix, EncodesPrefix, UpdateWith, PutWord, GetWord, Handle, Flag;
    OmittedKnown(ae, plen, omitted, part, Before(st, ae), prefix);
    var sent: Byte := if ae == 1 then plen - 96 else plen;
    var flags: Byte := (if p then 128 else 0) + (if r then 64 else 0);
    var t := UpdateWith(ae, flags, sent, omitted, interval, seqno, metric, part + rest);
    AnyPrefixRead(ae, plen, omitted, part, rest, Before(st, ae), prefix);
    FieldsOf(ae, flags, sent, omitted, interval, seqno, metric, part, rest);
    FlagsAre(p, r);
    HandleRead(st, t.body, prefix, |part|);
  }

  lemma {:induction false} FlagsAre(p: bool, r: bool)
    ensures var flags: Byte := (if p then 128 else 0) + (if r then 64 else 0);
            Flag(flags, 128) == p && Flag(flags, 64) == r
  {
  }

  lemma {:induction false} HandleRead(st: Receiver, b: seq<Byte>, prefix: Addr, used: nat)
    requires |b| >= 10 + used && 1 <= b[0] <= 3 && ParsedPrefix(st, b) == Some((prefix, used))
    ensures var (after, events) := Handle(st, Tlv(MESSAGE_UPDATE, b));
            var nh := if b[0] == 1 then st.v4nh else st.v6nh;
            && after.v4nh == st.v4nh && after.v6nh == st.v6nh
            && after.v4prefix == (if Flag(b[1], 128) && b[0] == 1 then Some(prefix) else st.v4prefix)
            && after.v6prefix == (if Flag(b[1], 128) && b[0] != 1 then Some(prefix) else st.v6prefix)
            && after.id == (if Flag(b[1], 64) then Some(if b[0] == 1 then [0, 0, 0, 0] + prefix[12..] else prefix[8..]) else st.id)
            && events == if after.id.None? || (b[0] == 1 && nh.None?) then []
                         else [Updated(after.id.value, prefix, b[2] as int + (if b[0] == 1 then 96 else 0), GetWord([b[6], b[7]]),
                                       GetWord([b[8], b[9]]), GetWord([b[4], b[5]]), nh, b[10 + used..])]
  {
    hide ParsedPrefix, Flag, GetWord;
  }

  lemma {:induction false} OmittedKnown(ae: Byte, plen: nat, omitted: Byte, part: seq<Byte>, before: Option<Addr>, prefix: Addr)
    requires EncodesPrefix(ae, plen, omitted, part, before, prefix)
    ensures plen <= 128 && (ae == 1 ==> plen >= 96) && (omitted != 0 ==> before.Some?)
  {
  }

  lemma {:induction false} FieldsOf(ae: Byte, flags: Byte, plen: Byte, omitted: Byte, interval: U16, seqno: U16, metric: U16, part: seq<Byte>, rest: seq<Byte>)
    ensures var t := UpdateWith(ae, flags, plen, omitted, interval, seqno, metric, part + rest);
            var b := t.body;
            && t.ty == MESSAGE_UPDATE && |b| == 10 + |part| + |rest|
            && b[0] == ae && b[1] == flags && b[2] == plen && b[3] == omitted
            && GetWord([b[4], b[5]]) == interval && GetWord([b[6], b[7]]) == seqno && GetWord([b[8], b[9]]) == metric
            && b[10..] == part + rest && b[10 + |part|..] == rest
  {
    WordRoundTrip(interval, [0, 0]);
    WordRoundTrip(seqno, [0, 0]);
    WordRoundTrip(metric, [0, 0]);
    var b := UpdateWith(ae, flags, plen, omitted, interval, seqno, metric, part + rest).body;
    assert b[10..] == part + rest;
    assert b[10 + |part|..] == b[10..][|part|..] == rest;
  }

  /** Any encoder's next hop is remembered for its address family, whole or link-local. */
  lemma {:induction false} AnyNextHopRead(st: Receiver, a: Addr, rest: seq<Byte>)
    ensures V4Mapped(a) ==> Handle(st, Tlv(MESSAGE_NH, [1, 0] + a[12..] + rest)) == (st.(v4nh := Some(a)), [])
    ensures Handle(st, Tlv(MESSAGE_NH, [2, 0] + a + rest)) == (st.(v6nh := Some(a)), [])
    ensures a[..8] == LINK_LOCAL ==> Handle(st, Tlv(MESSAGE_NH, [3, 0] + a[8..] + rest)) == (st.(v6nh := Some(a)), [])
  {
    if V4Mapped(a) { NextHopFrom(st, 1, a, V4PREFIX, rest); }
    NextHopFrom(st, 2, a, [], rest);
    if a[..8] == LINK_LOCAL { NextHopFrom(st, 3, a, LINK_LOCAL, rest); }
    assert a[0..] == a;
  }

  lemma {:induction false} NextHopFrom(st: Receiver, ae: Byte, a: Addr, start: seq<Byte>, rest: seq<Byte>)
    requires (ae == 1 && start == V4PREFIX) || (ae == 2 && start == []) || (ae == 3 && start == LINK_LOCAL)
    requires a[..|start|] == start
    ensures Handle(st, Tlv(MESSAGE_NH, [ae, 0] + a[|start|..] + rest))
         == (if ae == 1 then st.(v4nh := Some(a)) else st.(v6nh := Some(a)), [])
  {
    var body, part := [ae, 0] + a[|start|..] + rest, a[|start|..];
    assert body[2..] == part + rest && (part + rest)[..|part|] == part;
    assert start + part == a;
    MaskAll(a);
    assert Filled(a) == a;
    hide Mask;
  }

  lemma {:induction false} MaskAll(a: Addr)
    ensures Mask(a, 128) == a
  {
  }

  /** A next hop that cannot be read makes the receiver forget both. */
  lemma {:induction false} UnreadableNextHop(st: Receiver, body: seq<Byte>)
    requires |body| >= 2 && NetworkPrefix(body[0], -1, 0, body[2..], None).None?
    ensures Handle(st, Tlv(MESSAGE_NH, body)) == (st.(v4nh := None, v6nh := None), [])
  {
  }

  /** An Update whose prefix cannot be read is for nobody, and if the receiver was told to
      remember it, it forgets what it knew. */
  lemma {:induction false} UnreadableForgets(st: Receiver, body: seq<Byte>)
    requires |body| >= 10 && ParsedPrefix(st, body).None?
    ensures var (after, events) := Handle(st, Tlv(MESSAGE_UPDATE, body));
            events == [] && after == if body[1] < 128 then st else st.(v4prefix := None, v6prefix := None)
  {
  }

  /** An omission that refers to nothing cannot be read. */
  lemma {:induction false} OmissionRefused(st: Receiver, body: seq<Byte>)
    requires |body| >= 10 && body[3] != 0 && Before(st, body[0]).None?
    ensures ParsedPrefix(st, body).None?
  {
  }

  /** The wildcard prefix is only ever retracted, and then everything is. */
  lemma {:induction false} WildcardRead(st: Receiver, flags: Byte, interval: U16, seqno: U16, metric: U16)
    ensures Handle(st, UpdateWith(0, flags, 0, 0, interval, seqno, metric, [])).1
         == if metric < BabelNode.INFINITY then [] else [RetractAll]
  {
    var none: seq<Byte> := [];
    FieldsOf(0, flags, 0, 0, interval, seqno, metric, none, none);
    assert none + none == none;
    hide UpdateWith, PutWord, GetWord;
  }
}
