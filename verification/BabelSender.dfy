/**
 Sending Babel Updates (really_send_update, send_wildcard_retraction and the
 buffer helpers of babeld/message.c): whatever is sent, in whatever order, each
 packet is parsed back into exactly what was asked for.
 */
module BabelSender {
  import opened Common
  import opened BabelCodec
  import BabelNode

  type V4 = a: seq<Byte> | |a| == 4 witness [0, 0, 0, 0]

  /** What the packet being built has said so far, as the sender remembers it:
      buffered_id, buffered_nh and buffered_prefix with their flags. */
  datatype Said = Said(id: Option<RouterId>, nh: Option<V4>, prefix: Option<Addr>)

  const NOTHING := Said(None, None, None)

  datatype Outgoing = Outgoing(
    id: RouterId, prefix: Addr, plen: nat, seqno: U16, metric: U16, interval: U16, channels: Option<seq<Byte>>)

  /** Prefixes are kept masked, and there are at most DIVERSITY_HOPS channels. */
  ghost predicate Sendable(u: Outgoing) {
    u.plen <= 128 && IsMasked(u.prefix, u.plen) && (u.channels.Some? ==> |u.channels.value| <= 8)
  }

  predicate IsV4(u: Outgoing) { u.plen >= 96 && V4Mapped(u.prefix) }

  /** The channels sub-TLV; an empty one differs from none. */
  function Sub(u: Outgoing): seq<Byte>
    requires u.channels.Some? ==> |u.channels.value| <= 8
  {
    if u.channels.None? then [] else [2, |u.channels.value|] + u.channels.value
  }

  /** What the receiver should see. */
  function EventFor(u: Outgoing, ip4: Option<V4>): Event
    requires IsV4(u) ==> ip4.Some?
    requires u.channels.Some? ==> |u.channels.value| <= 8
  {
    Updated(u.id, u.prefix, u.plen, u.seqno, u.metric, u.interval,
            if IsV4(u) then Some(V4PREFIX + ip4.value) else None, Sub(u))
  }

  // ------------------------------------------------------------------
  // The TLVs of one update
  // ------------------------------------------------------------------

  /** How many of the first `n` bytes two addresses have in common. */
  function SharedBytes(a: Addr, b: Addr, k: nat, n: nat): (r: nat)
    requires k <= n <= 16 && a[..k] == b[..k]
    ensures k <= r <= n && a[..r] == b[..r] && (r < n ==> a[r] != b[r])
    decreases n - k
  {
    if k < n && a[k] == b[k] then
      assert a[..k + 1] == a[..k] + [a[k]] && b[..k + 1] == b[..k] + [b[k]];
      SharedBytes(a, b, k + 1, n)
    else k
  }

  function Omit(said: Said, u: Outgoing): (k: nat)
    requires u.plen <= 128
    ensures k <= u.plen / 8 && (k > 0 ==> !IsV4(u) && said.prefix.Some? && said.prefix.value[..k] == u.prefix[..k])
    ensures !IsV4(u) && said.prefix.Some? && k < u.plen / 8 ==> said.prefix.value[k] != u.prefix[k]
  {
    if IsV4(u) || said.prefix.None? then 0 else SharedBytes(said.prefix.value, u.prefix, 0, u.plen / 8)
  }

  predicate SaysPrefix(said: Said, u: Outgoing) { !IsV4(u) && (said.prefix.None? || u.plen >= 48) }

  /** The router-id can be read off the prefix. */
  predicate IdInPrefix(u: Outgoing) { !IsV4(u) && u.plen == 128 && u.prefix[8..] == u.id }

  function Flags(said: Said, u: Outgoing): Byte {
    (if SaysPrefix(said, u) then 128 else 0) + (if said.id != Some(u.id) && IdInPrefix(u) then 64 else 0)
  }

  function NhTlv(ip4: V4): Tlv { Tlv(MESSAGE_NH, [1, 0] + ip4) }

  function IdTlv(id: RouterId): Tlv { Tlv(MESSAGE_ROUTER_ID, [0, 0] + id) }

  /** The bytes of the prefix that are sent. */
  function PrefixPart(said: Said, u: Outgoing): seq<Byte>
    requires u.plen <= 128
  {
    if IsV4(u) then u.prefix[12..(u.plen + 7) / 8] else u.prefix[Omit(said, u)..(u.plen + 7) / 8]
  }

  function UpdateBody(said: Said, u: Outgoing): seq<Byte>
    requires u.plen <= 128 && (u.channels.Some? ==> |u.channels.value| <= 8)
  {
    [if IsV4(u) then 1 else 2, Flags(said, u), if IsV4(u) then u.plen - 96 else u.plen, Omit(said, u)]
    + PutWord(u.interval) + PutWord(u.seqno) + PutWord(u.metric) + PrefixPart(said, u) + Sub(u)
  }

  function NhTlvs(said: Said, u: Outgoing, ip4: Option<V4>): seq<Tlv>
    requires IsV4(u) ==> ip4.Some?
  {
    if IsV4(u) && said.nh != ip4 then [NhTlv(ip4.value)] else []
  }

  function IdTlvs(said: Said, u: Outgoing): seq<Tlv> {
    if said.id != Some(u.id) && !IdInPrefix(u) then [IdTlv(u.id)] else []
  }

  function UpdateTlvs(said: Said, u: Outgoing, ip4: Option<V4>): seq<Tlv>
    requires u.plen <= 128 && (u.channels.Some? ==> |u.channels.value| <= 8) && (IsV4(u) ==> ip4.Some?)
  {
    NhTlvs(said, u, ip4) + IdTlvs(said, u) + [Tlv(MESSAGE_UPDATE, UpdateBody(said, u))]
  }

  function SaidAfter(said: Said, u: Outgoing, ip4: Option<V4>): Said {
    Said(Some(u.id), if IsV4(u) then ip4 else said.nh, if SaysPrefix(said, u) then Some(u.prefix) else said.prefix)
  }

  /** What an Update has said is not said again in its packet: not the router-id, nor the
      next hop, nor the bytes that the next prefix shares with one that was remembered. */
  lemma {:induction false} SaysOnce(said: Said, u: Outgoing, v: Outgoing, ip4: Option<V4>)
    requires u.plen <= 128 && v.plen <= 128 && (IsV4(u) || IsV4(v) ==> ip4.Some?)
    ensures var after := SaidAfter(said, u, ip4);
            && (v.id == u.id ==> IdTlvs(after, v) == [])
            && (IsV4(u) ==> NhTlvs(after, v, ip4) == [])
            && (!IsV4(u) ==> after.prefix.Some? && (u.plen >= 48 || said.prefix.None? ==> after.prefix == Some(u.prefix)))
            && (!IsV4(u) && !IsV4(v) && (u.plen >= 48 || said.prefix.None?) && u.prefix[..v.plen / 8] == v.prefix[..v.plen / 8] ==>
                  |PrefixPart(after, v)| <= 1)
  {
    var after := SaidAfter(said, u, ip4);
    if !IsV4(u) && !IsV4(v) && (u.plen >= 48 || said.prefix.None?) && u.prefix[..v.plen / 8] == v.prefix[..v.plen / 8] {
      var n := v.plen / 8;
      assert forall i :: 0 <= i < n ==> u.prefix[i] == u.prefix[..n][i] == v.prefix[..n][i] == v.prefix[i];
    }
  }

  // ------------------------------------------------------------------
  // Sender and receiver in step
  // ------------------------------------------------------------------

  ghost predicate PrefixInStep(said: Said, st: Receiver) {
    said.prefix.Some? ==> st.v6prefix == said.prefix && !V4Mapped(said.prefix.value)
  }

  ghost predicate NhInStep(nh: Option<V4>, st: Receiver) { nh.Some? ==> st.v4nh == Some(V4PREFIX + nh.value) }

  ghost predicate InStep(said: Said, st: Receiver) {
    (said.id.Some? ==> st.id == said.id) && NhInStep(said.nh, st) && PrefixInStep(said, st) && st.v6nh.None?
  }

  /** The receiver knows all that an Update leaves unsaid. */
  ghost predicate Ready(said: Said, st: Receiver, u: Outgoing, ip4: Option<V4>) {
    && PrefixInStep(said, st) && st.v6nh.None?
    && (if IsV4(u) then ip4.Some? && NhInStep(ip4, st) else NhInStep(said.nh, st))
    && (st.id == Some(u.id) || (said.id != Some(u.id) && IdInPrefix(u)))
  }

  lemma {:induction false} MaskWhole(a: Addr)
    ensures Mask(a, 128) == a
  {
  }

  lemma {:induction false} HandleNhTlv(st: Receiver, ip4: V4)
    ensures Handle(st, NhTlv(ip4)) == (st.(v4nh := Some(V4PREFIX + ip4)), [])
  {
    var a: Addr := V4PREFIX + ip4;
    MaskWhole(a);
    assert NhTlv(ip4).body[2..] == ip4 && ip4[..4] == ip4 && Filled(a) == a;
  }

  lemma {:induction false} HandleIdTlv(st: Receiver, id: RouterId)
    ensures Handle(st, IdTlv(id)) == (st.(id := Some(id)), [])
  {
    assert IdTlv(id).body[2..10] == id;
  }

  lemma {:induction false} BodyFields(said: Said, u: Outgoing)
    requires Sendable(u)
    ensures var b := UpdateBody(said, u);
            && |b| == 10 + |PrefixPart(said, u)| + |Sub(u)|
            && b[0] == (if IsV4(u) then 1 else 2) && b[1] == Flags(said, u)
            && b[2] == (if IsV4(u) then u.plen - 96 else u.plen) && b[3] == Omit(said, u)
            && b[4] == u.interval / 256 && b[5] == u.interval % 256
            && b[6] == u.seqno / 256 && b[7] == u.seqno % 256
            && b[8] == u.metric / 256 && b[9] == u.metric % 256
            && b[10..] == PrefixPart(said, u) + Sub(u)
  {
    hide Flags, PrefixPart, Omit, Sub, IsV4;
    var b := UpdateBody(said, u);
    assert b[10..] == PrefixPart(said, u) + Sub(u);
  }

  lemma {:induction false} RebuildV4(u: Outgoing, p: seq<Byte>, dp: Option<Addr>)
    requires Sendable(u) && IsV4(u)
    requires var n := (u.plen + 7) / 8 - 12; |p| >= n && p[..n] == u.prefix[12..12 + n]
    ensures NetworkPrefix(1, u.plen - 96, 0, p, dp) == Some((u.prefix, (u.plen + 7) / 8 - 12))
  {
    var n := (u.plen + 7) / 8 - 12;
    assert V4PREFIX + p[..n] == u.prefix[..12 + n];
    hide Mask;
    MaskedByBytes(u.prefix, Filled(V4PREFIX + p[..n]), u.plen);
    assert Completed(V4PREFIX, p, n, u.plen) == (u.prefix, n);
    assert PrefixBytes(1, u.plen - 96) == n;
  }

  lemma {:induction false} RebuildV6(u: Outgoing, p: seq<Byte>, k: Byte, dp: Option<Addr>)
    requires Sendable(u) && k <= u.plen / 8 && (k > 0 ==> dp.Some? && dp.value[..k] == u.prefix[..k] && !V4Mapped(dp.value))
    requires var n := (u.plen + 7) / 8 - k as int; |p| >= n && p[..n] == u.prefix[k..k as int + n]
    ensures NetworkPrefix(2, u.plen, k, p, dp) == Some((u.prefix, (u.plen + 7) / 8 - k as int))
  {
    hide IsMasked, NetworkPrefix, Completed, V4Mapped;
    CompletedV6(u, p, k);
    ParsesV6(u, p, k, dp, (u.plen + 7) / 8);
  }

  lemma {:induction false} ParsesV6(u: Outgoing, p: seq<Byte>, k: Byte, dp: Option<Addr>, pb: nat)
    requires pb == PrefixBytes(2, u.plen) && k as int <= pb <= 16 && |p| >= pb - k as int
    requires k > 0 ==> dp.Some? && dp.value[..k] == u.prefix[..k] && !V4Mapped(dp.value)
    requires Completed(u.prefix[..k], p, pb - k as int, u.plen) == (u.prefix, pb - k as int)
    ensures NetworkPrefix(2, u.plen, k, p, dp) == Some((u.prefix, pb - k as int))
  {
    hide Completed, V4Mapped, PrefixBytes;
    assert k == 0 ==> u.prefix[..k] == [];
  }

  lemma {:induction false} CompletedV6(u: Outgoing, p: seq<Byte>, k: Byte)
    requires Sendable(u) && k <= u.plen / 8
    requires var n := (u.plen + 7) / 8 - k as int; |p| >= n && p[..n] == u.prefix[k..k as int + n]
    ensures var n := (u.plen + 7) / 8 - k as int; Completed(u.prefix[..k], p, n, u.plen) == (u.prefix, n)
  {
    var n := (u.plen + 7) / 8 - k as int;
    assert u.prefix[..k] + p[..n] == u.prefix[..k as int + n];
    hide Mask;
    MaskedByBytes(u.prefix, Filled(u.prefix[..k] + p[..n]), u.plen);
  }

  /** The receiver rebuilds the prefix. */
  lemma {:induction false} PrefixParses(said: Said, st: Receiver, u: Outgoing)
    requires Sendable(u) && PrefixInStep(said, st)
    ensures ParsedPrefix(st, UpdateBody(said, u)) == Some((u.prefix, |PrefixPart(said, u)|))
  {
    hide UpdateBody, Flags, Sub, NetworkPrefix, IsMasked, V4Mapped;
    BodyFields(said, u);
    var p, n := PrefixPart(said, u) + Sub(u), |PrefixPart(said, u)|;
    assert p[..n] == PrefixPart(said, u);
    if IsV4(u) { RebuildV4(u, p, st.v4prefix); } else { RebuildV6(u, p, Omit(said, u), st.v6prefix); }
  }

  lemma {:induction false} RememberInStep(said: Said, st: Receiver, u: Outgoing, ip4: Option<V4>)
    requires Sendable(u) && Ready(said, st, u, ip4)
    ensures var st1 := Remember(st, if IsV4(u) then 1 else 2, Flags(said, u), u.prefix);
            st1.id == Some(u.id) && st1.v4nh == st.v4nh && st1.v6nh == st.v6nh && InStep(SaidAfter(said, u, ip4), st1)
  {
    FlagBits(said, u);
    if u.plen < 96 { ShortIsNotV4(u.prefix, u.plen); }
    hide Flags, Flag, IsMasked;
  }

  lemma {:induction false} WordBack(n: U16)
    ensures GetWord([n / 256, n % 256]) == n
  {
  }

  lemma {:induction false} EventRebuilt(said: Said, u: Outgoing, ip4: Option<V4>)
    requires Sendable(u) && (IsV4(u) ==> ip4.Some?)
    ensures |UpdateBody(said, u)| >= 10 + |PrefixPart(said, u)|
    ensures EventOf(u.id, u.prefix, if IsV4(u) then Some(V4PREFIX + ip4.value) else None, UpdateBody(said, u), |PrefixPart(said, u)|)
         == EventFor(u, ip4)
  {
    BodyFields(said, u);
    var b, n := UpdateBody(said, u), |PrefixPart(said, u)|;
    assert b[10 + n..] == Sub(u) by { assert b[10 + n..] == b[10..][n..]; }
    hide UpdateBody, Sub, PrefixPart, IsMasked, Omit, Flags, IsV4, GetWord;
    WordBack(u.interval);
    WordBack(u.seqno);
    WordBack(u.metric);
  }

  /** An Update TLV, once the receiver knows the router-id and the next hop. */
  lemma {:induction false} HandleUpdateTlv(said: Said, st: Receiver, u: Outgoing, ip4: Option<V4>)
    requires Sendable(u) && Ready(said, st, u, ip4)
    ensures var r := Handle(st, Tlv(MESSAGE_UPDATE, UpdateBody(said, u)));
            && r.1 == [EventFor(u, ip4)] && InStep(SaidAfter(said, u, ip4), r.0)
  {
    hide UpdateBody, Sub, PrefixPart, ParsedPrefix, IsMasked, Omit, Flags, Remember, SaidAfter, IsV4, IdInPrefix, SaysPrefix, EventOf, EventFor, GetWord;
    BodyFields(said, u);
    PrefixParses(said, st, u);
    RememberInStep(said, st, u, ip4);
    EventRebuilt(said, u, ip4);
  }

  lemma {:induction false} FlagBits(said: Said, u: Outgoing)
    ensures Flag(Flags(said, u), 128) <==> SaysPrefix(said, u)
    ensures Flag(Flags(said, u), 64) <==> said.id != Some(u.id) && IdInPrefix(u)
  {
  }

  lemma {:induction false} WalkOne(st: Receiver, t: Tlv)
    ensures Walk(st, [t]) == Handle(st, t)
  {
    var r := Handle(st, t);
    hide Handle;
    assert [t][1..] == [] && Walk(r.0, []) == (r.0, []) && r.1 + [] == r.1;
  }

  lemma {:induction false} OtherIgnored(st: Receiver, t: Tlv)
    requires t.ty !in {MESSAGE_ROUTER_ID, MESSAGE_NH, MESSAGE_UPDATE}
    ensures Walk(st, [t]) == (st, [])
  {
    WalkOne(st, t);
  }

  /** The TLVs before the Update say what it leaves unsaid. */
  lemma {:induction false} MakesReady(said: Said, st: Receiver, u: Outgoing, ip4: Option<V4>)
    requires Sendable(u) && InStep(said, st) && (IsV4(u) ==> ip4.Some?)
    ensures var r := Walk(st, NhTlvs(said, u, ip4) + IdTlvs(said, u));
            r.1 == [] && Ready(said, r.0, u, ip4)
  {
    var nhs, ids := NhTlvs(said, u, ip4), IdTlvs(said, u);
    WalkConcat(st, nhs, ids);
    if nhs != [] {
      WalkOne(st, nhs[0]);
      HandleNhTlv(st, ip4.value);
    }
    var st1 := Walk(st, nhs).0;
    if ids != [] {
      WalkOne(st1, ids[0]);
      HandleIdTlv(st1, u.id);
    }
    hide Handle, IsMasked;
  }

  /** One update: the receiver sees exactly what was asked for, and both sides
      are in step again. */
  lemma {:induction false} UpdateUnderstood(said: Said, st: Receiver, u: Outgoing, ip4: Option<V4>)
    requires Sendable(u) && InStep(said, st) && (IsV4(u) ==> ip4.Some?)
    ensures var r := Walk(st, UpdateTlvs(said, u, ip4));
            r.1 == [EventFor(u, ip4)] && InStep(SaidAfter(said, u, ip4), r.0)
  {
    hide InStep, Ready, Handle, SaidAfter, EventFor, NhTlvs, IdTlvs, UpdateBody, IsMasked;
    var pre, t := NhTlvs(said, u, ip4) + IdTlvs(said, u), Tlv(MESSAGE_UPDATE, UpdateBody(said, u));
    MakesReady(said, st, u, ip4);
    WalkConcat(st, pre, [t]);
    WalkOne(Walk(st, pre).0, t);
    HandleUpdateTlv(said, Walk(st, pre).0, u, ip4);
  }

  // ------------------------------------------------------------------
  // The wildcard retraction
  // ------------------------------------------------------------------

  function WildcardTlv(seqno: U16): Tlv {
    Tlv(MESSAGE_UPDATE, [0, 0x40, 0, 0] + PutWord(0xFFFF) + PutWord(seqno) + PutWord(0xFFFF))
  }

  /** It leaves the receiver with another router-id than the sender's last one,
      which is why the sender forgets that one. */
  lemma {:induction false} WildcardUnderstood(said: Said, st: Receiver, seqno: U16)
    requires InStep(said, st)
    ensures var r := Handle(st, WildcardTlv(seqno));
            r.1 == [RetractAll] && InStep(said.(id := None), r.0) && r.0.id == Some([0, 0, 0, 0, 0, 0, 0, 0])
  {
    var b := WildcardTlv(seqno).body;
    assert b[0] == 0 && b[1] == 0x40 && b[2] == 0 && b[8] == 255 && b[9] == 255;
    assert Mask(ZEROS, 0)[8..] == [0, 0, 0, 0, 0, 0, 0, 0];
  }

  // ------------------------------------------------------------------
  // Sizes
  // ------------------------------------------------------------------

  /** What ensure_space reserves before an update. */
  const RESERVED := 20 + 12 + 28

  /** The reservation covers the longest update with all that precedes it. */
  lemma {:induction false} UpdateFits(said: Said, u: Outgoing, ip4: Option<V4>)
    requires Sendable(u) && (IsV4(u) ==> ip4.Some?)
    ensures AllWritable(UpdateTlvs(said, u, ip4)) && |Encode(UpdateTlvs(said, u, ip4))| <= 50 < RESERVED
  {
    hide UpdateBody, NhTlvs, IdTlvs, UpdateTlvs, IsV4, Sendable, Encode, EncodeOne, AllWritable;
    UpdateEncoded(said, u, ip4);
    UpdateSizes(said, u, ip4);
  }

  /** A next hop is only sent with an IPv4 prefix, which is short. */
  lemma {:induction false} UpdateSizes(said: Said, u: Outgoing, ip4: Option<V4>)
    requires Sendable(u) && (IsV4(u) ==> ip4.Some?)
    ensures |UpdateBody(said, u)| <= if IsV4(u) then 24 else 36
    ensures !IsV4(u) ==> NhTlvs(said, u, ip4) == [] && Encode(NhTlvs(said, u, ip4)) == []
  {
    BodyFields(said, u);
    assert |PrefixPart(said, u)| <= 16 && (IsV4(u) ==> |PrefixPart(said, u)| <= 4) && |Sub(u)| <= 10;
    hide UpdateBody, IsMasked;
  }

  lemma {:induction false} EncodeAtMostOne(ts: seq<Tlv>)
    requires |ts| <= 1 && AllWritable(ts)
    ensures Encode(ts) == if ts == [] then [] else EncodeOne(ts[0])
  {
    if ts != [] { assert ts[1..] == [] && EncodeOne(ts[0]) + [] == EncodeOne(ts[0]); }
  }

  // ------------------------------------------------------------------
  // The buffer
  // ------------------------------------------------------------------

  /** What a receiver makes of a packet. */
  ghost function Parsed(body: seq<Byte>): seq<Event> { Walk(START, Frames(body)).1 }

  ghost function Flatten(logs: seq<seq<Event>>): seq<Event> {
    if logs == [] then [] else Flatten(logs[..|logs| - 1]) + logs[|logs| - 1]
  }

  lemma {:induction false} FlattenAppend(logs: seq<seq<Event>>, log: seq<Event>)
    ensures Flatten(logs + [log]) == Flatten(logs) + log
  {
    assert (logs + [log])[..|logs|] == logs;
  }

  lemma {:induction false} EncodeNothing(ts: seq<Tlv>)
    requires AllWritable(ts) && Encode(ts) == []
    ensures ts == []
  {
  }

  /** One interface's output: the buffer and what has been sent from it. */
  class Interface {
    const bufsize: nat
    const sendbuf: array<Byte>
    var buffered: nat
    var said: Said
    var ipv4: Option<V4>
    var packets: seq<seq<Byte>>
    ghost var tlvs: seq<Tlv>
    ghost var logs: seq<seq<Event>>

    /** What a receiver will make of the packet being built. */
    ghost function Log(): seq<Event>
      reads this
    {
      Walk(START, tlvs).1
    }

    /** Everything the callers asked for so far, in order. */
    ghost function Asked(): seq<Event>
      reads this
    {
      Flatten(logs) + Log()
    }

    ghost predicate Valid()
      reads this, sendbuf
    {
      && 64 <= bufsize == sendbuf.Length && buffered <= bufsize
      && AllWritable(tlvs) && sendbuf[..buffered] == Encode(tlvs) && InStep(said, Walk(START, tlvs).0)
      && Understood(packets, logs)
    }

    /** Every packet sent is parsed into what was asked for. */
    static ghost predicate Understood(packets: seq<seq<Byte>>, logs: seq<seq<Event>>) {
      |logs| == |packets| && forall i :: 0 <= i < |packets| ==> Parsed(packets[i]) == logs[i]
    }

    constructor (bufsize: nat)
      requires bufsize >= 64
      ensures Valid() && fresh(sendbuf) && Asked() == [] && packets == []
    {
      this.bufsize, sendbuf := bufsize, new Byte[bufsize](_ => 0);
      buffered, said, ipv4, packets, tlvs, logs := 0, NOTHING, None, [], [], [];
    }

    /** flushbuf: the packet goes out and everything said in it is forgotten. */
    method FlushBuf()
      requires Valid()
      modifies this`buffered, this`said, this`packets, this`tlvs, this`logs
      ensures Valid() && buffered == 0 && said == NOTHING && tlvs == [] && Asked() == old(Asked())
      ensures packets == old(packets) + if old(buffered) > 0 then [old(sendbuf[..buffered])] else []
    {
      hide Flatten, AllWritable, Parsed, Encode, Walk, Understood, InStep;
      EmptyPacket();
      ghost var log := Log();
      FlattenAppend(logs, log);
      if buffered > 0 {
        ParsedEncoded(tlvs);
        UnderstoodMore(packets, logs, sendbuf[..buffered], log);
        packets, logs := packets + [sendbuf[..buffered]], logs + [log];
      } else {
        EncodeNothing(tlvs);
      }
      buffered, said, tlvs := 0, NOTHING, [];
    }

    static lemma {:induction false} EmptyPacket()
      ensures AllWritable([]) && Encode([]) == [] && InStep(NOTHING, Walk(START, []).0) && Walk(START, []).1 == []
      ensures forall events: seq<Event> :: events + [] == events
    {
    }

    static lemma {:induction false} ParsedEncoded(ts: seq<Tlv>)
      requires AllWritable(ts)
      ensures Parsed(Encode(ts)) == Walk(START, ts).1
    {
      hide Frames, Encode, Walk;
      FramesEncode(ts);
    }

    static lemma {:induction false} UnderstoodMore(packets: seq<seq<Byte>>, logs: seq<seq<Event>>, p: seq<Byte>, log: seq<Event>)
      requires Understood(packets, logs) && Parsed(p) == log
      ensures Understood(packets + [p], logs + [log])
    {
      hide Parsed;
    }

    method EnsureSpace(space: nat)
      requires Valid() && space <= bufsize
      modifies this`buffered, this`said, this`packets, this`tlvs, this`logs
      ensures Valid() && bufsize - buffered >= space && Asked() == old(Asked())
      ensures bufsize - old(buffered) >= space ==>
                buffered == old(buffered) && said == old(said) && tlvs == old(tlvs) && packets == old(packets) && logs == old(logs)
      ensures bufsize - old(buffered) < space ==>
                tlvs == [] && packets == old(packets) + if old(buffered) > 0 then [old(sendbuf[..buffered])] else []
    {
      if bufsize - buffered < space { FlushBuf(); }
    }

    // --------------------------------------------------------------
    // Bytes
    // --------------------------------------------------------------

    ghost predicate Room(n: nat)
      reads this
    {
      sendbuf.Length == bufsize && buffered + n <= bufsize
    }

    method AccumulateByte(v: Byte)
      requires Room(1)
      modifies this`buffered, sendbuf
      ensures buffered == old(buffered) + 1 && Room(0) && sendbuf[..buffered] == old(sendbuf[..buffered]) + [v]
    {
      sendbuf[buffered] := v;
      buffered := buffered + 1;
    }

    method AccumulateShort(v: U16)
      requires Room(2)
      modifies this`buffered, sendbuf
      ensures buffered == old(buffered) + 2 && Room(0) && sendbuf[..buffered] == old(sendbuf[..buffered]) + PutWord(v)
    {
      sendbuf[buffered] := v / 256;
      sendbuf[buffered + 1] := v % 256;
      buffered := buffered + 2;
    }

    method AccumulateBytes(bs: seq<Byte>)
      requires Room(|bs|)
      modifies this`buffered, sendbuf
      ensures buffered == old(buffered) + |bs| && Room(0) && sendbuf[..buffered] == old(sendbuf[..buffered]) + bs
    {
      ghost var before := sendbuf[..buffered];
      var i := 0;
      while i < |bs|
        invariant 0 <= i <= |bs| && buffered == old(buffered)
        invariant sendbuf[..buffered + i] == before + bs[..i]
      {
        sendbuf[buffered + i] := bs[i];
        i := i + 1;
        assert sendbuf[..buffered + i] == sendbuf[..buffered + i - 1] + [bs[i - 1]];
      }
      buffered := buffered + |bs|;
    }

    // --------------------------------------------------------------
    // Messages
    // --------------------------------------------------------------

    /** start_message when there is room, as there is after ensure_space. */
    method StartMessage(ty: Byte, len: Byte)
      requires Room(len as int + 2)
      modifies this`buffered, sendbuf
      ensures Room(len as int) && sendbuf[..buffered] == old(sendbuf[..buffered]) + [ty, len]
    {
      AccumulateByte(ty);
      AccumulateByte(len);
    }

    /** end_message: what its assertion says. */
    ghost predicate Ended(t: Tlv)
      reads this, sendbuf
    {
      && buffered <= sendbuf.Length && buffered >= |t.body| + 2
      && sendbuf[buffered - |t.body| - 2] == t.ty && sendbuf[buffered - |t.body| - 1] as int == |t.body|
    }

    method SendNh(ip4: V4)
      requires Room(8)
      modifies this`buffered, sendbuf
      ensures Room(0) && sendbuf[..buffered] == old(sendbuf[..buffered]) + EncodeOne(NhTlv(ip4)) && Ended(NhTlv(ip4))
    {
      ghost var b := sendbuf[..buffered];
      StartMessage(MESSAGE_NH, 6);
      AccumulateByte(1);
      AccumulateByte(0);
      AccumulateBytes(ip4);
      assert sendbuf[..buffered] == b + ([MESSAGE_NH, 6] + ([1, 0] + ip4));
      EndMessage(b, NhTlv(ip4));
    }

    method SendRouterId(rid: RouterId)
      requires Room(12)
      modifies this`buffered, sendbuf
      ensures Room(0) && sendbuf[..buffered] == old(sendbuf[..buffered]) + EncodeOne(IdTlv(rid)) && Ended(IdTlv(rid))
    {
      ghost var b := sendbuf[..buffered];
      StartMessage(MESSAGE_ROUTER_ID, 10);
      AccumulateShort(0);
      AccumulateBytes(rid);
      assert sendbuf[..buffered] == b + ([MESSAGE_ROUTER_ID, 10] + ([0, 0] + rid));
      EndMessage(b, IdTlv(rid));
    }

    lemma {:induction false} EndMessage(b: seq<Byte>, t: Tlv)
      requires Writable(t) && Room(0) && sendbuf[..buffered] == b + EncodeOne(t)
      ensures Ended(t)
    {
      assert sendbuf[..buffered][|b|] == t.ty && sendbuf[..buffered][|b| + 1] as int == |t.body|;
    }

    /** The Update message itself; `s` is what had been said before this update. */
    method SendUpdateMessage(s: Said, u: Outgoing, omit: nat, flags: Byte)
      requires Sendable(u) && omit == Omit(s, u) && flags == Flags(s, u) && Room(2 + |UpdateBody(s, u)|)
      modifies this`buffered, sendbuf
      ensures Room(0) && Writable(Tlv(MESSAGE_UPDATE, UpdateBody(s, u)))
      ensures sendbuf[..buffered] == old(sendbuf[..buffered]) + EncodeOne(Tlv(MESSAGE_UPDATE, UpdateBody(s, u)))
      ensures Ended(Tlv(MESSAGE_UPDATE, UpdateBody(s, u)))
    {
      hide UpdateBody, PrefixPart, Omit, Flags, IsMasked, V4Mapped;
      var v4 := IsV4(u);
      var realPlen := if v4 then u.plen - 96 else u.plen;
      var realPrefix := if v4 then u.prefix[12..] else u.prefix;
      var n := (realPlen + 7) / 8;
      ghost var b, t := sendbuf[..buffered], Tlv(MESSAGE_UPDATE, UpdateBody(s, u));
      PartIs(s, u, omit, realPrefix, n);
      var channelsSize := if u.channels.None? then 0 else |u.channels.value| + 2;
      SendUpdateHead(10 + n - omit + channelsSize, if v4 then 1 else 2, flags, realPlen, omit);
      SendUpdateTail(u, realPrefix[omit..n]);
      TailIs(s, u, b, omit, flags, realPlen, realPrefix[omit..n]);
      EndMessage(b, t);
    }

    method SendUpdateHead(len: Byte, ae: Byte, flags: Byte, plen: Byte, omit: Byte)
      requires Room(2 + len as int) && len >= 4
      modifies this`buffered, sendbuf
      ensures Room(len as int - 4)
      ensures sendbuf[..buffered] == old(sendbuf[..buffered]) + [MESSAGE_UPDATE, len] + [ae, flags, plen, omit]
    {
      StartMessage(MESSAGE_UPDATE, len);
      AccumulateByte(ae);
      AccumulateByte(flags);
      AccumulateByte(plen);
      AccumulateByte(omit);
    }

    /** The fields after the first four, the prefix and the channels. */
    method SendUpdateTail(u: Outgoing, part: seq<Byte>)
      requires Sendable(u) && Room(6 + |part| + |Sub(u)|)
      modifies this`buffered, sendbuf
      ensures Room(0)
      ensures sendbuf[..buffered] == old(sendbuf[..buffered]) + (PutWord(u.interval) + PutWord(u.seqno) + PutWord(u.metric) + part + Sub(u))
    {
      ghost var b := sendbuf[..buffered];
      hide IsMasked, PutWord;
      SendShorts(u.interval, u.seqno, u.metric);
      ghost var c := PutWord(u.interval) + PutWord(u.seqno) + PutWord(u.metric);
      AccumulateBytes(part);
      Assoc(b, c, part);
      SendChannels(u);
      Assoc(b, c + part, Sub(u));
    }

    method SendShorts(x: U16, y: U16, z: U16)
      requires Room(6)
      modifies this`buffered, sendbuf
      ensures Room(0) && buffered == old(buffered) + 6
      ensures sendbuf[..buffered] == old(sendbuf[..buffered]) + (PutWord(x) + PutWord(y) + PutWord(z))
    {
      hide PutWord;
      AccumulateShort(x);
      AccumulateShort(y);
      AccumulateShort(z);
    }

    method SendChannels(u: Outgoing)
      requires (u.channels.Some? ==> |u.channels.value| <= 8) && Room(|Sub(u)|)
      modifies this`buffered, sendbuf
      ensures Room(0) && sendbuf[..buffered] == old(sendbuf[..buffered]) + Sub(u)
    {
      if u.channels.Some? {
        AccumulateByte(2);
        AccumulateByte(|u.channels.value|);
        AccumulateBytes(u.channels.value);
      }
    }

    lemma {:induction false} PartIs(s: Said, u: Outgoing, omit: nat, realPrefix: seq<Byte>, n: nat)
      requires Sendable(u) && omit == Omit(s, u) && realPrefix == (if IsV4(u) then u.prefix[12..] else u.prefix)
      requires n == ((if IsV4(u) then u.plen - 96 else u.plen) + 7) / 8
      ensures omit <= n <= |realPrefix| && realPrefix[omit..n] == PrefixPart(s, u)
      ensures |UpdateBody(s, u)| == 10 + n - omit + |Sub(u)| <= 36
    {
      BodyFields(s, u);
      if IsV4(u) { assert realPrefix[0..n] == u.prefix[12..12 + n]; }
    }

    lemma {:induction false} TailIs(s: Said, u: Outgoing, b: seq<Byte>, omit: Byte, flags: Byte, realPlen: Byte, part: seq<Byte>)
      requires Sendable(u) && omit == Omit(s, u) && flags == Flags(s, u) && part == PrefixPart(s, u)
      requires realPlen == (if IsV4(u) then u.plen - 96 else u.plen) && |UpdateBody(s, u)| < 256
      ensures b + [MESSAGE_UPDATE, |UpdateBody(s, u)|] + [if IsV4(u) then 1 else 2, flags, realPlen, omit]
              + (PutWord(u.interval) + PutWord(u.seqno) + PutWord(u.metric) + part + Sub(u))
           == b + EncodeOne(Tlv(MESSAGE_UPDATE, UpdateBody(s, u)))
    {
      hide Omit, Flags, PrefixPart, PutWord, Sub, IsMasked, IsV4;
    }

    /** The loop that counts the bytes a prefix shares with the last one said. */
    method CommonBytes(a: Addr, b: Addr, n: nat) returns (omit: nat)
      requires n <= 16
      ensures omit == SharedBytes(a, b, 0, n)
    {
      omit := 0;
      while omit < n && a[omit] == b[omit]
        invariant omit <= n && a[..omit] == b[..omit] && SharedBytes(a, b, 0, n) == SharedBytes(a, b, omit, n)
      {
        assert a[..omit + 1] == a[..omit] + [a[omit]] && b[..omit + 1] == b[..omit] + [b[omit]];
        omit := omit + 1;
      }
    }

    /** The next hop, if it has to be said. */
    method SayNh(u: Outgoing)
      requires Room(8) && (IsV4(u) ==> ipv4.Some?)
      modifies this`buffered, this`said, sendbuf
      ensures Room(0) && AllWritable(NhTlvs(old(said), u, ipv4))
      ensures sendbuf[..buffered] == old(sendbuf[..buffered]) + Encode(NhTlvs(old(said), u, ipv4))
      ensures said == if IsV4(u) then old(said).(nh := ipv4) else old(said)
    {
      EncodeAtMostOne(NhTlvs(said, u, ipv4));
      if IsV4(u) && said.nh != ipv4 {
        SendNh(ipv4.value);
        said := said.(nh := ipv4);
      }
    }

    /** The router-id, if it has to be said and cannot be read off the prefix. */
    method SayId(u: Outgoing) returns (flag: Byte)
      requires Room(12)
      modifies this`buffered, this`said, sendbuf
      ensures Room(0) && AllWritable(IdTlvs(old(said), u)) && said == old(said).(id := Some(u.id))
      ensures sendbuf[..buffered] == old(sendbuf[..buffered]) + Encode(IdTlvs(old(said), u))
      ensures flag == if old(said).id != Some(u.id) && IdInPrefix(u) then 64 else 0
    {
      EncodeAtMostOne(IdTlvs(said, u));
      flag := 0;
      if said.id != Some(u.id) {
        if IdInPrefix(u) {
          flag := 64;
        } else {
          SendRouterId(u.id);
        }
        said := said.(id := Some(u.id));
      }
    }

    /** Both, in this order. */
    method SayFirst(u: Outgoing) returns (flag: Byte)
      requires Room(20) && (IsV4(u) ==> ipv4.Some?)
      modifies this`buffered, this`said, sendbuf
      ensures AllWritable(NhTlvs(old(said), u, ipv4)) && AllWritable(IdTlvs(old(said), u))
      ensures Room(0) && buffered <= old(buffered) + 20
      ensures said == Said(Some(u.id), if IsV4(u) then ipv4 else old(said).nh, old(said).prefix)
      ensures sendbuf[..buffered] == old(sendbuf[..buffered]) + (Encode(NhTlvs(old(said), u, ipv4)) + Encode(IdTlvs(old(said), u)))
      ensures flag == if old(said).id != Some(u.id) && IdInPrefix(u) then 64 else 0
    {
      FirstFits(said, u, ipv4);
      hide Encode, NhTlvs, IdTlvs, IsV4, IdInPrefix, AllWritable;
      ghost var b, x, y := sendbuf[..buffered], Encode(NhTlvs(said, u, ipv4)), Encode(IdTlvs(said, u));
      SayNh(u);
      assert sendbuf[..buffered] == b + x;
      SameId(old(said), said, u);
      flag := SayId(u);
      assert sendbuf[..buffered] == (b + x) + y;
      Assoc(b, x, y);
    }

    /** The bytes of one update. */
    method WriteUpdate(u: Outgoing)
      requires Sendable(u) && Room(RESERVED) && (IsV4(u) ==> ipv4.Some?)
      modifies this`buffered, this`said, sendbuf
      ensures Room(0) && said == SaidAfter(old(said), u, ipv4) && AllWritable(UpdateTlvs(old(said), u, ipv4))
      ensures sendbuf[..buffered] == old(sendbuf[..buffered]) + Encode(UpdateTlvs(old(said), u, ipv4))
    {
      hide Encode, EncodeOne, NhTlvs, IdTlvs, UpdateBody, IsV4, IsMasked, Omit, IdInPrefix, UpdateTlvs, AllWritable, Writable, Mask, V4Mapped, PrefixPart, Sub;
      var s := said;
      UpdateEncoded(s, u, ipv4);
      ghost var b, x, y := sendbuf[..buffered], Encode(NhTlvs(s, u, ipv4)) + Encode(IdTlvs(s, u)), EncodeOne(Tlv(MESSAGE_UPDATE, UpdateBody(s, u)));
      var omit, bit := Compress(u);
      var flag := SayFirst(u);
      SendUpdateMessage(s, u, omit, bit + flag);
      assert sendbuf[..buffered] == (b + x) + y;
      Assoc(b, x, y);
      if bit == 128 { said := said.(prefix := Some(u.prefix)); }
    }

    /** What the prefix can leave out, and whether it is to be remembered. */
    method Compress(u: Outgoing) returns (omit: Byte, bit: Byte)
      requires Sendable(u)
      ensures omit == Omit(said, u) && bit == if SaysPrefix(said, u) then 128 else 0
    {
      omit, bit := 0, 0;
      if !IsV4(u) {
        if said.prefix.Some? { omit := CommonBytes(said.prefix.value, u.prefix, u.plen / 8); }
        if said.prefix.None? || u.plen >= 48 { bit := 128; }
      }
    }

    // --------------------------------------------------------------
    // Sending
    // --------------------------------------------------------------

    /** Whole messages have been added to the buffer. */
    ghost method Added(ts: seq<Tlv>, events: seq<Event>)
      requires 64 <= bufsize == sendbuf.Length && buffered <= bufsize && Understood(packets, logs)
      requires AllWritable(tlvs) && AllWritable(ts) && sendbuf[..buffered] == Encode(tlvs) + Encode(ts)
      requires var r := Walk(Walk(START, tlvs).0, ts); r.1 == events && InStep(said, r.0)
      modifies this`tlvs
      ensures Valid() && tlvs == old(tlvs) + ts && Log() == old(Log()) + events && Asked() == old(Asked()) + events
    {
      EncodeConcat(tlvs, ts);
      WalkConcat(START, tlvs, ts);
      hide Walk, Encode, InStep, Understood;
      ghost var log := Log();
      tlvs := tlvs + ts;
      assert Flatten(logs) + (log + events) == Flatten(logs) + log + events;
    }

    /** really_send_update.  Either nothing is sent, because the output filter or a
        missing IPv4 address forbids it, or the receiver will see exactly the
        update with its filtered metric.  A flush can only come before it. */
    method ReallySendUpdate(v: Outgoing, addMetric: nat)
      requires Valid() && Sendable(v)
      modifies this`buffered, this`said, this`packets, this`tlvs, this`logs, sendbuf
      ensures Valid()
      ensures addMetric >= BabelNode.INFINITY as int ==> packets == old(packets) && tlvs == old(tlvs) && Asked() == old(Asked())
      ensures addMetric < BabelNode.INFINITY as int ==>
                var u := Outgoing(v.id, v.prefix, v.plen, v.seqno, BabelNode.MinInf(v.metric as int + addMetric), v.interval, v.channels);
                var full := bufsize - old(buffered) < RESERVED;
                && packets == old(packets) + (if full && old(buffered) > 0 then [old(sendbuf[..buffered])] else [])
                && tlvs == (if full then [] else old(tlvs))
                           + (if IsV4(u) && ipv4.None? then [] else UpdateTlvs(if full then NOTHING else old(said), u, ipv4))
                && Asked() == old(Asked()) + if IsV4(u) && ipv4.None? then [] else [EventFor(u, ipv4)]
    {
      if addMetric >= BabelNode.INFINITY as int { return; }
      var u := Outgoing(v.id, v.prefix, v.plen, v.seqno, BabelNode.MinInf(v.metric as int + addMetric), v.interval, v.channels);
      hide Walk, UpdateTlvs, Encode, InStep, Understood, EventFor, IsV4, IsMasked, AllWritable;
      EnsureSpace(RESERVED);
      SaidNothing();
      if IsV4(u) && ipv4.None? { return; }
      SendNow(u);
    }

    lemma {:induction false} SaidNothing()
      requires Valid()
      ensures tlvs == [] ==> said == NOTHING
    {
    }

    method SendNow(u: Outgoing)
      requires Valid() && Sendable(u) && bufsize - buffered >= RESERVED && (IsV4(u) ==> ipv4.Some?)
      modifies this`buffered, this`said, this`tlvs, sendbuf
      ensures Valid() && tlvs == old(tlvs) + UpdateTlvs(old(said), u, ipv4)
      ensures Asked() == old(Asked()) + [EventFor(u, ipv4)]
    {
      ghost var s := said;
      UpdateUnderstood(s, Walk(START, tlvs).0, u, ipv4);
      hide Walk, UpdateTlvs, Encode, InStep, Understood, EventFor, IsV4, SaidAfter, IsMasked, AllWritable;
      WriteUpdate(u);
      Added(UpdateTlvs(s, u, ipv4), [EventFor(u, ipv4)]);
    }

    /** send_wildcard_retraction */
    method SendWildcardRetraction(myseqno: U16)
      requires Valid()
      modifies this`buffered, this`said, this`packets, this`tlvs, this`logs, sendbuf
      ensures Valid() && said.id.None? && Asked() == old(Asked()) + [RetractAll]
    {
      EnsureSpace(12);
      ghost var t, b := WildcardTlv(myseqno), sendbuf[..buffered];
      WildcardUnderstood(said, Walk(START, tlvs).0, myseqno);
      WalkOne(Walk(START, tlvs).0, t);
      EncodeAtMostOne([t]);
      hide Walk, Encode, Understood, Handle, AllWritable;
      WriteWildcard(myseqno);
      said := said.(id := None);
      Added([t], [RetractAll]);
    }

    method WriteWildcard(myseqno: U16)
      requires Room(12)
      modifies this`buffered, sendbuf
      ensures Room(0) && sendbuf[..buffered] == old(sendbuf[..buffered]) + EncodeOne(WildcardTlv(myseqno))
    {
      ghost var b := sendbuf[..buffered];
      SendUpdateHead(10, 0, 0x40, 0, 0);
      hide PutWord;
      AccumulateShort(0xFFFF);
      AccumulateShort(myseqno);
      AccumulateShort(0xFFFF);
      assert sendbuf[..buffered] == b + ([MESSAGE_UPDATE, 10] + ([0, 0x40, 0, 0] + PutWord(0xFFFF) + PutWord(myseqno) + PutWord(0xFFFF)));
    }

    /** Any other message: hello, IHU, acknowledgement, request. */
    method SendOther(ty: Byte, body: seq<Byte>)
      requires Valid() && Writable(Tlv(ty, body)) && ty !in {MESSAGE_ROUTER_ID, MESSAGE_NH, MESSAGE_UPDATE} && |body| + 2 <= bufsize
      modifies this`buffered, this`said, this`packets, this`tlvs, this`logs, sendbuf
      ensures Valid() && Asked() == old(Asked())
    {
      EnsureSpace(|body| + 2);
      ghost var t := Tlv(ty, body);
      OtherIgnored(Walk(START, tlvs).0, t);
      EncodeAtMostOne([t]);
      hide Walk, Encode, Understood, InStep, AllWritable, EncodeOne, Writable, Flatten;
      WriteOther(ty, body);
      Added([t], []);
      assert old(Asked()) + [] == old(Asked());
    }

    method WriteOther(ty: Byte, body: seq<Byte>)
      requires Writable(Tlv(ty, body)) && Room(|body| + 2)
      modifies this`buffered, sendbuf
      ensures Room(0) && sendbuf[..buffered] == old(sendbuf[..buffered]) + EncodeOne(Tlv(ty, body))
    {
      ghost var b := sendbuf[..buffered];
      StartMessage(ty, |body|);
      AccumulateBytes(body);
      Assoc(b, [ty, |body|], body);
    }

    /** The interface gets, loses or changes its IPv4 address. */
    method SetIpv4(ip4: Option<V4>)
      requires Valid()
      modifies this`ipv4
      ensures Valid() && ipv4 == ip4 && Asked() == old(Asked())
    {
      ipv4 := ip4;
    }

    /** After a flush everything asked for is in the packets, in order, and each
        packet is parsed into its share. */
    lemma {:induction false} AllIsSent()
      requires Valid() && buffered == 0
      ensures Asked() == Flatten(logs) && |logs| == |packets|
      ensures forall i :: 0 <= i < |packets| ==> Parsed(packets[i]) == logs[i]
    {
      EncodeNothing(tlvs);
      assert Flatten(logs) + [] == Flatten(logs);
    }
  }

  lemma {:induction false} FirstFits(s: Said, u: Outgoing, ip4: Option<V4>)
    requires IsV4(u) ==> ip4.Some?
    ensures AllWritable(NhTlvs(s, u, ip4)) && AllWritable(IdTlvs(s, u))
    ensures |Encode(NhTlvs(s, u, ip4))| <= 8 && |Encode(IdTlvs(s, u))| <= 12
  {
    EncodeAtMostOne(NhTlvs(s, u, ip4));
    EncodeAtMostOne(IdTlvs(s, u));
  }

  lemma {:induction false} Assoc(b: seq<Byte>, x: seq<Byte>, y: seq<Byte>)
    ensures (b + x) + y == b + (x + y)
  {
  }

  lemma {:induction false} SameId(s: Said, s': Said, u: Outgoing)
    requires s.id == s'.id
    ensures IdTlvs(s, u) == IdTlvs(s', u)
  {
  }

  lemma {:induction false} UpdateEncoded(s: Said, u: Outgoing, ip4: Option<V4>)
    requires Sendable(u) && (IsV4(u) ==> ip4.Some?)
    ensures var t := Tlv(MESSAGE_UPDATE, UpdateBody(s, u));
            && AllWritable(NhTlvs(s, u, ip4)) && AllWritable(IdTlvs(s, u)) && Writable(t)
            && AllWritable(UpdateTlvs(s, u, ip4))
            && Encode(UpdateTlvs(s, u, ip4)) == Encode(NhTlvs(s, u, ip4)) + Encode(IdTlvs(s, u)) + EncodeOne(t)
            && |Encode(NhTlvs(s, u, ip4))| <= 8 && |Encode(IdTlvs(s, u))| <= 12 && |EncodeOne(t)| == 2 + |t.body| <= 38
  {
    hide UpdateBody, IsMasked, Encode;
    BodyFields(s, u);
    var nhs, ids, t := NhTlvs(s, u, ip4), IdTlvs(s, u), Tlv(MESSAGE_UPDATE, UpdateBody(s, u));
    EncodeConcat(nhs + ids, [t]);
    EncodeConcat(nhs, ids);
    EncodeAtMostOne(nhs);
    EncodeAtMostOne(ids);
    EncodeAtMostOne([t]);
  }
}
