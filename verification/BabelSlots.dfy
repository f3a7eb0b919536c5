/**
 The shape of the Babel route table (babeld/route.c): an array of slots sorted
 by prefix, each a list of routes to one prefix whose head alone may be
 installed.  Pure facts about slots and tables; module BabelTable changes them
 in place.
 */
module BabelSlots {
  import opened Common
  import opened BabelNode

  /** A 16-byte address is read as a big-endian number, so memcmp is `<`. */
  datatype Prefix = Prefix(addr: nat, plen: nat)

  /** route_compare */
  function Compare(p: Prefix, q: Prefix): int {
    if p.addr < q.addr then -1 else if p.addr > q.addr then 1
    else if p.plen < q.plen then -1 else if p.plen > q.plen then 1 else 0
  }

  datatype Neighbour = Neighbour(id: nat, ifindex: nat)

  /** struct babel_route */
  datatype Entry = Entry(
    prefix: Prefix, neigh: Neighbour, nexthop: nat, r: Route,
    time: int, holdTime: int, smoothed: U16, smoothedTime: int)

  function KeyOf(e: Entry): Key { Key(e.neigh.id, e.nexthop) }

  type Slot = seq<Entry>
  type Table = seq<Slot>

  ghost predicate SlotOk(s: Slot) {
    && s != []
    && (forall j :: 0 <= j < |s| ==> s[j].prefix == s[0].prefix)
    && UniqueKeys(s)
    && (forall j :: 0 < j < |s| ==> !s[j].r.installed)
  }

  ghost predicate UniqueKeys(s: Slot) {
    forall i, j :: 0 <= i < j < |s| ==> KeyOf(s[i]) != KeyOf(s[j])
  }

  ghost predicate SlotsOk(t: Table) { forall i :: 0 <= i < |t| ==> SlotOk(t[i]) }

  ghost predicate Sorted(t: Table)
    requires SlotsOk(t)
  {
    forall i, j :: 0 <= i < j < |t| ==> Compare(t[i][0].prefix, t[j][0].prefix) < 0
  }

  ghost predicate TableOk(t: Table) { SlotsOk(t) && Sorted(t) }

  // ------------------------------------------------------------------
  // The routes of a slot by neighbour and next hop
  // ------------------------------------------------------------------

  ghost function Keys(s: Slot): set<Key> { set e | e in s :: KeyOf(e) }

  lemma {:induction false} KeysConcat(s: Slot, t: Slot)
    ensures Keys(s + t) == Keys(s) + Keys(t)
  {
    forall k | k in Keys(s) + Keys(t) ensures k in Keys(s + t) {
      if k in Keys(s) {
        var e :| e in s && KeyOf(e) == k;
        assert e in s + t;
      } else {
        var e :| e in t && KeyOf(e) == k;
        assert e in s + t;
      }
    }
  }

  lemma {:induction false} KeysSingle(e: Entry)
    ensures Keys([e]) == {KeyOf(e)}
  {
    assert e in [e];
  }

  ghost function SlotMap(s: Slot): map<Key, Route> {
    if s == [] then map[] else SlotMap(s[1..])[KeyOf(s[0]) := s[0].r]
  }

  lemma {:induction false} SlotMapKeys(s: Slot)
    ensures SlotMap(s).Keys == Keys(s)
  {
    if s != [] {
      SlotMapKeys(s[1..]);
      assert s == [s[0]] + s[1..];
      KeysConcat([s[0]], s[1..]);
      KeysSingle(s[0]);
    }
  }

  lemma {:induction false} SlotMapConcat(s: Slot, t: Slot)
    ensures SlotMap(s + t) == SlotMap(t) + SlotMap(s)
  {
    if s == [] {
      assert s + t == t;
    } else {
      SlotMapConcat(s[1..], t);
      assert (s + t)[1..] == s[1..] + t;
    }
  }

  lemma {:induction false} SlotMapSingle(e: Entry)
    ensures SlotMap([e]) == map[KeyOf(e) := e.r]
  {
  }

  /** Splitting a slot with unique keys at a route leaves disjoint keys. */
  lemma {:induction false} SplitAt(s: Slot, j: nat)
    requires UniqueKeys(s) && j < |s|
    ensures s == s[..j] + [s[j]] + s[j + 1..]
    ensures KeyOf(s[j]) !in Keys(s[..j]) && KeyOf(s[j]) !in Keys(s[j + 1..]) && Keys(s[..j]) !! Keys(s[j + 1..])
    ensures SlotMap(s) == SlotMap(s[j + 1..]) + map[KeyOf(s[j]) := s[j].r] + SlotMap(s[..j])
  {
    var x, y := s[..j], s[j + 1..];
    SlotMapConcat(x + [s[j]], y);
    SlotMapConcat(x, [s[j]]);
    SlotMapSingle(s[j]);
    assert s == x + [s[j]] + y;
    hide SlotMap;
    assert SlotMap(s) == SlotMap(y) + (map[KeyOf(s[j]) := s[j].r] + SlotMap(x));
  }

  lemma {:induction false} UpdateUnique(s: Slot, j: nat, e: Entry)
    requires UniqueKeys(s) && j < |s| && KeyOf(e) == KeyOf(s[j])
    ensures UniqueKeys(s[j := e])
  {
  }

  /** Changing one route of a slot in place. */
  lemma {:induction false} SlotMapUpdate(s: Slot, j: nat, e: Entry)
    requires UniqueKeys(s) && j < |s| && KeyOf(e) == KeyOf(s[j])
    ensures SlotMap(s[j := e]) == SlotMap(s)[KeyOf(e) := e.r]
  {
    hide SlotMap, Keys;
    var t := s[j := e];
    UpdateUnique(s, j, e);
    SplitAt(s, j);
    SplitAt(t, j);
    SlotMapKeys(s[..j]);
    hide UniqueKeys;
    assert t[..j] == s[..j] && t[j + 1..] == s[j + 1..] && t[j] == e;
  }

  /** The route at `k` is found at its own key. */
  lemma {:induction false} SlotMapAt(s: Slot, j: nat)
    requires UniqueKeys(s) && j < |s|
    ensures KeyOf(s[j]) in SlotMap(s) && SlotMap(s)[KeyOf(s[j])] == s[j].r
  {
    SplitAt(s, j);
    SlotMapKeys(s[..j]);
  }

  /** move_installed_route: the route at `j` to the head of its list. */
  function ToFront(s: Slot, j: nat): (t: Slot)
    requires j < |s|
    ensures |t| == |s|
  {
    [s[j]] + s[..j] + s[j + 1..]
  }

  lemma {:induction false} ToFrontUnique(s: Slot, j: nat)
    requires UniqueKeys(s) && j < |s|
    ensures UniqueKeys(ToFront(s, j))
  {
    var t := ToFront(s, j);
    assert forall i :: 0 <= i < |t| ==> t[i] == s[if i == 0 then j else if i <= j then i - 1 else i];
  }

  lemma {:induction false} SlotMapToFront(s: Slot, j: nat)
    requires UniqueKeys(s) && j < |s|
    ensures SlotMap(ToFront(s, j)) == SlotMap(s)
  {
    var x, y := s[..j], s[j + 1..];
    SplitAt(s, j);
    SlotMapConcat([s[j]] + x, y);
    SlotMapConcat([s[j]], x);
    SlotMapSingle(s[j]);
    SlotMapKeys(x);
    hide SlotMap;
  }

  /** Unlinking the route at `j`. */
  function Without(s: Slot, j: nat): Slot
    requires j < |s|
  {
    s[..j] + s[j + 1..]
  }

  lemma {:induction false} WithoutUnique(s: Slot, j: nat)
    requires UniqueKeys(s) && j < |s|
    ensures UniqueKeys(Without(s, j))
  {
    var t := Without(s, j);
    assert forall i :: 0 <= i < |t| ==> t[i] == s[if i < j then i else i + 1];
  }

  lemma {:induction false} SlotMapWithout(s: Slot, j: nat)
    requires UniqueKeys(s) && j < |s|
    ensures SlotMap(Without(s, j)) == SlotMap(s) - {KeyOf(s[j])}
  {
    var x, y := s[..j], s[j + 1..];
    SplitAt(s, j);
    SlotMapConcat(x, y);
    SlotMapKeys(x);
    SlotMapKeys(y);
    hide SlotMap;
  }

  lemma {:induction false} SlotMapAppend(s: Slot, e: Entry)
    requires UniqueKeys(s) && KeyOf(e) !in Keys(s)
    ensures UniqueKeys(s + [e]) && SlotMap(s + [e]) == SlotMap(s)[KeyOf(e) := e.r]
  {
    assert forall j :: 0 <= j < |s| ==> s[j] in s;
    SlotMapConcat(s, [e]);
    SlotMapSingle(e);
    SlotMapKeys(s);
    hide SlotMap;
  }

  // ------------------------------------------------------------------
  // The slot of a prefix
  // ------------------------------------------------------------------

  ghost predicate HasSlot(t: Table, p: Prefix)
    requires SlotsOk(t)
  {
    exists i :: 0 <= i < |t| && t[i][0].prefix == p
  }

  /** The routes to `p`, in list order; none if there is no slot. */
  ghost function SlotFor(t: Table, p: Prefix): Slot
    requires SlotsOk(t)
  {
    if HasSlot(t, p) then
      var i :| 0 <= i < |t| && t[i][0].prefix == p;
      t[i]
    else []
  }

  lemma {:induction false} SlotForAt(t: Table, i: nat)
    requires TableOk(t) && i < |t|
    ensures SlotFor(t, t[i][0].prefix) == t[i]
  {
    var p := t[i][0].prefix;
    assert HasSlot(t, p);
    var j :| 0 <= j < |t| && t[j][0].prefix == p && SlotFor(t, p) == t[j];
    assert forall a, b :: 0 <= a < b < |t| ==> t[a][0].prefix != t[b][0].prefix;
  }

  lemma {:induction false} NoSlotFor(t: Table, p: Prefix)
    requires SlotsOk(t) && forall i :: 0 <= i < |t| ==> t[i][0].prefix != p
    ensures SlotFor(t, p) == []
  {
  }

  /** `u` is `t` with the slot of `p` replaced by `s`. */
  ghost predicate OnlySlot(t: Table, u: Table, p: Prefix, s: Slot)
    requires SlotsOk(t) && SlotsOk(u)
  {
    SlotFor(u, p) == s && forall q :: q != p ==> SlotFor(u, q) == SlotFor(t, q)
  }

  lemma {:induction false} SlotForIndex(t: Table, p: Prefix) returns (i: nat)
    requires SlotsOk(t) && SlotFor(t, p) != []
    ensures i < |t| && t[i][0].prefix == p && SlotFor(t, p) == t[i]
  {
    i :| 0 <= i < |t| && t[i][0].prefix == p && SlotFor(t, p) == t[i];
  }

  /** Equal slots: `u` has every slot of `t` and no other, away from `p`. */
  lemma {:induction false} SameAway(t: Table, u: Table, p: Prefix)
    requires TableOk(t) && TableOk(u)
    requires forall i :: 0 <= i < |t| && t[i][0].prefix != p ==> t[i] in u
    requires forall i :: 0 <= i < |u| && u[i][0].prefix != p ==> u[i] in t
    ensures forall q :: q != p ==> SlotFor(u, q) == SlotFor(t, q)
  {
    forall q | q != p ensures SlotFor(u, q) == SlotFor(t, q) {
      if SlotFor(t, q) != [] {
        var i := SlotForIndex(t, q);
        var j :| 0 <= j < |u| && u[j] == t[i];
        SlotForAt(u, j);
      } else if SlotFor(u, q) != [] {
        var i := SlotForIndex(u, q);
        var j :| 0 <= j < |t| && t[j] == u[i];
        SlotForAt(t, j);
      }
    }
  }

  lemma {:induction false} ReplaceSlot(t: Table, i: nat, s: Slot)
    requires TableOk(t) && i < |t| && SlotOk(s) && s[0].prefix == t[i][0].prefix
    ensures TableOk(t[i := s]) && OnlySlot(t, t[i := s], s[0].prefix, s)
  {
    var u: Table := t[i := s];
    assert forall j :: 0 <= j < |t| ==> u[j][0].prefix == t[j][0].prefix;
    SlotForAt(u, i);
    assert forall j :: 0 <= j < |t| && j != i ==> u[j] == t[j];
    SameAway(t, u, s[0].prefix);
  }

  /** Where a new slot for `p` belongs. */
  ghost predicate Gap(t: Table, p: Prefix, n: nat)
    requires SlotsOk(t)
  {
    && n <= |t|
    && (forall i :: 0 <= i < n ==> Compare(t[i][0].prefix, p) < 0)
    && (forall i :: n <= i < |t| ==> Compare(p, t[i][0].prefix) < 0)
  }

  ghost function Inserted(t: Table, n: nat, s: Slot, j: nat): Slot
    requires n <= |t| && j <= |t|
  {
    if j < n then t[j] else if j == n then s else t[j - 1]
  }

  lemma {:induction false} InsertSlot(t: Table, n: nat, s: Slot)
    requires TableOk(t) && SlotOk(s) && Gap(t, s[0].prefix, n)
    ensures TableOk(t[..n] + [s] + t[n..]) && OnlySlot(t, t[..n] + [s] + t[n..], s[0].prefix, s)
    ensures SlotFor(t, s[0].prefix) == []
  {
    hide SlotFor, Sorted, UniqueKeys;
    var u: Table := t[..n] + [s] + t[n..];
    InsertTableOk(t, n, s);
    SlotForAt(u, n);
    forall j | 0 <= j < |t| ensures t[j] in u { assert t[j] == u[if j < n then j else j + 1]; }
    forall j | 0 <= j < |u| && u[j][0].prefix != s[0].prefix ensures u[j] in t { assert u[j] == Inserted(t, n, s, j); }
    SameAway(t, u, s[0].prefix);
    GapFree(t, s[0].prefix, n);
    NoSlotFor(t, s[0].prefix);
  }

  lemma {:induction false} GapFree(t: Table, p: Prefix, n: nat)
    requires SlotsOk(t) && Gap(t, p, n)
    ensures forall i :: 0 <= i < |t| ==> t[i][0].prefix != p
  {
  }

  lemma {:induction false} InsertTableOk(t: Table, n: nat, s: Slot)
    requires TableOk(t) && SlotOk(s) && Gap(t, s[0].prefix, n)
    ensures TableOk(t[..n] + [s] + t[n..])
  {
    hide SlotOk;
    SlotOkHead(s);
    var u: Table := t[..n] + [s] + t[n..];
    assert forall j :: 0 <= j < |u| ==> u[j] == Inserted(t, n, s, j);
  }

  lemma {:induction false} SlotOkHead(s: Slot)
    requires SlotOk(s)
    ensures s != []
  {
  }

  lemma {:induction false} RemoveTableOk(t: Table, i: nat)
    requires TableOk(t) && i < |t|
    ensures TableOk(t[..i] + t[i + 1..])
  {
    var u: Table := t[..i] + t[i + 1..];
    assert forall j :: 0 <= j < |u| ==> u[j] == t[if j < i then j else j + 1];
  }

  lemma {:induction false} RemoveSlot(t: Table, i: nat)
    requires TableOk(t) && i < |t|
    ensures TableOk(t[..i] + t[i + 1..]) && OnlySlot(t, t[..i] + t[i + 1..], t[i][0].prefix, [])
  {
    hide SlotFor, UniqueKeys;
    var u: Table, p := t[..i] + t[i + 1..], t[i][0].prefix;
    RemoveTableOk(t, i);
    forall j | 0 <= j < |u| ensures u[j] in t && u[j][0].prefix != p {
      var k := if j < i then j else j + 1;
      assert u[j] == t[k];
      PrefixesDiffer(t, i, k);
    }
    forall j | 0 <= j < |t| && t[j][0].prefix != p ensures t[j] in u {
      assert t[j] == u[if j < i then j else j - 1];
    }
    SameAway(t, u, p);
    NoSlotFor(u, p);
  }

  lemma {:induction false} PrefixesDiffer(t: Table, i: nat, k: nat)
    requires TableOk(t) && i < |t| && k < |t| && i != k
    ensures t[i][0].prefix != t[k][0].prefix
  {
  }

  // ------------------------------------------------------------------
  // Slots stay well formed
  // ------------------------------------------------------------------

  /** One route changed in place, its place in the table and the head rule kept. */
  lemma {:induction false} UpdateSlotOk(s: Slot, j: nat, e: Entry)
    requires SlotOk(s) && j < |s| && KeyOf(e) == KeyOf(s[j]) && e.prefix == s[j].prefix
    requires e.r.installed ==> j == 0
    ensures SlotOk(s[j := e])
  {
    UpdateUnique(s, j, e);
  }

  lemma {:induction false} ToFrontSlotOk(s: Slot, j: nat, e: Entry)
    requires SlotOk(s) && j < |s| && KeyOf(e) == KeyOf(s[j]) && e.prefix == s[j].prefix
    requires j == 0 || !s[0].r.installed
    ensures SlotOk(ToFront(s[j := e], j)) && ToFront(s[j := e], j)[0] == e
    ensures SlotMap(ToFront(s[j := e], j)) == SlotMap(s)[KeyOf(e) := e.r]
  {
    hide SlotMap, UniqueKeys;
    UpdateUnique(s, j, e);
    ToFrontUnique(s[j := e], j);
    SlotMapToFront(s[j := e], j);
    SlotMapUpdate(s, j, e);
    var t := ToFront(s[j := e], j);
    forall i | 0 < i < |t| ensures t[i].prefix == s[0].prefix && !t[i].r.installed {
      assert t[i] == if i <= j then s[i - 1] else s[i];
    }
  }

  lemma {:induction false} WithoutSlotOk(s: Slot, j: nat)
    requires SlotOk(s) && j < |s| && !s[j].r.installed
    ensures Without(s, j) == [] || (SlotOk(Without(s, j)) && Without(s, j)[0].prefix == s[0].prefix)
    ensures s[0].r.installed ==> Without(s, j) != [] && Without(s, j)[0] == s[0]
    ensures !s[0].r.installed && Without(s, j) != [] ==> !Without(s, j)[0].r.installed
  {
    WithoutUnique(s, j);
    var t := Without(s, j);
    assert forall i :: 0 <= i < |t| ==> t[i] == s[if i < j then i else i + 1];
  }

  lemma {:induction false} AppendSlotOk(s: Slot, e: Entry)
    requires (s == [] || (SlotOk(s) && e.prefix == s[0].prefix)) && !e.r.installed && KeyOf(e) !in Keys(s)
    ensures SlotOk(s + [e]) && SlotMap(s + [e]) == SlotMap(s)[KeyOf(e) := e.r]
  {
    SlotMapAppend(s, e);
  }

  // ------------------------------------------------------------------
  // How many routes of a slot use a source
  // ------------------------------------------------------------------

  ghost function Refs(s: Slot, id: RouterId): nat {
    if s == [] then 0 else (if s[0].r.id == id then 1 else 0) + Refs(s[1..], id)
  }

  lemma {:induction false} RefsConcat(s: Slot, t: Slot, id: RouterId)
    ensures Refs(s + t, id) == Refs(s, id) + Refs(t, id)
  {
    if s == [] {
      assert s + t == t;
    } else {
      RefsConcat(s[1..], t, id);
      assert (s + t)[1..] == s[1..] + t;
    }
  }

  lemma {:induction false} RefsSplit(s: Slot, j: nat, id: RouterId)
    requires j < |s|
    ensures Refs(s, id) == Refs(s[..j], id) + (if s[j].r.id == id then 1 else 0) + Refs(s[j + 1..], id)
  {
    RefsConcat(s[..j], [s[j]], id);
    RefsConcat(s[..j] + [s[j]], s[j + 1..], id);
    assert s == s[..j] + [s[j]] + s[j + 1..];
  }

  lemma {:induction false} RefsUpdate(s: Slot, j: nat, e: Entry, id: RouterId)
    requires j < |s|
    ensures Refs(s[j := e], id) + (if s[j].r.id == id then 1 else 0) == Refs(s, id) + (if e.r.id == id then 1 else 0)
  {
    var t := s[j := e];
    RefsSplit(s, j, id);
    RefsSplit(t, j, id);
    assert t[..j] == s[..j] && t[j + 1..] == s[j + 1..];
  }

  lemma {:induction false} RefsToFront(s: Slot, j: nat, id: RouterId)
    requires j < |s|
    ensures Refs(ToFront(s, j), id) == Refs(s, id)
  {
    RefsSplit(s, j, id);
    RefsConcat([s[j]] + s[..j], s[j + 1..], id);
    RefsConcat([s[j]], s[..j], id);
  }

  lemma {:induction false} RefsWithout(s: Slot, j: nat, id: RouterId)
    requires j < |s|
    ensures Refs(Without(s, j), id) + (if s[j].r.id == id then 1 else 0) == Refs(s, id)
  {
    RefsSplit(s, j, id);
    RefsConcat(s[..j], s[j + 1..], id);
  }
}
