/**
 Sharing of BGP attributes (bgp_attr_intern and bgp_attr_unintern in
 bgpd/bgp_attr.c, aspath_intern and aspath_unintern in bgpd/bgp_aspath.c, and the
 same for clusters and unknown transitive attributes): one object per content and,
 for an attr, hash key, kept exactly as long as something refers to it.

 Pointers are numbers.  `outside` counts, for the proof, the references that the
 rest of the program holds to each shared component.
 */
module AttrIntern {
  import opened Common

  type Ptr = nat

  /** The scalar fields that attrhash_cmp compares, and what a component holds. */
  type Fields = seq<int>
  type Content = seq<int>

  /** The components with a hash table and a reference count of their own. */
  datatype Kind = Aspath | Community | ExtCommunity | LargeCommunity | Cluster | Transit

  const KINDS: seq<Kind> := [Aspath, Community, ExtCommunity, LargeCommunity, Cluster, Transit]

  datatype Ref = Ref(kind: Kind, ptr: Ptr)

  datatype Shared = Shared(content: Content, refcnt: nat)

  /** An attr: its scalar fields and pointers to its components.  The label is not
      compared, but goes into the hash key. */
  datatype Attr = Attr(fields: Fields, mplsLabel: int, subs: map<Kind, Ptr>)

  /** An attr in the hash table, with the key it was filed under. */
  datatype Entry = Entry(ptr: Ptr, attr: Attr, refcnt: nat, key: int)

  /** attrhash_key_make, which mixes in what the components hold. */
  type Hash = (Fields, int, map<Kind, Content>) -> int

  /** attrhash_cmp */
  predicate SameAttr(a: Attr, b: Attr) { a.fields == b.fields && a.subs == b.subs }

  /** What hash_get looks for: the same key first, and then no difference. */
  predicate Matches(e: Entry, a: Attr, key: int) { e.key == key && SameAttr(e.attr, a) }

  predicate Holds(a: Attr, r: Ref) { r.kind in a.subs && a.subs[r.kind] == r.ptr }

  /** References from interned attrs: each counts as often as its attr. */
  ghost function Uses(attrs: seq<Entry>, r: Ref): nat {
    if attrs == [] then 0 else (if Holds(attrs[0].attr, r) then attrs[0].refcnt else 0) + Uses(attrs[1..], r)
  }

  lemma {:induction false} UsesConcat(x: seq<Entry>, y: seq<Entry>, r: Ref)
    ensures Uses(x + y, r) == Uses(x, r) + Uses(y, r)
  {
    if x == [] {
      assert x + y == y;
    } else {
      assert (x + y)[1..] == x[1..] + y;
      UsesConcat(x[1..], y, r);
    }
  }

  ghost function UsesAt(e: Entry, r: Ref): nat { if Holds(e.attr, r) then e.refcnt else 0 }

  lemma {:induction false} UsesSplit(attrs: seq<Entry>, i: nat, r: Ref)
    requires i < |attrs|
    ensures Uses(attrs, r) == Uses(attrs[..i], r) + UsesAt(attrs[i], r) + Uses(attrs[i + 1..], r)
  {
    assert attrs == attrs[..i] + ([attrs[i]] + attrs[i + 1..]);
    UsesConcat(attrs[..i], [attrs[i]] + attrs[i + 1..], r);
    assert ([attrs[i]] + attrs[i + 1..])[1..] == attrs[i + 1..];
  }

  lemma {:induction false} UsesUpdate(attrs: seq<Entry>, i: nat, e: Entry, r: Ref)
    requires i < |attrs|
    ensures Uses(attrs[i := e], r) + UsesAt(attrs[i], r) == Uses(attrs, r) + UsesAt(e, r)
  {
    var q := attrs[i := e];
    UsesSplit(attrs, i, r);
    UsesSplit(q, i, r);
    assert q[..i] == attrs[..i] && q[i + 1..] == attrs[i + 1..];
  }

  lemma {:induction false} UsesWithout(attrs: seq<Entry>, i: nat, r: Ref)
    requires i < |attrs|
    ensures Uses(attrs[..i] + attrs[i + 1..], r) + UsesAt(attrs[i], r) == Uses(attrs, r)
  {
    UsesSplit(attrs, i, r);
    UsesConcat(attrs[..i], attrs[i + 1..], r);
  }

  /** Nothing is shared twice: one object per kind and content. */
  ghost predicate OnePerContent(shared: map<Ref, Shared>) {
    forall r, s :: r in shared && s in shared && r.kind == s.kind && shared[r].content == shared[s].content ==> r == s
  }

  ghost predicate OnePerAttr(attrs: seq<Entry>) {
    forall i, j :: 0 <= i < j < |attrs| ==> attrs[i].ptr != attrs[j].ptr && !Matches(attrs[i], attrs[j].attr, attrs[j].key)
  }

  /** A component is there exactly while it is used, and its count is the number
      of its uses. */
  ghost predicate Counted(shared: map<Ref, Shared>, attrs: seq<Entry>, outside: multiset<Ref>) {
    forall r :: (r in shared <==> outside[r] + Uses(attrs, r) > 0)
             && (r in shared ==> shared[r].refcnt == outside[r] + Uses(attrs, r))
  }

  ghost predicate AttrsOk(shared: map<Ref, Shared>, attrs: seq<Entry>, next: Ptr) {
    && (forall i :: 0 <= i < |attrs| ==> attrs[i].refcnt > 0 && attrs[i].ptr < next)
    && (forall i, k :: 0 <= i < |attrs| && k in attrs[i].attr.subs ==> Ref(k, attrs[i].attr.subs[k]) in shared)
  }

  /** What an attr holds, whatever the pointers. */
  function Contents(shared: map<Ref, Shared>, a: Attr): map<Kind, Content>
    requires forall k :: k in a.subs ==> Ref(k, a.subs[k]) in shared
  {
    map k | k in a.subs :: shared[Ref(k, a.subs[k])].content
  }

  ghost function ContentsOf(shared: map<Ref, Shared>, a: Attr): map<Kind, Content>
    requires Live(shared, a)
  {
    assert forall k :: k in a.subs ==> Ref(k, a.subs[k]) in RefSet(a);
    Contents(shared, a)
  }

  /** Pointer comparison, which is all attrhash_cmp does for components, decides
      whether they hold the same. */
  lemma {:induction false} PointersDecide(shared: map<Ref, Shared>, a: Attr, b: Attr)
    requires OnePerContent(shared)
    requires forall k :: k in a.subs ==> Ref(k, a.subs[k]) in shared
    requires forall k :: k in b.subs ==> Ref(k, b.subs[k]) in shared
    ensures SameAttr(a, b) <==> a.fields == b.fields && Contents(shared, a) == Contents(shared, b)
  {
    if Contents(shared, a) == Contents(shared, b) { SamePtrs(shared, a, b); }
  }

  lemma {:induction false} SamePtrs(shared: map<Ref, Shared>, a: Attr, b: Attr)
    requires OnePerContent(shared)
    requires forall k :: k in a.subs ==> Ref(k, a.subs[k]) in shared
    requires forall k :: k in b.subs ==> Ref(k, b.subs[k]) in shared
    requires Contents(shared, a) == Contents(shared, b)
    ensures a.subs == b.subs
  {
    var x, y := Contents(shared, a), Contents(shared, b);
    assert a.subs.Keys == x.Keys == y.Keys == b.subs.Keys;
    forall k | k in a.subs ensures a.subs[k] == b.subs[k] {
      assert x[k] == y[k];
      OneEach(shared, Ref(k, a.subs[k]), Ref(k, b.subs[k]));
    }
  }

  lemma {:induction false} OneEach(shared: map<Ref, Shared>, r: Ref, s: Ref)
    requires OnePerContent(shared) && r in shared && s in shared && r.kind == s.kind && shared[r].content == shared[s].content
    ensures r == s
  {
  }

  /** Every attr is filed under the key that its content has. */
  ghost predicate Keyed(hash: Hash, shared: map<Ref, Shared>, attrs: seq<Entry>) {
    forall i :: 0 <= i < |attrs| ==> KeyedAt(hash, shared, attrs[i])
  }

  ghost predicate KeyedAt(hash: Hash, shared: map<Ref, Shared>, e: Entry) {
    Live(shared, e.attr) && e.key == hash(e.attr.fields, e.attr.mplsLabel, ContentsOf(shared, e.attr))
  }

  /** Components that keep their content keep the keys. */
  lemma {:induction false} KeyedKept(hash: Hash, t: Tables, outside: multiset<Ref>, t': Tables, outside': multiset<Ref>)
    requires Ok(t, outside) && Ok(t', outside') && t'.attrs == t.attrs && ContentKept(t.shared, t'.shared)
    requires Keyed(hash, t.shared, t.attrs)
    ensures Keyed(hash, t'.shared, t'.attrs)
  {
    hide Counted, OnePerContent, OnePerAttr, Uses;
    forall i | 0 <= i < |t.attrs| ensures KeyedAt(hash, t'.shared, t.attrs[i]) {
      var a := t.attrs[i].attr;
      assert KeyedAt(hash, t.shared, t.attrs[i]);
      assert forall k :: k in a.subs ==> Ref(k, a.subs[k]) in t'.shared;
      assert ContentsOf(t'.shared, a) == ContentsOf(t.shared, a);
    }
  }

  lemma {:induction false} KeyedShared(hash: Hash, shared: map<Ref, Shared>, attrs: seq<Entry>, i: nat)
    requires Keyed(hash, shared, attrs) && i < |attrs|
    ensures Keyed(hash, shared, attrs[i := attrs[i].(refcnt := attrs[i].refcnt + 1)])
  {
    assert KeyedAt(hash, shared, attrs[i]);
  }

  lemma {:induction false} KeyedDropped(hash: Hash, shared: map<Ref, Shared>, attrs: seq<Entry>, i: nat)
    requires Keyed(hash, shared, attrs) && i < |attrs| && attrs[i].refcnt > 0
    ensures Keyed(hash, shared, Dropped(attrs, i))
  {
    hide KeyedAt;
    var d := Dropped(attrs, i);
    if attrs[i].refcnt > 1 { KeyedCount(hash, shared, attrs[i], attrs[i].refcnt - 1); }
    forall j | 0 <= j < |d| ensures KeyedAt(hash, shared, d[j]) {
      if attrs[i].refcnt == 1 { assert KeyedAt(hash, shared, attrs[if j >= i then j + 1 else j]); }
    }
  }

  lemma {:induction false} KeyedCount(hash: Hash, shared: map<Ref, Shared>, e: Entry, refcnt: nat)
    requires KeyedAt(hash, shared, e)
    ensures KeyedAt(hash, shared, e.(refcnt := refcnt))
  {
  }

  // ------------------------------------------------------------------
  // One reference more, one less
  // ------------------------------------------------------------------

  datatype Tables = Tables(shared: map<Ref, Shared>, loose: map<Ref, Content>, attrs: seq<Entry>, next: Ptr)

  ghost predicate Ok(t: Tables, outside: multiset<Ref>) {
    && OnePerContent(t.shared) && OnePerAttr(t.attrs) && AttrsOk(t.shared, t.attrs, t.next)
    && Counted(t.shared, t.attrs, outside) && t.shared.Keys !! t.loose.Keys
  }

  lemma {:induction false} CountAdd(outside: multiset<Ref>, r: Ref)
    ensures forall s: Ref :: (outside + multiset{r})[s] == outside[s] + if s == r then 1 else 0
  {
  }

  lemma {:induction false} AddRef(t: Tables, outside: multiset<Ref>, r: Ref)
    requires Ok(t, outside) && r in t.shared
    ensures Ok(t.(shared := t.shared[r := t.shared[r].(refcnt := t.shared[r].refcnt + 1)]), outside + multiset{r})
  {
    hide Uses, OnePerAttr, Counted;
    AddCounted(t, outside, r);
  }

  lemma {:induction false} AddCounted(t: Tables, outside: multiset<Ref>, r: Ref)
    requires Counted(t.shared, t.attrs, outside) && r in t.shared
    ensures Counted(t.shared[r := t.shared[r].(refcnt := t.shared[r].refcnt + 1)], t.attrs, outside + multiset{r})
  {
    hide Uses;
    CountAdd(outside, r);
  }

  lemma {:induction false} Create(t: Tables, outside: multiset<Ref>, r: Ref, c: Content)
    requires Ok(t, outside) && r in t.loose
    requires forall s :: s in t.shared && s.kind == r.kind ==> t.shared[s].content != c
    ensures Ok(t.(shared := t.shared[r := Shared(c, 1)], loose := t.loose - {r}), outside + multiset{r})
  {
    var m := t.shared[r := Shared(c, 1)];
    CountAdd(outside, r);
    hide Uses, OnePerAttr;
    assert Counted(m, t.attrs, outside + multiset{r}) by { hide OnePerContent, AttrsOk; }
    hide Counted;
  }

  /** The components after one reference to `r` is given up. */
  function Without(shared: map<Ref, Shared>, r: Ref): map<Ref, Shared>
    requires r in shared && shared[r].refcnt > 0
  {
    if shared[r].refcnt == 1 then shared - {r} else shared[r := shared[r].(refcnt := shared[r].refcnt - 1)]
  }

  lemma {:induction false} WithoutCounted(t: Tables, outside: multiset<Ref>, r: Ref)
    requires Counted(t.shared, t.attrs, outside) && outside[r] > 0
    ensures r in t.shared && t.shared[r].refcnt > 0 && (t.shared[r].refcnt == 1 ==> Uses(t.attrs, r) == 0)
    ensures Counted(Without(t.shared, r), t.attrs, outside - multiset{r})
  {
    assert forall s: Ref :: (outside - multiset{r})[s] == outside[s] - if s == r then 1 else 0;
    hide Uses;
  }

  /** Dropping an outside reference: the component goes with the last use. */
  lemma {:induction false} DropRef(t: Tables, outside: multiset<Ref>, r: Ref)
    requires Ok(t, outside) && outside[r] > 0
    ensures r in t.shared && t.shared[r].refcnt > 0 && Ok(t.(shared := Without(t.shared, r)), outside - multiset{r})
  {
    WithoutCounted(t, outside, r);
    if t.shared[r].refcnt == 1 { UnusedIsHeldByNone(t.attrs, r); }
    hide Counted, Uses, OnePerAttr;
  }

  lemma {:induction false} UnusedIsHeldByNone(attrs: seq<Entry>, r: Ref)
    requires Uses(attrs, r) == 0
    ensures forall i :: 0 <= i < |attrs| && attrs[i].refcnt > 0 ==> !Holds(attrs[i].attr, r)
  {
    forall i | 0 <= i < |attrs| && attrs[i].refcnt > 0 ensures !Holds(attrs[i].attr, r) {
      UsesSplit(attrs, i, r);
    }
  }

  // ------------------------------------------------------------------
  // One attr more, one less
  // ------------------------------------------------------------------

  ghost function RefSet(a: Attr): set<Ref> { set k | k in a.subs :: Ref(k, a.subs[k]) }

  ghost predicate Live(shared: map<Ref, Shared>, a: Attr) { RefSet(a) <= shared.Keys }

  lemma {:induction false} RefSetHolds(a: Attr, r: Ref)
    ensures multiset(RefSet(a))[r] == if Holds(a, r) then 1 else 0
  {
    if Holds(a, r) { assert r.kind in a.subs && r == Ref(r.kind, a.subs[r.kind]); }
    assert r in RefSet(a) <==> Holds(a, r);
  }

  /** References that were outside become the attr's, one for each component. */
  ghost predicate Handed(outside: multiset<Ref>, outside': multiset<Ref>, a: Attr) {
    forall r: Ref :: outside[r] == outside'[r] + if Holds(a, r) then 1 else 0
  }

  lemma {:induction false} HandOver(outside: multiset<Ref>, a: Attr)
    ensures Handed(outside + multiset(RefSet(a)), outside, a)
  {
    forall r: Ref ensures (outside + multiset(RefSet(a)))[r] == outside[r] + if Holds(a, r) then 1 else 0 {
      RefSetHolds(a, r);
    }
  }

  lemma {:induction false} ShareAttr(t: Tables, outside: multiset<Ref>, outside': multiset<Ref>, i: nat)
    requires Ok(t, outside) && i < |t.attrs| && Handed(outside, outside', t.attrs[i].attr)
    ensures Ok(t.(attrs := t.attrs[i := t.attrs[i].(refcnt := t.attrs[i].refcnt + 1)]), outside')
  {
    hide Counted, OnePerContent, OnePerAttr, AttrsOk;
    ShareCounted(t, outside, outside', i);
    ShareAttrsOk(t, i);
  }

  lemma {:induction false} ShareCounted(t: Tables, outside: multiset<Ref>, outside': multiset<Ref>, i: nat)
    requires Counted(t.shared, t.attrs, outside) && i < |t.attrs| && Handed(outside, outside', t.attrs[i].attr)
    ensures Counted(t.shared, t.attrs[i := t.attrs[i].(refcnt := t.attrs[i].refcnt + 1)], outside')
  {
    var e := t.attrs[i].(refcnt := t.attrs[i].refcnt + 1);
    forall r: Ref ensures outside'[r] + Uses(t.attrs[i := e], r) == outside[r] + Uses(t.attrs, r) {
      UsesUpdate(t.attrs, i, e, r);
    }
    hide Uses;
  }

  lemma {:induction false} ShareAttrsOk(t: Tables, i: nat)
    requires OnePerAttr(t.attrs) && AttrsOk(t.shared, t.attrs, t.next) && i < |t.attrs|
    ensures var attrs := t.attrs[i := t.attrs[i].(refcnt := t.attrs[i].refcnt + 1)];
            OnePerAttr(attrs) && AttrsOk(t.shared, attrs, t.next)
  {
    var attrs := t.attrs[i := t.attrs[i].(refcnt := t.attrs[i].refcnt + 1)];
    assert forall j :: 0 <= j < |attrs| ==> attrs[j] == t.attrs[j].(refcnt := attrs[j].refcnt);
  }

  lemma {:induction false} NewCounted(t: Tables, outside: multiset<Ref>, outside': multiset<Ref>, e: Entry)
    requires Counted(t.shared, t.attrs, outside) && Handed(outside, outside', e.attr) && e.refcnt == 1
    ensures Counted(t.shared, t.attrs + [e], outside')
  {
    forall r: Ref ensures outside'[r] + Uses(t.attrs + [e], r) == outside[r] + Uses(t.attrs, r) {
      UsesConcat(t.attrs, [e], r);
      assert [e][1..] == [];
    }
    hide Uses;
  }

  lemma {:induction false} NewAttrsOk(t: Tables, a: Attr, key: int)
    requires OnePerAttr(t.attrs) && AttrsOk(t.shared, t.attrs, t.next) && Live(t.shared, a)
    requires forall i :: 0 <= i < |t.attrs| ==> !Matches(t.attrs[i], a, key)
    ensures OnePerAttr(t.attrs + [Entry(t.next, a, 1, key)]) && AttrsOk(t.shared, t.attrs + [Entry(t.next, a, 1, key)], t.next + 1)
  {
    assert forall k :: k in a.subs ==> Ref(k, a.subs[k]) in RefSet(a);
  }

  lemma {:induction false} NewAttr(t: Tables, outside: multiset<Ref>, outside': multiset<Ref>, a: Attr, key: int)
    requires Ok(t, outside) && Handed(outside, outside', a) && Live(t.shared, a)
    requires forall i :: 0 <= i < |t.attrs| ==> !Matches(t.attrs[i], a, key)
    ensures Ok(t.(attrs := t.attrs + [Entry(t.next, a, 1, key)], next := t.next + 1), outside')
  {
    NewCounted(t, outside, outside', Entry(t.next, a, 1, key));
    NewAttrsOk(t, a, key);
    hide Counted, OnePerAttr, OnePerContent, AttrsOk;
  }

  /** The table after bgp_attr_unintern's first half. */
  function Dropped(attrs: seq<Entry>, i: nat): seq<Entry>
    requires i < |attrs| && attrs[i].refcnt > 0
  {
    if attrs[i].refcnt == 1 then attrs[..i] + attrs[i + 1..] else attrs[i := attrs[i].(refcnt := attrs[i].refcnt - 1)]
  }

  lemma {:induction false} DropCounted(t: Tables, outside: multiset<Ref>, i: nat)
    requires Counted(t.shared, t.attrs, outside) && i < |t.attrs| && t.attrs[i].refcnt > 0
    ensures Counted(t.shared, Dropped(t.attrs, i), outside + multiset(RefSet(t.attrs[i].attr)))
  {
    var a, attrs, outside' := t.attrs[i].attr, Dropped(t.attrs, i), outside + multiset(RefSet(t.attrs[i].attr));
    HandOver(outside, a);
    hide RefSet;
    forall r: Ref ensures outside'[r] + Uses(attrs, r) == outside[r] + Uses(t.attrs, r) {
      UsesUpdate(t.attrs, i, t.attrs[i].(refcnt := t.attrs[i].refcnt - 1), r);
      UsesWithout(t.attrs, i, r);
    }
    hide Uses;
  }

  lemma {:induction false} DropAttrsOk(t: Tables, i: nat)
    requires OnePerAttr(t.attrs) && AttrsOk(t.shared, t.attrs, t.next) && i < |t.attrs|
    ensures OnePerAttr(Dropped(t.attrs, i)) && AttrsOk(t.shared, Dropped(t.attrs, i), t.next)
  {
    var attrs := Dropped(t.attrs, i);
    if t.attrs[i].refcnt == 1 {
      assert forall j :: 0 <= j < |attrs| ==> attrs[j] == t.attrs[if j >= i then j + 1 else j];
    } else {
      assert forall j :: 0 <= j < |attrs| ==> attrs[j] == t.attrs[j].(refcnt := attrs[j].refcnt);
    }
  }

  lemma {:induction false} DropAttr(t: Tables, outside: multiset<Ref>, i: nat)
    requires Ok(t, outside) && i < |t.attrs|
    ensures t.attrs[i].refcnt > 0 && Ok(t.(attrs := Dropped(t.attrs, i)), outside + multiset(RefSet(t.attrs[i].attr)))
  {
    DropCounted(t, outside, i);
    DropAttrsOk(t, i);
    hide Counted, OnePerAttr, OnePerContent, RefSet, Dropped;
  }

  // ------------------------------------------------------------------
  // The code
  // ------------------------------------------------------------------

  /** What a component holds, interned or not. */
  function ContentOf(t: Tables, r: Ref): Content
    requires r in t.shared || r in t.loose
  {
    if r in t.shared then t.shared[r].content else t.loose[r]
  }

  /** Every component of the attr exists. */
  ghost predicate Usable(t: Tables, a: Attr) {
    forall k :: k in a.subs ==> Ref(k, a.subs[k]) in t.shared || Ref(k, a.subs[k]) in t.loose
  }

  /** Components that were shared keep their content as long as they are there. */
  ghost predicate ContentKept(m: map<Ref, Shared>, m': map<Ref, Shared>) {
    forall r :: r in m && r in m' ==> m'[r].content == m[r].content
  }

  class Store {
    /** The hash tables of the components, all kinds together; the components that
        have been made and not interned yet; and the attribute hash table. */
    var t: Tables
    ghost var outside: multiset<Ref>
    const hash: Hash

    ghost predicate Valid()
      reads this
    {
      Ok(t, outside) && Keyed(hash, t.shared, t.attrs)
    }

    constructor (hash: Hash)
      ensures Valid() && t == Tables(map[], map[], [], 0) && outside == multiset{} && this.hash == hash
    {
      this.hash := hash;
      t, outside := Tables(map[], map[], [], 0), multiset{};
    }

    /** hash_get's lookup by content. */
    method FindShared(kind: Kind, c: Content) returns (r: Option<Ref>)
      ensures r.Some? ==> r.value in t.shared && r.value.kind == kind && t.shared[r.value].content == c
      ensures r.None? ==> forall s :: s in t.shared && s.kind == kind ==> t.shared[s].content != c
    {
      var todo := t.shared.Keys;
      while todo != {}
        invariant todo <= t.shared.Keys
        invariant forall s :: s in t.shared && s !in todo && s.kind == kind ==> t.shared[s].content != c
        decreases todo
      {
        var s :| s in todo;
        if s.kind == kind && t.shared[s].content == c { return Some(s); }
        todo := todo - {s};
      }
      return None;
    }

    /** aspath_intern, cluster_intern and the like: the component, or the one with
        the same content that is there already, gains a reference. */
    method InternShared(r: Ref) returns (found: Ref)
      requires Valid() && r in t.loose
      modifies this
      ensures Valid() && found in t.shared && found.kind == r.kind && t.shared[found].content == old(t.loose[r])
      ensures outside == old(outside) + multiset{found}
      ensures t.attrs == old(t.attrs) && t.next == old(t.next) && t.loose == old(t.loose) - {r}
      ensures old(t.shared).Keys <= t.shared.Keys && ContentKept(old(t.shared), t.shared)
    {
      hide Ok, Keyed;
      Apart();
      var c := t.loose[r];
      var f := FindShared(r.kind, c);
      if f.Some? {
        found := f.value;
        AddRef(t, outside, found);
        t := t.(shared := t.shared[found := t.shared[found].(refcnt := t.shared[found].refcnt + 1)]);
        outside := outside + multiset{found};
        FreeLoose(t, outside, r);
        t := t.(loose := t.loose - {r});
      } else {
        found := r;
        Create(t, outside, r, c);
        t := t.(shared := t.shared[r := Shared(c, 1)], loose := t.loose - {r});
        outside := outside + multiset{r};
      }
      KeyedKept(hash, old(t), old(outside), t, outside);
    }

    static lemma {:induction false} FreeLoose(t: Tables, outside: multiset<Ref>, r: Ref)
      requires Ok(t, outside)
      ensures Ok(t.(loose := t.loose - {r}), outside)
    {
    }

    /** Another reference to a component that is interned. */
    method Retain(r: Ref)
      requires Valid() && r in t.shared
      modifies this
      ensures Valid() && outside == old(outside) + multiset{r}
      ensures t == old(t).(shared := old(t.shared)[r := old(t.shared[r]).(refcnt := old(t.shared[r].refcnt) + 1)])
    {
      hide Ok, Keyed;
      AddRef(t, outside, r);
      t := t.(shared := t.shared[r := t.shared[r].(refcnt := t.shared[r].refcnt + 1)]);
      outside := outside + multiset{r};
      KeyedKept(hash, old(t), old(outside), t, outside);
    }

    /** aspath_unintern, cluster_unintern and the like: a reference is given up, and
        the component is released exactly when that was its last use. */
    method UninternShared(r: Ref)
      requires Valid() && outside[r] > 0
      modifies this
      ensures Valid() && outside == old(outside) - multiset{r}
      ensures t.attrs == old(t.attrs) && t.next == old(t.next) && t.loose == old(t.loose)
      ensures r in t.shared <==> outside[r] + Uses(t.attrs, r) > 0
      ensures ContentKept(old(t.shared), t.shared)
    {
      hide Ok, Keyed, Uses;
      DropRef(t, outside, r);
      var n := if t.shared[r].refcnt > 0 then t.shared[r].refcnt - 1 else 0;
      if n == 0 {
        t := t.(shared := t.shared - {r});
      } else {
        t := t.(shared := t.shared[r := t.shared[r].(refcnt := n)]);
      }
      outside := outside - multiset{r};
      KeyedKept(hash, old(t), old(outside), t, outside);
      SharedIffUsed(r);
    }

    lemma {:induction false} SharedIffUsed(r: Ref)
      requires Valid()
      ensures r in t.shared <==> outside[r] + Uses(t.attrs, r) > 0
      ensures r in t.shared ==> t.shared[r].refcnt == outside[r] + Uses(t.attrs, r)
    {
      hide Uses;
    }

    /** One component of an attr: interned if it is not, else referred to once more. */
    method InternOne(r: Ref) returns (found: Ref)
      requires Valid() && (r in t.shared || r in t.loose)
      modifies this
      ensures Valid() && found in t.shared && found.kind == r.kind && t.shared[found].content == ContentOf(old(t), r)
      ensures outside == old(outside) + multiset{found}
      ensures OtherKindsKept(old(t), t, r.kind)
    {
      hide Ok, Keyed;
      Apart();
      if r in t.shared {
        Retain(r);
        found := r;
      } else {
        found := InternShared(r);
      }
      Apart();
    }

    lemma {:induction false} Apart()
      requires Valid()
      ensures t.shared.Keys !! t.loose.Keys
    {
    }

    /** The components of the first `i` kinds. */
    static ghost function Done(a: Attr, i: nat): set<Ref>
      requires i <= |KINDS|
    {
      set k | k in a.subs && k in KINDS[..i] :: Ref(k, a.subs[k])
    }

    static lemma {:induction false} DoneStep(a: Attr, b: Attr, i: nat)
      requires i < |KINDS| && b.subs.Keys == a.subs.Keys && forall k :: k in a.subs && k != KINDS[i] ==> b.subs[k] == a.subs[k]
      ensures Done(b, i + 1) == if KINDS[i] in a.subs then Done(a, i) + {Ref(KINDS[i], b.subs[KINDS[i]])} else Done(a, i)
      ensures KINDS[i] in a.subs ==> multiset(Done(b, i + 1)) == multiset(Done(a, i)) + multiset{Ref(KINDS[i], b.subs[KINDS[i]])}
    {
      assert KINDS[..i + 1] == KINDS[..i] + [KINDS[i]];
      assert KINDS[i] !in KINDS[..i];
      forall r: Ref ensures r in Done(a, i) ==> r in Done(b, i + 1) {
        if r in Done(a, i) { assert r.kind in KINDS[..i] && r.kind in b.subs && r == Ref(r.kind, b.subs[r.kind]); }
      }
      forall r: Ref ensures r in Done(b, i + 1) && r.kind != KINDS[i] ==> r in Done(a, i) {
        if r in Done(b, i + 1) && r.kind != KINDS[i] { assert r.kind in KINDS[..i] && r == Ref(r.kind, a.subs[r.kind]); }
      }
      if KINDS[i] in a.subs { assert Ref(KINDS[i], b.subs[KINDS[i]]) in Done(b, i + 1); }
    }

    static lemma {:induction false} DoneAll(a: Attr)
      ensures Done(a, |KINDS|) == RefSet(a)
    {
      assert KINDS[..|KINDS|] == KINDS;
      forall k: Kind ensures k in KINDS {
        match k
        case Aspath => assert KINDS[0] == k;
        case Community => assert KINDS[1] == k;
        case ExtCommunity => assert KINDS[2] == k;
        case LargeCommunity => assert KINDS[3] == k;
        case Cluster => assert KINDS[4] == k;
        case Transit => assert KINDS[5] == k;
      }
    }

    /** How far the components have come: those of the first `i` kinds are interned,
        the others are as they were, and all hold what they held at `o`. */
    static ghost predicate Halfway(t: Tables, a: Attr, b: Attr, i: nat, o: Tables)
      requires i <= |KINDS| && Usable(o, a)
    {
      && b.fields == a.fields && b.mplsLabel == a.mplsLabel && b.subs.Keys == a.subs.Keys && Usable(t, b)
      && (forall k :: k in a.subs ==> ContentOf(t, Ref(k, b.subs[k])) == ContentOf(o, Ref(k, a.subs[k])))
      && (forall k :: k in a.subs && k in KINDS[..i] ==> Ref(k, b.subs[k]) in t.shared)
      && o.attrs == t.attrs && o.next == t.next
      && o.shared.Keys <= t.shared.Keys && ContentKept(o.shared, t.shared)
    }

    /** What interning one component leaves alone. */
    static ghost predicate OtherKindsKept(t: Tables, t': Tables, kind: Kind) {
      && t'.attrs == t.attrs && t'.next == t.next
      && t.shared.Keys <= t'.shared.Keys && ContentKept(t.shared, t'.shared)
      && forall s: Ref :: s.kind != kind && (s in t.shared || s in t.loose) ==>
           (s in t'.shared || s in t'.loose) && ContentOf(t', s) == ContentOf(t, s)
    }

    /** Another component while the one of kind `KINDS[i]` is interned. */
    static lemma {:induction false} OtherKind(t: Tables, t': Tables, a: Attr, b: Attr, i: nat, o: Tables, j: Kind)
      requires i < |KINDS| && Usable(o, a) && Halfway(t, a, b, i, o) && OtherKindsKept(t, t', KINDS[i]) && j in a.subs && j != KINDS[i]
      ensures Ref(j, b.subs[j]) in t'.shared || Ref(j, b.subs[j]) in t'.loose
      ensures ContentOf(t', Ref(j, b.subs[j])) == ContentOf(o, Ref(j, a.subs[j]))
      ensures j in KINDS[..i + 1] ==> Ref(j, b.subs[j]) in t'.shared
    {
      hide ContentOf, ContentKept;
      assert KINDS[..i + 1] == KINDS[..i] + [KINDS[i]];
      var r := Ref(j, b.subs[j]);
      assert r in t.shared || r in t.loose;
      assert r.kind != KINDS[i];
    }

    static lemma {:induction false} KeptTrans(x: map<Ref, Shared>, y: map<Ref, Shared>, z: map<Ref, Shared>)
      requires x.Keys <= y.Keys <= z.Keys && ContentKept(x, y) && ContentKept(y, z)
      ensures x.Keys <= z.Keys && ContentKept(x, z)
    {
    }

    static lemma {:induction false} HalfwayStep(t: Tables, t': Tables, a: Attr, b: Attr, i: nat, o: Tables, found: Ref)
      requires i < |KINDS| && Usable(o, a) && Halfway(t, a, b, i, o) && KINDS[i] in b.subs && OtherKindsKept(t, t', KINDS[i])
      requires found.kind == KINDS[i] && found in t'.shared && t'.shared[found].content == ContentOf(t, Ref(KINDS[i], b.subs[KINDS[i]]))
      ensures Halfway(t', a, b.(subs := b.subs[KINDS[i] := found.ptr]), i + 1, o)
    {
      hide ContentOf, ContentKept;
      var k := KINDS[i];
      var c := b.(subs := b.subs[k := found.ptr]);
      assert found == Ref(k, found.ptr);
      SharedContent(t', found);
      KeptTrans(o.shared, t.shared, t'.shared);
      forall j | j in a.subs ensures (Ref(j, c.subs[j]) in t'.shared || Ref(j, c.subs[j]) in t'.loose)
        && ContentOf(t', Ref(j, c.subs[j])) == ContentOf(o, Ref(j, a.subs[j]))
        && (j in KINDS[..i + 1] ==> Ref(j, c.subs[j]) in t'.shared)
      {
        if j != k { OtherKind(t, t', a, b, i, o, j); }
      }
    }

    static lemma {:induction false} SharedContent(t: Tables, r: Ref)
      requires r in t.shared
      ensures ContentOf(t, r) == t.shared[r].content
    {
    }

    static lemma {:induction false} HalfwaySkip(t: Tables, a: Attr, b: Attr, i: nat, o: Tables)
      requires i < |KINDS| && Usable(o, a) && Halfway(t, a, b, i, o) && KINDS[i] !in b.subs
      ensures Halfway(t, a, b, i + 1, o)
    {
      assert KINDS[..i + 1] == KINDS[..i] + [KINDS[i]];
    }

    /** The same with the references taken so far. */
    static ghost predicate Midway(t: Tables, outside: multiset<Ref>, a: Attr, b: Attr, i: nat, o: Tables, base: multiset<Ref>) {
      i <= |KINDS| && Usable(o, a) && Halfway(t, a, b, i, o) && outside == base + multiset(Done(b, i))
    }

    static lemma {:induction false} MidwayStep(t: Tables, out: multiset<Ref>, t': Tables, a: Attr, b: Attr, i: nat,
                                               o: Tables, base: multiset<Ref>, found: Ref)
      requires i < |KINDS| && Midway(t, out, a, b, i, o, base) && KINDS[i] in b.subs && OtherKindsKept(t, t', KINDS[i])
      requires Usable(t, b) && found.kind == KINDS[i] && found in t'.shared
      requires t'.shared[found].content == ContentOf(t, Ref(KINDS[i], b.subs[KINDS[i]]))
      ensures Midway(t', out + multiset{found}, a, b.(subs := b.subs[KINDS[i] := found.ptr]), i + 1, o, base)
    {
      HalfwayStep(t, t', a, b, i, o, found);
      hide Halfway, OtherKindsKept, ContentOf;
      DoneStep(b, b.(subs := b.subs[KINDS[i] := found.ptr]), i);
      assert found == Ref(KINDS[i], found.ptr);
      Assoc(base, multiset(Done(b, i)), multiset{found});
    }

    static lemma {:induction false} MidwaySkip(t: Tables, out: multiset<Ref>, a: Attr, b: Attr, i: nat, o: Tables, base: multiset<Ref>)
      requires i < |KINDS| && Midway(t, out, a, b, i, o, base) && KINDS[i] !in b.subs
      ensures Midway(t, out, a, b, i + 1, o, base)
    {
      HalfwaySkip(t, a, b, i, o);
      hide Halfway;
      DoneStep(b, b, i);
    }

    static lemma {:induction false} MidwayUsable(t: Tables, out: multiset<Ref>, a: Attr, b: Attr, i: nat, o: Tables, base: multiset<Ref>)
      requires Midway(t, out, a, b, i, o, base)
      ensures Usable(t, b)
    {
    }

    static lemma {:induction false} MidwayStart(t: Tables, out: multiset<Ref>, a: Attr)
      requires Usable(t, a)
      ensures Midway(t, out, a, a, 0, t, out)
    {
      assert Done(a, 0) == {} && out == out + multiset{};
    }

    static lemma {:induction false} MidwayEnd(t: Tables, out: multiset<Ref>, a: Attr, b: Attr, o: Tables, base: multiset<Ref>)
      requires Midway(t, out, a, b, |KINDS|, o, base)
      ensures Usable(o, a) && Halfway(t, a, b, |KINDS|, o) && Live(t.shared, b) && out == base + multiset(RefSet(b))
    {
      DoneAll(b);
      forall r | r in RefSet(b) ensures r in t.shared { assert r in Done(b, |KINDS|); }
    }

    /** The first half of bgp_attr_intern: every component is interned. */
    method InternSubs(a: Attr) returns (b: Attr)
      requires Valid() && Usable(t, a)
      modifies this
      ensures Valid() && Live(t.shared, b) && Halfway(t, a, b, |KINDS|, old(t))
      ensures outside == old(outside) + multiset(RefSet(b))
    {
      hide Ok, Midway, Halfway, Usable, OtherKindsKept, ContentOf;
      b := a;
      var i := 0;
      ghost var o, base := t, outside;
      MidwayStart(t, outside, a);
      while i < |KINDS|
        invariant 0 <= i <= |KINDS| && Valid() && Midway(t, outside, a, b, i, o, base)
      {
        ghost var t0, out0 := t, outside;
        if KINDS[i] in b.subs {
          MidwayUsable(t, outside, a, b, i, o, base);
          UsableAt(t, b, KINDS[i]);
          var r := InternOne(Ref(KINDS[i], b.subs[KINDS[i]]));
          MidwayStep(t0, out0, t, a, b, i, o, base, r);
          b := b.(subs := b.subs[KINDS[i] := r.ptr]);
        } else {
          MidwaySkip(t, outside, a, b, i, o, base);
        }
        i := i + 1;
      }
      MidwayEnd(t, outside, a, b, o, base);
    }

    static lemma {:induction false} UsableAt(t: Tables, b: Attr, k: Kind)
      requires Usable(t, b) && k in b.subs
      ensures Ref(k, b.subs[k]) in t.shared || Ref(k, b.subs[k]) in t.loose
    {
    }

    static lemma {:induction false} Assoc(x: multiset<Ref>, y: multiset<Ref>, z: multiset<Ref>)
      ensures (x + y) + z == x + (y + z)
    {
    }

    /** hash_get's lookup: an equal key, equal fields and equal pointers. */
    method FindAttr(a: Attr, key: int) returns (i: int)
      ensures i >= 0 ==> i < |t.attrs| && Matches(t.attrs[i], a, key)
      ensures i < 0 ==> forall j :: 0 <= j < |t.attrs| ==> !Matches(t.attrs[j], a, key)
    {
      i := 0;
      while i < |t.attrs|
        invariant 0 <= i <= |t.attrs| && forall j :: 0 <= j < i ==> !Matches(t.attrs[j], a, key)
      {
        if Matches(t.attrs[i], a, key) { return; }
        i := i + 1;
      }
      return -1;
    }

    /** bgp_attr_intern: the attr with this key, these fields and contents, if there
        is one, gains a reference, else it is added with one.  Nothing else gains or
        loses any, since what was taken for the components is now the attr's.  `b` is
        what becomes of the argument. */
    method Intern(a: Attr) returns (p: Ptr, b: Attr, ghost i: nat)
      requires Valid() && Usable(t, a)
      modifies this
      ensures Valid() && outside == old(outside) && i < |t.attrs| && t.attrs[i].ptr == p
      ensures b == t.attrs[i].attr.(mplsLabel := a.mplsLabel)
      ensures Halfway(t.(attrs := old(t.attrs), next := old(t.next)), a, b, |KINDS|, old(t))
      ensures Live(t.shared, b) && t.attrs[i].key == hash(a.fields, a.mplsLabel, ContentsOf(t.shared, b))
      ensures if i < |old(t.attrs)| then t.attrs == old(t.attrs)[i := old(t.attrs[i]).(refcnt := old(t.attrs[i].refcnt) + 1)]
              else t.attrs == old(t.attrs) + [t.attrs[i]] && t.attrs[i].refcnt == 1 && t.attrs[i].attr.mplsLabel == a.mplsLabel
    {
      hide Ok, Halfway, Keyed, Usable, RefSet;
      b := InternSubs(a);
      HandOver(old(outside), b);
      KeepsTables(a, b, old(t));
      LiveSubs(t.shared, b);
      var key := hash(b.fields, b.mplsLabel, Contents(t.shared, b));
      var k := FindAttr(b, key);
      if k >= 0 {
        ShareAttr(t, outside, old(outside), k);
        KeyedShared(hash, t.shared, t.attrs, k);
        t := t.(attrs := t.attrs[k := t.attrs[k].(refcnt := t.attrs[k].refcnt + 1)]);
        p, i := t.attrs[k].ptr, k;
      } else {
        NewAttr(t, outside, old(outside), b, key);
        KeyedNew(hash, t.shared, t.attrs, Entry(t.next, b, 1, key));
        p, i := t.next, |t.attrs|;
        t := t.(attrs := t.attrs + [Entry(t.next, b, 1, key)], next := t.next + 1);
      }
      outside := old(outside);
    }

    static lemma {:induction false} LiveSubs(shared: map<Ref, Shared>, b: Attr)
      requires Live(shared, b)
      ensures forall k :: k in b.subs ==> Ref(k, b.subs[k]) in shared
    {
      assert forall k :: k in b.subs ==> Ref(k, b.subs[k]) in RefSet(b);
    }

    static lemma {:induction false} KeyedNew(hash: Hash, shared: map<Ref, Shared>, attrs: seq<Entry>, e: Entry)
      requires Keyed(hash, shared, attrs) && KeyedAt(hash, shared, e)
      ensures Keyed(hash, shared, attrs + [e])
    {
      hide KeyedAt;
    }

    lemma {:induction false} KeepsTables(a: Attr, b: Attr, o: Tables)
      requires Usable(o, a) && Halfway(t, a, b, |KINDS|, o)
      ensures t.attrs == o.attrs && t.next == o.next && t.(attrs := o.attrs, next := o.next) == t
      ensures b.fields == a.fields && b.mplsLabel == a.mplsLabel
    {
    }

    /** The components of the kinds from `i` on. */
    static ghost function Todo(a: Attr, i: nat): set<Ref>
      requires i <= |KINDS|
    {
      set k | k in a.subs && k in KINDS[i..] :: Ref(k, a.subs[k])
    }

    static lemma {:induction false} TodoStep(a: Attr, i: nat)
      requires i < |KINDS|
      ensures Todo(a, i) == if KINDS[i] in a.subs then Todo(a, i + 1) + {Ref(KINDS[i], a.subs[KINDS[i]])} else Todo(a, i + 1)
      ensures KINDS[i] in a.subs ==> Ref(KINDS[i], a.subs[KINDS[i]]) !in Todo(a, i + 1)
    {
      assert KINDS[i..] == [KINDS[i]] + KINDS[i + 1..];
      assert KINDS[i] !in KINDS[i + 1..];
      forall r: Ref ensures r in Todo(a, i + 1) ==> r in Todo(a, i) {
        if r in Todo(a, i + 1) { assert r.kind in KINDS[i..] && r.kind in a.subs && r == Ref(r.kind, a.subs[r.kind]); }
      }
      forall r: Ref ensures r in Todo(a, i) && r.kind != KINDS[i] ==> r in Todo(a, i + 1) {
        if r in Todo(a, i) && r.kind != KINDS[i] { assert r.kind in KINDS[i + 1..] && r == Ref(r.kind, a.subs[r.kind]); }
      }
      if KINDS[i] in a.subs { assert Ref(KINDS[i], a.subs[KINDS[i]]) in Todo(a, i); }
    }

    static lemma {:induction false} TodoAll(a: Attr)
      ensures Todo(a, 0) == RefSet(a) && Todo(a, |KINDS|) == {}
    {
      DoneAll(a);
      assert KINDS[..|KINDS|] == KINDS && KINDS[0..] == KINDS;
    }

    static lemma {:induction false} TakeOne(base: multiset<Ref>, s: set<Ref>, r: Ref)
      requires r !in s
      ensures (base + multiset(s + {r}))[r] > 0 && base + multiset(s + {r}) - multiset{r} == base + multiset(s)
    {
      assert multiset(s + {r}) == multiset(s) + multiset{r};
    }

    /** bgp_attr_unintern_sub: every component loses one reference. */
    method UninternSubs(a: Attr)
      requires Valid() && multiset(RefSet(a)) <= outside
      modifies this
      ensures Valid() && outside == old(outside) - multiset(RefSet(a)) && t.attrs == old(t.attrs) && t.next == old(t.next) && t.loose == old(t.loose)
    {
      hide Ok, Keyed, Todo, RefSet, Left;
      ghost var base := outside - multiset(RefSet(a));
      assert outside == base + multiset(RefSet(a));
      LeftAll(base, a);
      var i := 0;
      while i < |KINDS|
        invariant 0 <= i <= |KINDS| && Valid() && outside == Left(base, a, i)
        invariant t.attrs == old(t.attrs) && t.next == old(t.next) && t.loose == old(t.loose)
      {
        LeftStep(base, a, i);
        if KINDS[i] in a.subs { UninternShared(Ref(KINDS[i], a.subs[KINDS[i]])); }
        i := i + 1;
      }
    }

    /** The references that are left when those of the kinds up to `i` are given up. */
    static ghost function Left(base: multiset<Ref>, a: Attr, i: nat): multiset<Ref>
      requires i <= |KINDS|
    {
      base + multiset(Todo(a, i))
    }

    static lemma {:induction false} LeftAll(base: multiset<Ref>, a: Attr)
      ensures Left(base, a, 0) == base + multiset(RefSet(a)) && Left(base, a, |KINDS|) == base
    {
      TodoAll(a);
      assert base + multiset{} == base;
    }

    static lemma {:induction false} LeftStep(base: multiset<Ref>, a: Attr, i: nat)
      requires i < |KINDS|
      ensures if KINDS[i] in a.subs then
                var r := Ref(KINDS[i], a.subs[KINDS[i]]);
                Left(base, a, i)[r] > 0 && Left(base, a, i) - multiset{r} == Left(base, a, i + 1)
              else Left(base, a, i) == Left(base, a, i + 1)
    {
      hide Todo;
      TodoStep(a, i);
      if KINDS[i] in a.subs { TakeOne(base, Todo(a, i + 1), Ref(KINDS[i], a.subs[KINDS[i]])); }
    }

    /** bgp_attr_unintern: the attr and each of its components lose one reference,
        and each of them goes exactly when that was its last. */
    method Unintern(p: Ptr) returns (ghost i: nat)
      requires Valid() && exists j :: 0 <= j < |t.attrs| && t.attrs[j].ptr == p
      modifies this
      ensures Valid() && outside == old(outside)
      ensures i < |old(t.attrs)| && old(t.attrs[i].ptr) == p && old(t.attrs[i].refcnt) > 0 && t.attrs == Dropped(old(t.attrs), i)
    {
      hide Ok, Keyed, RefSet;
      var k := 0;
      while t.attrs[k].ptr != p
        invariant 0 <= k < |t.attrs| && forall j :: 0 <= j < k ==> t.attrs[j].ptr != p
        decreases |t.attrs| - k
      {
        k := k + 1;
      }
      i := k;
      DropAttr(t, outside, k);
      KeyedDropped(hash, t.shared, t.attrs, k);
      var tmp := t.attrs[k];
      t := t.(attrs := if tmp.refcnt == 1 then t.attrs[..k] + t.attrs[k + 1..] else t.attrs[k := tmp.(refcnt := tmp.refcnt - 1)]);
      ghost var base := outside;
      outside := outside + multiset(RefSet(tmp.attr));
      UninternSubs(tmp.attr);
      assert (base + multiset(RefSet(tmp.attr))) - multiset(RefSet(tmp.attr)) == base;
    }

    /** Interning and uninterning leaves every table with the references it had. */
    method InternThenUnintern(a: Attr)
      requires Valid() && Usable(t, a)
      modifies this
      ensures Valid() && t.attrs == old(t.attrs) && outside == old(outside)
      ensures t.shared.Keys == old(t.shared).Keys && forall r :: r in t.shared ==> t.shared[r].refcnt == old(t.shared[r].refcnt)
    {
      ghost var o, base := t, outside;
      hide Halfway, Ok;
      ghost var i, j;
      var p;
      PtrsUnique();
      var b;
      p, b, i := Intern(a);
      PtrsUnique();
      ghost var mid := t.attrs;
      j := Unintern(p);
      assert j == i;
      DroppedBack(o.attrs, mid, i);
      forall r ensures r in t.shared <==> r in o.shared
      ensures r in t.shared ==> t.shared[r].refcnt == o.shared[r].refcnt
      {
        UsedIs(t, outside, r);
        UsedIs(o, base, r);
      }
    }

    lemma {:induction false} PtrsUnique()
      requires Valid()
      ensures OnePerAttr(t.attrs) && forall i :: 0 <= i < |t.attrs| ==> t.attrs[i].refcnt > 0
    {
    }

    static lemma {:induction false} DroppedBack(x: seq<Entry>, y: seq<Entry>, i: nat)
      requires i < |y| && y[i].refcnt > 0 && forall k :: 0 <= k < |x| ==> x[k].refcnt > 0
      requires if i < |x| then y == x[i := x[i].(refcnt := x[i].refcnt + 1)] else y == x + [y[i]] && i == |x| && y[i].refcnt == 1
      ensures Dropped(y, i) == x
    {
    }

    static lemma {:induction false} UsedIs(t: Tables, outside: multiset<Ref>, r: Ref)
      requires Ok(t, outside)
      ensures r in t.shared <==> outside[r] + Uses(t.attrs, r) > 0
      ensures r in t.shared ==> t.shared[r].refcnt == outside[r] + Uses(t.attrs, r)
    {
      hide Uses;
    }

    /** Two interned attrs are the same object exactly when they have the same
        fields, their components the same contents, and their keys are the same. */
    lemma {:induction false} SameObject(i: nat, j: nat)
      requires Valid() && i < |t.attrs| && j < |t.attrs|
      ensures Live(t.shared, t.attrs[i].attr) && Live(t.shared, t.attrs[j].attr)
      ensures var a, b := t.attrs[i].attr, t.attrs[j].attr;
              var x, y := ContentsOf(t.shared, a), ContentsOf(t.shared, b);
              t.attrs[i].ptr == t.attrs[j].ptr
              <==> a.fields == b.fields && x == y && hash(a.fields, a.mplsLabel, x) == hash(b.fields, b.mplsLabel, y)
    {
      var a, b := t.attrs[i].attr, t.attrs[j].attr;
      assert KeyedAt(hash, t.shared, t.attrs[i]) && KeyedAt(hash, t.shared, t.attrs[j]);
      LiveSubs(t.shared, a);
      LiveSubs(t.shared, b);
      PointersDecide(t.shared, a, b);
      hide Contents, Keyed, Counted, AttrsOk, OnePerContent;
      if i < j {
        assert t.attrs[i].ptr != t.attrs[j].ptr && !Matches(t.attrs[i], b, t.attrs[j].key);
      } else if j < i {
        assert t.attrs[j].ptr != t.attrs[i].ptr && !Matches(t.attrs[j], a, t.attrs[i].key);
      }
    }

    /** An attr and the same with another label: attrhash_cmp sees no difference,
        and they are one object exactly when the labels give the same key. */
    method InternBoth(a: Attr, other: int) returns (p: Ptr, q: Ptr, ghost c: map<Kind, Content>)
      requires Valid() && Usable(t, a)
      modifies this
      ensures Valid() && outside == old(outside)
      ensures c.Keys == a.subs.Keys && forall k :: k in c ==> c[k] == ContentOf(old(t), Ref(k, a.subs[k]))
      ensures p == q <==> hash(a.fields, a.mplsLabel, c) == hash(a.fields, other, c)
    {
      hide Ok, Keyed, RefSet, Halfway, Contents, Live;
      ghost var i, j;
      var b, d;
      p, b, i := Intern(a);
      ghost var t1 := t;
      InternedContents(t, a, b, old(t));
      c := ContentsOf(t.shared, b);
      LiveSubs(t.shared, b);
      q, d, j := Intern(b.(mplsLabel := other));
      InternedContents(t, b.(mplsLabel := other), d, t1);
      SamePointers(t, outside, b, d, t1);
      SameKeys(i, j);
    }

    /** The components of an attr hold after interning what they held before. */
    static lemma {:induction false} InternedContents(t: Tables, a: Attr, b: Attr, o: Tables)
      requires Usable(o, a) && Halfway(t.(attrs := o.attrs, next := o.next), a, b, |KINDS|, o) && Live(t.shared, b)
      ensures var c := ContentsOf(t.shared, b);
              && b.fields == a.fields && b.mplsLabel == a.mplsLabel
              && c.Keys == a.subs.Keys && forall k :: k in c ==> c[k] == ContentOf(o, Ref(k, a.subs[k]))
    {
      LiveSubs(t.shared, b);
    }

    /** An attr whose components are interned keeps them. */
    static lemma {:induction false} SamePointers(t: Tables, outside: multiset<Ref>, b: Attr, d: Attr, o: Tables)
      requires Ok(t, outside) && Live(o.shared, b) && Live(t.shared, d) && Usable(o, b) && Usable(o, b.(mplsLabel := d.mplsLabel))
      requires Halfway(t.(attrs := o.attrs, next := o.next), b.(mplsLabel := d.mplsLabel), d, |KINDS|, o)
      ensures d.subs == b.subs && ContentsOf(t.shared, d) == ContentsOf(o.shared, b)
    {
      hide Ok, Halfway, Contents, Live, Usable;
      var b' := b.(mplsLabel := d.mplsLabel);
      InternedContents(t, b', d, o);
      HalfwayKeeps(t, b', d, o);
      LiveStays(o.shared, t.shared, b);
      SameLive(t, outside, b, d);
      LiveContents(o, b, ContentsOf(t.shared, d));
    }

    static lemma {:induction false} HalfwayKeeps(t: Tables, a: Attr, b: Attr, o: Tables)
      requires Usable(o, a) && Halfway(t.(attrs := o.attrs, next := o.next), a, b, |KINDS|, o)
      ensures o.shared.Keys <= t.shared.Keys && ContentKept(o.shared, t.shared)
    {
    }

    static lemma {:induction false} LiveStays(m: map<Ref, Shared>, m': map<Ref, Shared>, b: Attr)
      requires Live(m, b) && m.Keys <= m'.Keys && ContentKept(m, m')
      ensures Live(m', b) && ContentsOf(m', b) == ContentsOf(m, b)
    {
      LiveSubs(m, b);
    }

    static lemma {:induction false} LiveContents(o: Tables, b: Attr, c: map<Kind, Content>)
      requires Live(o.shared, b) && Usable(o, b) && c.Keys == b.subs.Keys
      requires forall k :: k in c ==> c[k] == ContentOf(o, Ref(k, b.subs[k]))
      ensures c == ContentsOf(o.shared, b)
    {
      LiveSubs(o.shared, b);
    }

    static lemma {:induction false} SameLive(t: Tables, outside: multiset<Ref>, b: Attr, d: Attr)
      requires Ok(t, outside) && Live(t.shared, b) && Live(t.shared, d) && b.fields == d.fields
      ensures ContentsOf(t.shared, b) == ContentsOf(t.shared, d) ==> b.subs == d.subs
    {
      LiveSubs(t.shared, b);
      LiveSubs(t.shared, d);
      PointersDecide(t.shared, b, d);
    }

    /** Entries are told apart by key, fields and pointers. */
    lemma {:induction false} SameKeys(i: nat, j: nat)
      requires Valid() && i < |t.attrs| && j < |t.attrs|
      ensures t.attrs[i].ptr == t.attrs[j].ptr <==> Matches(t.attrs[i], t.attrs[j].attr, t.attrs[j].key)
    {
    }
  }

  /** From the start, with keys that tell labels apart: two objects for two attrs
      that differ in nothing attrhash_cmp compares. */
  method TwoLabels(fields: Fields) returns (x: Store, p: Ptr, q: Ptr)
    ensures x.Valid() && p != q
  {
    x := new Store((f: Fields, l: int, c: map<Kind, Content>) => l);
    ghost var c;
    p, q, c := x.InternBoth(Attr(fields, 0, map[]), 1);
  }
}
