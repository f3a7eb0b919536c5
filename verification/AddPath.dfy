/**
 Transmit IDs for BGP additional paths (bgpd/bgp_addpath.c; section 2 of RFC 7911),
 for one address family and one add-path strategy; the code repeats the same for
 each.  The allocator of lib/id_alloc.c is the set of IDs it has handed out.

 IDs are counted in multisets, so that one equation says that the allocated IDs
 are exactly the reserved ones, those held by paths and those in the pools of the
 nodes, and that no ID is in two places.
 */
module AddPath {
  import opened Common

  const IDALLOC_INVALID := 0
  const TX_ID_FOR_DEFAULT_ORIGINATE := 1

  datatype Strategy = AddPathAll | BestPerAs

  /** A path of a node: whether deterministic MED selected it, and its ID. */
  datatype PathInfo = PathInfo(dmedSelected: bool, id: nat)

  /** A prefix: its paths, and the IDs set aside for them, the latest first. */
  datatype Node = Node(paths: seq<PathInfo>, pool: seq<nat>)

  /** bgp_addpath_tx_path */
  predicate TxPath(strat: Strategy, pi: PathInfo) {
    match strat
    case AddPathAll => true
    case BestPerAs => pi.dmedSelected
  }

  /** The same paths, whatever their IDs. */
  ghost predicate SamePaths(o: Node, n: Node) {
    |n.paths| == |o.paths| && forall k :: 0 <= k < |n.paths| ==> n.paths[k].dmedSelected == o.paths[k].dmedSelected
  }

  ghost predicate SameNodes(os: seq<Node>, ns: seq<Node>) {
    |ns| == |os| && forall i :: 0 <= i < |ns| ==> SamePaths(os[i], ns[i])
  }

  lemma {:induction false} SameNodesStep(os: seq<Node>, ns: seq<Node>, i: nat, n: Node)
    requires SameNodes(os, ns) && i < |ns| && SamePaths(ns[i], n)
    ensures SameNodes(os, ns[i := n])
  {
  }

  /** With all paths announced every path has an ID, else those deterministic MED
      selected. */
  lemma {:induction false} AssignedMeans(strat: Strategy, paths: seq<PathInfo>)
    ensures Assigned(strat, paths) <==>
            forall k :: 0 <= k < |paths| ==> (paths[k].id != IDALLOC_INVALID <==> strat.AddPathAll? || paths[k].dmedSelected)
  {
  }

  // ------------------------------------------------------------------
  // Counting IDs
  // ------------------------------------------------------------------

  function OneId(id: nat): multiset<nat> { if id == IDALLOC_INVALID then multiset{} else multiset{id} }

  function HeldIds(paths: seq<PathInfo>): multiset<nat> {
    if paths == [] then multiset{} else OneId(paths[0].id) + HeldIds(paths[1..])
  }

  function NodeIds(n: Node): multiset<nat> { HeldIds(n.paths) + multiset(n.pool) }

  function AllIds(nodes: seq<Node>): multiset<nat> {
    if nodes == [] then multiset{} else NodeIds(nodes[0]) + AllIds(nodes[1..])
  }

  lemma {:induction false} HeldConcat(x: seq<PathInfo>, y: seq<PathInfo>)
    ensures HeldIds(x + y) == HeldIds(x) + HeldIds(y)
  {
    if x == [] {
      assert x + y == y;
    } else {
      assert (x + y)[1..] == x[1..] + y;
      HeldConcat(x[1..], y);
    }
  }

  lemma {:induction false} HeldSplit(paths: seq<PathInfo>, k: nat)
    requires k < |paths|
    ensures HeldIds(paths) == HeldIds(paths[..k]) + OneId(paths[k].id) + HeldIds(paths[k + 1..])
  {
    assert paths == paths[..k] + ([paths[k]] + paths[k + 1..]);
    HeldConcat(paths[..k], [paths[k]] + paths[k + 1..]);
    assert ([paths[k]] + paths[k + 1..])[1..] == paths[k + 1..];
  }

  lemma {:induction false} HeldUpdate(paths: seq<PathInfo>, k: nat, pi: PathInfo)
    requires k < |paths|
    ensures HeldIds(paths[k := pi]) + OneId(paths[k].id) == HeldIds(paths) + OneId(pi.id)
  {
    var q := paths[k := pi];
    HeldSplit(paths, k);
    HeldSplit(q, k);
    assert q[..k] == paths[..k] && q[k + 1..] == paths[k + 1..];
  }

  lemma {:induction false} AllConcat(x: seq<Node>, y: seq<Node>)
    ensures AllIds(x + y) == AllIds(x) + AllIds(y)
  {
    if x == [] {
      assert x + y == y;
    } else {
      assert (x + y)[1..] == x[1..] + y;
      AllConcat(x[1..], y);
    }
  }

  lemma {:induction false} AllSplit(nodes: seq<Node>, i: nat)
    requires i < |nodes|
    ensures AllIds(nodes) == AllIds(nodes[..i]) + NodeIds(nodes[i]) + AllIds(nodes[i + 1..])
  {
    assert nodes == nodes[..i] + ([nodes[i]] + nodes[i + 1..]);
    AllConcat(nodes[..i], [nodes[i]] + nodes[i + 1..]);
    assert ([nodes[i]] + nodes[i + 1..])[1..] == nodes[i + 1..];
  }

  lemma {:induction false} AllUpdate(nodes: seq<Node>, i: nat, n: Node)
    requires i < |nodes|
    ensures AllIds(nodes[i := n]) + NodeIds(nodes[i]) == AllIds(nodes) + NodeIds(n)
  {
    var q := nodes[i := n];
    AllSplit(nodes, i);
    AllSplit(q, i);
    assert q[..i] == nodes[..i] && q[i + 1..] == nodes[i + 1..];
  }

  // ------------------------------------------------------------------
  // The allocator
  // ------------------------------------------------------------------

  /** idalloc_allocate: an ID that is not in use. */
  method Allocate(al: set<nat>) returns (id: nat, after: set<nat>)
    requires IDALLOC_INVALID in al
    ensures id != IDALLOC_INVALID && id !in al && after == al + {id}
    ensures multiset(after) == multiset(al) + multiset{id}
  {
    id := 0;
    ghost var seen: set<nat> := {};
    while id in al
      invariant seen <= al && forall x :: x in seen <==> 0 <= x < id
      decreases al - seen
    {
      seen := seen + {id};
      id := id + 1;
    }
    after := al + {id};
  }

  /** idalloc_free, for an ID that is in use. */
  lemma {:induction false} FreeOne(al: set<nat>, id: nat)
    requires id in al
    ensures multiset(al - {id}) + multiset{id} == multiset(al)
  {
  }

  lemma {:induction false} Cancel(x: multiset<nat>, y: multiset<nat>, z: multiset<nat>)
    requires x + z == y + z
    ensures x == y
  {
    forall i ensures x[i] == y[i] {
      assert (x + z)[i] == (y + z)[i];
    }
  }

  lemma {:induction false} TakeOut(x: multiset<nat>, y: multiset<nat>)
    requires y <= x
    ensures (x - y) + y == x
  {
  }

  lemma {:induction false} PutBack(x: multiset<nat>, y: multiset<nat>)
    ensures (x + y) - y == x
  {
  }

  /** idalloc_drain_pool: all the pool's IDs are freed; each was in use. */
  method Drain(al0: set<nat>, pool0: seq<nat>) returns (al: set<nat>, pool: seq<nat>)
    requires multiset(pool0) <= multiset(al0)
    ensures pool == [] && multiset(al) == multiset(al0) - multiset(pool0)
  {
    ghost var rest := multiset(al0) - multiset(pool0);
    TakeOut(multiset(al0), multiset(pool0));
    al, pool := al0, pool0;
    while pool != []
      invariant multiset(al) == rest + multiset(pool)
      decreases |pool|
    {
      ghost var id := pool[0];
      assert pool == [id] + pool[1..];
      PoolPush(id, pool[1..]);
      assert id in multiset(al);
      FreeOne(al, id);
      assert multiset(al - {id}) + multiset{id} == (rest + multiset(pool[1..])) + multiset{id};
      Cancel(multiset(al - {id}), rest + multiset(pool[1..]), multiset{id});
      al, pool := al - {pool[0]}, pool[1..];
    }
  }

  // ------------------------------------------------------------------
  // One node after bestpath
  // ------------------------------------------------------------------

  /** The first loop: IDs that are no longer needed go to the pool. */
  method FreeUnused(strat: Strategy, n0: Node) returns (n: Node)
    ensures NodeIds(n) == NodeIds(n0) && |n.paths| == |n0.paths|
    ensures forall k :: 0 <= k < |n.paths| ==>
              n.paths[k] == if TxPath(strat, n0.paths[k]) then n0.paths[k] else n0.paths[k].(id := IDALLOC_INVALID)
  {
    n := n0;
    var k := 0;
    hide NodeIds;
    while k < |n0.paths|
      invariant 0 <= k <= |n0.paths| == |n.paths| && NodeIds(n) == NodeIds(n0)
      invariant forall i :: 0 <= i < k ==>
                  n.paths[i] == if TxPath(strat, n0.paths[i]) then n0.paths[i] else n0.paths[i].(id := IDALLOC_INVALID)
      invariant forall i :: k <= i < |n0.paths| ==> n.paths[i] == n0.paths[i]
    {
      var pi := n.paths[k];
      if pi.id != IDALLOC_INVALID && !TxPath(strat, pi) {
        IdToPool(n, k);
        n := Node(n.paths[k := pi.(id := IDALLOC_INVALID)], [pi.id] + n.pool);
      }
      k := k + 1;
    }
  }

  lemma {:induction false} IdToPool(n: Node, k: nat)
    requires k < |n.paths| && n.paths[k].id != IDALLOC_INVALID
    ensures NodeIds(Node(n.paths[k := n.paths[k].(id := IDALLOC_INVALID)], [n.paths[k].id] + n.pool)) == NodeIds(n)
  {
    hide HeldIds;
    var pi := n.paths[k].(id := IDALLOC_INVALID);
    var id, held, held', pool := n.paths[k].id, HeldIds(n.paths), HeldIds(n.paths[k := pi]), multiset(n.pool);
    HeldUpdate(n.paths, k, pi);
    PoolPush(id, n.pool);
    assert held' + multiset{id} == held + multiset{};
    Moved(held', multiset{id}, pool, held);
  }

  lemma {:induction false} Moved(x: multiset<nat>, y: multiset<nat>, z: multiset<nat>, w: multiset<nat>)
    requires x + y == w + multiset{}
    ensures x + (y + z) == w + z
  {
    assert x + (y + z) == (x + y) + z;
    assert w + multiset{} == w;
  }

  lemma {:induction false} PoolPush(id: nat, pool: seq<nat>)
    ensures multiset([id] + pool) == multiset{id} + multiset(pool)
  {
  }

  /** The second loop: paths that need an ID take one from the pool, or a new one
      once the pool is empty. */
  method GiveIds(strat: Strategy, al0: set<nat>, n0: Node) returns (al: set<nat>, n: Node)
    requires NodeIds(n0) <= multiset(al0) && IDALLOC_INVALID in al0 && IDALLOC_INVALID !in NodeIds(n0)
    requires forall k :: 0 <= k < |n0.paths| && !TxPath(strat, n0.paths[k]) ==> n0.paths[k].id == IDALLOC_INVALID
    ensures al0 <= al && multiset(al) == multiset(al0) - NodeIds(n0) + NodeIds(n) && IDALLOC_INVALID !in NodeIds(n)
    ensures NodeIds(n0) <= NodeIds(n) && (n.pool != [] ==> NodeIds(n) == NodeIds(n0))
    ensures |n.paths| == |n0.paths| && forall k :: 0 <= k < |n.paths| ==>
              && n.paths[k].dmedSelected == n0.paths[k].dmedSelected
              && (n.paths[k].id != IDALLOC_INVALID <==> TxPath(strat, n.paths[k]))
              && (n0.paths[k].id != IDALLOC_INVALID ==> n.paths[k] == n0.paths[k])
  {
    hide NodeIds, Served, TxPath;
    ghost var rest := multiset(al0) - NodeIds(n0);
    TakeOut(multiset(al0), NodeIds(n0));
    al, n := al0, n0;
    var k := 0;
    ServedNone(strat, n0.paths);
    while k < |n0.paths|
      invariant 0 <= k <= |n0.paths| == |n.paths|
      invariant al0 <= al && multiset(al) == rest + NodeIds(n) && IDALLOC_INVALID in al && IDALLOC_INVALID !in NodeIds(n)
      invariant NodeIds(n0) <= NodeIds(n) && (n.pool != [] ==> NodeIds(n) == NodeIds(n0))
      invariant Served(strat, n0.paths, n.paths, k)
    {
      var pi := n.paths[k];
      ghost var was := n.paths;
      ServedAt(strat, n0.paths, n.paths, k);
      if pi.id == IDALLOC_INVALID && TxPath(strat, pi) {
        PutBack(rest, NodeIds(n));
        al, n := AllocatePreferPool(al, n, k);
        SentAnyway(strat, pi, n.paths[k].id);
      }
      ServedStep(strat, n0.paths, was, n.paths, k);
      k := k + 1;
    }
    ServedAll(strat, n0.paths, n.paths);
  }

  /** Whether a path is to be sent does not depend on its ID. */
  lemma {:induction false} SentAnyway(strat: Strategy, pi: PathInfo, id: nat)
    ensures TxPath(strat, pi.(id := id)) == TxPath(strat, pi)
  {
  }

  /** idalloc_allocate_prefer_pool, for the path at `k`. */
  method AllocatePreferPool(al0: set<nat>, n0: Node, k: nat) returns (al: set<nat>, n: Node)
    requires NodeIds(n0) <= multiset(al0) && IDALLOC_INVALID in al0 && IDALLOC_INVALID !in NodeIds(n0)
    requires k < |n0.paths| && n0.paths[k].id == IDALLOC_INVALID
    ensures al0 <= al && multiset(al) == multiset(al0) - NodeIds(n0) + NodeIds(n) && IDALLOC_INVALID !in NodeIds(n)
    ensures if n0.pool != [] then NodeIds(n) == NodeIds(n0) else NodeIds(n0) <= NodeIds(n) && n.pool == []
    ensures |n.paths| == |n0.paths| && n.paths[k].id != IDALLOC_INVALID && n.paths == n0.paths[k := n0.paths[k].(id := n.paths[k].id)]
  {
    ghost var rest := multiset(al0) - NodeIds(n0);
    TakeOut(multiset(al0), NodeIds(n0));
    al := al0;
    if n0.pool != [] {
      IdFromPool(n0, k);
      n := Node(n0.paths[k := n0.paths[k].(id := n0.pool[0])], n0.pool[1..]);
    } else {
      var id: nat;
      id, al := Allocate(al);
      IdGiven(n0, k, id);
      n := Node(n0.paths[k := n0.paths[k].(id := id)], []);
      assert rest + (NodeIds(n0) + multiset{id}) == (rest + NodeIds(n0)) + multiset{id};
    }
  }

  lemma {:induction false} IdGiven(n: Node, k: nat, id: nat)
    requires k < |n.paths| && n.paths[k].id == IDALLOC_INVALID && id != IDALLOC_INVALID
    ensures NodeIds(n.(paths := n.paths[k := n.paths[k].(id := id)])) == NodeIds(n) + multiset{id}
  {
    var pi := n.paths[k].(id := id);
    HeldUpdate(n.paths, k, pi);
    var held, held', pool, one := HeldIds(n.paths), HeldIds(n.paths[k := pi]), multiset(n.pool), multiset{id};
    hide HeldIds;
    assert held' + multiset{} == held';
    Regroup(held, one, pool);
  }

  lemma {:induction false} Regroup(x: multiset<nat>, y: multiset<nat>, z: multiset<nat>)
    ensures (x + y) + z == (x + z) + y
  {
  }

  lemma {:induction false} IdFromPool(n: Node, k: nat)
    requires k < |n.paths| && n.paths[k].id == IDALLOC_INVALID && n.pool != [] && IDALLOC_INVALID !in NodeIds(n)
    ensures n.pool[0] != IDALLOC_INVALID
    ensures NodeIds(Node(n.paths[k := n.paths[k].(id := n.pool[0])], n.pool[1..])) == NodeIds(n)
  {
    var id, pool := n.pool[0], n.pool[1..];
    assert n.pool == [id] + pool;
    PoolPush(id, pool);
    assert id in NodeIds(n);
    var m := Node(n.paths, pool);
    IdGiven(m, k, id);
    assert (HeldIds(n.paths) + multiset(pool)) + multiset{id} == HeldIds(n.paths) + (multiset{id} + multiset(pool));
  }

  function Eligible(strat: Strategy, paths: seq<PathInfo>): nat {
    if paths == [] then 0 else (if TxPath(strat, paths[0]) then 1 else 0) + Eligible(strat, paths[1..])
  }

  /** Exactly the eligible paths have an ID. */
  ghost predicate Assigned(strat: Strategy, paths: seq<PathInfo>) {
    forall k :: 0 <= k < |paths| ==> (paths[k].id != IDALLOC_INVALID <==> TxPath(strat, paths[k]))
  }

  lemma {:induction false} AssignedCount(strat: Strategy, paths: seq<PathInfo>)
    requires Assigned(strat, paths)
    ensures |HeldIds(paths)| == Eligible(strat, paths)
  {
    if paths != [] { AssignedCount(strat, paths[1..]); }
  }

  lemma {:induction false} EligibleSame(strat: Strategy, x: seq<PathInfo>, y: seq<PathInfo>)
    requires |x| == |y| && forall k :: 0 <= k < |x| ==> x[k].dmedSelected == y[k].dmedSelected
    ensures Eligible(strat, x) == Eligible(strat, y)
  {
    if x != [] { EligibleSame(strat, x[1..], y[1..]); }
  }

  /** What bgp_addpath_update_ids does to a node. */
  ghost predicate Updated(strat: Strategy, o: Node, n: Node) {
    && n.pool == [] && |n.paths| == |o.paths| && Assigned(strat, n.paths)
    && (forall k :: 0 <= k < |n.paths| ==>
          && n.paths[k].dmedSelected == o.paths[k].dmedSelected
          && (o.paths[k].id != IDALLOC_INVALID && TxPath(strat, o.paths[k]) ==> n.paths[k] == o.paths[k]))
    && (NodeIds(o) <= NodeIds(n) || NodeIds(n) <= NodeIds(o))
    && (|NodeIds(o)| == Eligible(strat, o.paths) ==> NodeIds(n) == NodeIds(o))
  }

  /** The same between the last two loops, with what is left in the pool. */
  ghost predicate Reassigned(strat: Strategy, o: Node, m: Node) {
    && |m.paths| == |o.paths| && Assigned(strat, m.paths)
    && (forall k :: 0 <= k < |m.paths| ==>
          && m.paths[k].dmedSelected == o.paths[k].dmedSelected
          && (o.paths[k].id != IDALLOC_INVALID && TxPath(strat, o.paths[k]) ==> m.paths[k] == o.paths[k]))
    && NodeIds(o) <= NodeIds(m) && (m.pool != [] ==> NodeIds(m) == NodeIds(o))
  }

  /** The IDs nest, and as many as before means the same ones. */
  lemma {:induction false} Nested(strat: Strategy, o: Node, m: Node)
    requires Reassigned(strat, o, m)
    ensures Updated(strat, o, Node(m.paths, []))
  {
    AssignedCount(strat, m.paths);
    EligibleSame(strat, o.paths, m.paths);
    Drained(m.paths);
    NestedIds(NodeIds(o), HeldIds(m.paths), m.pool);
    hide HeldIds, Eligible, Assigned, TxPath;
  }

  lemma {:induction false} NestedIds(had: multiset<nat>, held: multiset<nat>, pool: seq<nat>)
    requires had <= held + multiset(pool) && (pool != [] ==> held + multiset(pool) == had)
    ensures had <= held || held <= had
    ensures |had| == |held| ==> had == held
  {
    if pool == [] {
      assert had <= held;
      if |had| == |held| { SameSize(had, held); }
    } else {
      assert |had| == |held| + |pool|;
    }
  }

  method Reassign(strat: Strategy, al0: set<nat>, n0: Node) returns (al: set<nat>, m: Node)
    requires NodeIds(n0) <= multiset(al0) && IDALLOC_INVALID in al0 && IDALLOC_INVALID !in NodeIds(n0)
    ensures multiset(al) == multiset(al0) - NodeIds(n0) + NodeIds(m) && Reassigned(strat, n0, m)
  {
    hide NodeIds;
    var n := FreeUnused(strat, n0);
    al, m := GiveIds(strat, al0, n);
  }

  lemma {:induction false} SameSize(x: multiset<nat>, y: multiset<nat>)
    requires x <= y && |x| == |y|
    ensures x == y
  {
    assert y == x + (y - x);
  }

  /** bgp_addpath_update_ids on one node whose strategy is in use. */
  method UpdateNode(strat: Strategy, al0: set<nat>, n0: Node) returns (al: set<nat>, n: Node)
    requires NodeIds(n0) <= multiset(al0) && IDALLOC_INVALID in al0 && IDALLOC_INVALID !in NodeIds(n0)
    ensures multiset(al) == multiset(al0) - NodeIds(n0) + NodeIds(n) && Updated(strat, n0, n)
  {
    hide NodeIds, Updated, Reassigned;
    var m: Node;
    al, m := Reassign(strat, al0, n0);
    Nested(strat, n0, m);
    ghost var rest := multiset(al0) - NodeIds(n0);
    DrainSplit(al, m, rest);
    Drained(m.paths);
    PutBack(rest + HeldIds(m.paths), multiset(m.pool));
    var pool: seq<nat>;
    al, pool := Drain(al, m.pool);
    n := Node(m.paths, pool);
  }

  lemma {:induction false} DrainSplit(al: set<nat>, m: Node, rest: multiset<nat>)
    requires multiset(al) == rest + NodeIds(m)
    ensures multiset(al) == (rest + HeldIds(m.paths)) + multiset(m.pool)
  {
    hide HeldIds;
  }

  lemma {:induction false} Drained(paths: seq<PathInfo>)
    ensures NodeIds(Node(paths, [])) == HeldIds(paths)
  {
    hide HeldIds;
  }

  // ------------------------------------------------------------------
  // Starting and stopping a strategy
  // ------------------------------------------------------------------

  ghost predicate NoIds(n: Node) { NodeIds(n) == multiset{} }

  lemma {:induction false} NoIdAt(n: Node, k: nat)
    requires NoIds(n) && k < |n.paths|
    ensures n.paths[k].id == IDALLOC_INVALID && n.pool == []
  {
    HeldSplit(n.paths, k);
    var one := OneId(n.paths[k].id);
    hide HeldIds;
    assert one <= NodeIds(n) && |one| == 0;
    assert |n.pool| == |multiset(n.pool)| == 0;
  }

  /** bgp_addpath_populate_path on every path of a node that has no IDs. */
  method PopulateNode(strat: Strategy, al0: set<nat>, n0: Node) returns (al: set<nat>, n: Node)
    requires NoIds(n0) && IDALLOC_INVALID in al0
    ensures al0 <= al && multiset(al) == multiset(al0) + NodeIds(n) && n.pool == n0.pool && |n.paths| == |n0.paths| && Assigned(strat, n.paths)
    ensures forall k :: 0 <= k < |n.paths| ==> n.paths[k].dmedSelected == n0.paths[k].dmedSelected
  {
    hide NodeIds, Served, TxPath, Assigned, NoIds;
    ghost var rest := multiset(al0);
    al, n := al0, n0;
    var k := 0;
    ServedNone(strat, n0.paths);
    NoIdsMeans(n0);
    assert multiset(al0) == rest + multiset{};
    while k < |n0.paths|
      invariant 0 <= k <= |n0.paths| == |n.paths| && n.pool == n0.pool
      invariant al0 <= al && multiset(al) == rest + NodeIds(n) && IDALLOC_INVALID in al
      invariant Served(strat, n0.paths, n.paths, k)
    {
      NoIdAt(n0, k);
      ghost var was := n.paths;
      ServedAt(strat, n0.paths, n.paths, k);
      if TxPath(strat, n.paths[k]) {
        var id: nat;
        id, al := Allocate(al);
        IdGiven(n, k, id);
        Take(rest, NodeIds(n), multiset{id});
        SentAnyway(strat, n.paths[k], id);
        n := n.(paths := n.paths[k := n.paths[k].(id := id)]);
      }
      ServedStep(strat, n0.paths, was, n.paths, k);
      k := k + 1;
    }
    ServedAll(strat, n0.paths, n.paths);
  }

  /** Of the paths `now`, once `was`, the first `k` have an ID exactly if they are to be
      sent; those that had one keep it, and the others are untouched. */
  ghost predicate Served(strat: Strategy, was: seq<PathInfo>, now: seq<PathInfo>, k: nat) {
    && |now| == |was|
    && (forall i :: 0 <= i < k && i < |was| ==>
          && now[i].dmedSelected == was[i].dmedSelected
          && (now[i].id != IDALLOC_INVALID <==> TxPath(strat, now[i]))
          && (was[i].id != IDALLOC_INVALID ==> now[i] == was[i]))
    && (forall i :: k <= i < |was| ==> now[i] == was[i])
  }

  lemma {:induction false} ServedNone(strat: Strategy, paths: seq<PathInfo>)
    ensures Served(strat, paths, paths, 0)
  {
  }

  lemma {:induction false} ServedAt(strat: Strategy, was: seq<PathInfo>, now: seq<PathInfo>, k: nat)
    requires Served(strat, was, now, k) && k < |was|
    ensures k < |now| && now[k] == was[k]
  {
  }

  lemma {:induction false} ServedStep(strat: Strategy, was: seq<PathInfo>, mid: seq<PathInfo>, now: seq<PathInfo>, k: nat)
    requires Served(strat, was, mid, k) && k < |was| && |now| == |mid| && now == mid[k := now[k]]
    requires now[k] == mid[k].(id := now[k].id) && (now[k].id != IDALLOC_INVALID <==> TxPath(strat, now[k]))
    requires mid[k].id != IDALLOC_INVALID ==> now[k] == mid[k]
    ensures Served(strat, was, now, k + 1)
  {
    hide TxPath;
    assert mid[k] == was[k];
    assert forall i :: 0 <= i < |now| && i != k ==> now[i] == mid[i];
  }

  lemma {:induction false} ServedAll(strat: Strategy, was: seq<PathInfo>, now: seq<PathInfo>)
    requires Served(strat, was, now, |was|)
    ensures |now| == |was| && Assigned(strat, now)
    ensures forall k :: 0 <= k < |now| ==>
              && now[k].dmedSelected == was[k].dmedSelected
              && (now[k].id != IDALLOC_INVALID <==> TxPath(strat, now[k]))
              && (was[k].id != IDALLOC_INVALID ==> now[k] == was[k])
  {
    hide TxPath;
  }

  lemma {:induction false} NoIdsMeans(n: Node)
    requires NoIds(n)
    ensures NodeIds(n) == multiset{}
  {
  }

  lemma {:induction false} Take(x: multiset<nat>, y: multiset<nat>, z: multiset<nat>)
    ensures (x + y) + z == x + (y + z)
  {
  }

  /** The part of bgp_addpath_flush_type for one node. */
  method FlushNode(al0: set<nat>, n0: Node) returns (al: set<nat>, n: Node)
    requires NodeIds(n0) <= multiset(al0)
    ensures multiset(al) == multiset(al0) - NodeIds(n0) && NoIds(n) && |n.paths| == |n0.paths|
    ensures forall k :: 0 <= k < |n.paths| ==> n.paths[k] == n0.paths[k].(id := IDALLOC_INVALID)
  {
    ghost var rest := multiset(al0) - NodeIds(n0);
    TakeOut(multiset(al0), NodeIds(n0));
    DrainSplit(al0, n0, rest);
    PutBack(rest + HeldIds(n0.paths), multiset(n0.pool));
    Drained(n0.paths);
    hide NodeIds, HeldIds;
    var pool: seq<nat>;
    al, pool := Drain(al0, n0.pool);
    PutBack(rest, NodeIds(Node(n0.paths, [])));
    al, n := FreePaths(al, Node(n0.paths, pool));
  }

  /** The loop that frees the IDs of the paths, once the pool is empty. */
  method FreePaths(al0: set<nat>, n0: Node) returns (al: set<nat>, n: Node)
    requires n0.pool == [] && NodeIds(n0) <= multiset(al0)
    ensures multiset(al) == multiset(al0) - NodeIds(n0) && NoIds(n) && |n.paths| == |n0.paths|
    ensures forall k :: 0 <= k < |n.paths| ==> n.paths[k] == n0.paths[k].(id := IDALLOC_INVALID)
  {
    hide NodeIds;
    ghost var rest := multiset(al0) - NodeIds(n0);
    TakeOut(multiset(al0), NodeIds(n0));
    al, n := al0, n0;
    var k := 0;
    while k < |n0.paths|
      invariant 0 <= k <= |n0.paths| == |n.paths| && n.pool == [] && multiset(al) == rest + NodeIds(n)
      invariant forall i :: 0 <= i < k ==> n.paths[i] == n0.paths[i].(id := IDALLOC_INVALID)
      invariant forall i :: k <= i < |n0.paths| ==> n.paths[i] == n0.paths[i]
    {
      var id := n.paths[k].id;
      if id != IDALLOC_INVALID {
        FreeHeld(al, n, k, rest);
        al := al - {id};
        n := n.(paths := n.paths[k := n.paths[k].(id := IDALLOC_INVALID)]);
      }
      k := k + 1;
    }
    AllInvalid(n);
    assert rest + multiset{} == rest;
  }

  lemma {:induction false} FreeHeld(al: set<nat>, n: Node, k: nat, rest: multiset<nat>)
    requires multiset(al) == rest + NodeIds(n) && k < |n.paths| && n.paths[k].id != IDALLOC_INVALID
    ensures n.paths[k].id in al
    ensures multiset(al - {n.paths[k].id}) == rest + NodeIds(n.(paths := n.paths[k := n.paths[k].(id := IDALLOC_INVALID)]))
  {
    var id, m := n.paths[k].id, n.(paths := n.paths[k := n.paths[k].(id := IDALLOC_INVALID)]);
    IdTaken(n, k);
    hide NodeIds;
    assert id in multiset(al);
    FreeOne(al, id);
    Take(rest, NodeIds(m), multiset{id});
    Cancel(multiset(al - {id}), rest + NodeIds(m), multiset{id});
  }

  lemma {:induction false} IdTaken(n: Node, k: nat)
    requires k < |n.paths| && n.paths[k].id != IDALLOC_INVALID
    ensures NodeIds(n.(paths := n.paths[k := n.paths[k].(id := IDALLOC_INVALID)])) + multiset{n.paths[k].id} == NodeIds(n)
  {
    var m := n.(paths := n.paths[k := n.paths[k].(id := IDALLOC_INVALID)]);
    IdGiven(m, k, n.paths[k].id);
    assert m.paths[k := m.paths[k].(id := n.paths[k].id)] == n.paths;
  }

  lemma {:induction false} AllInvalid(n: Node)
    requires n.pool == [] && forall k :: 0 <= k < |n.paths| ==> n.paths[k].id == IDALLOC_INVALID
    ensures NoIds(n)
    decreases |n.paths|
  {
    if n.paths != [] { AllInvalid(Node(n.paths[1..], [])); }
  }

  // ------------------------------------------------------------------
  // All nodes
  // ------------------------------------------------------------------

  const RESERVED: set<nat> := {IDALLOC_INVALID, TX_ID_FOR_DEFAULT_ORIGINATE}

  /** The allocated IDs are the reserved ones and those held or pooled, each once. */
  ghost predicate Accounted(al: set<nat>, nodes: seq<Node>) { multiset(al) == multiset(RESERVED) + AllIds(nodes) }

  /** What that means for a single ID. */
  lemma {:induction false} EachOnce(al: set<nat>, nodes: seq<Node>, id: nat)
    requires Accounted(al, nodes)
    ensures AllIds(nodes)[id] == if id in al && id !in RESERVED then 1 else 0
    ensures RESERVED <= al
  {
    assert multiset(al)[id] == multiset(RESERVED)[id] + AllIds(nodes)[id];
    assert forall x :: x in RESERVED ==> x in multiset(RESERVED) && x in multiset(al);
  }

  lemma {:induction false} NodeHasNoInvalid(al: set<nat>, nodes: seq<Node>, i: nat)
    requires Accounted(al, nodes) && i < |nodes|
    ensures IDALLOC_INVALID in al && IDALLOC_INVALID !in NodeIds(nodes[i])
  {
    EachOnce(al, nodes, IDALLOC_INVALID);
    AllSplit(nodes, i);
  }

  /** All IDs but those of node `i`. */
  ghost function Rest(nodes: seq<Node>, i: nat): multiset<nat>
    requires i < |nodes|
  {
    multiset(RESERVED) + AllIds(nodes[..i]) + AllIds(nodes[i + 1..])
  }

  lemma {:induction false} RestOf(al: set<nat>, nodes: seq<Node>, i: nat, n: Node)
    requires i < |nodes|
    ensures Accounted(al, nodes) <==> multiset(al) == Rest(nodes, i) + NodeIds(nodes[i])
    ensures Accounted(al, nodes[i := n]) <==> multiset(al) == Rest(nodes, i) + NodeIds(n)
  {
    AllSplit(nodes, i);
    var q := nodes[i := n];
    AllSplit(q, i);
    assert q[..i] == nodes[..i] && q[i + 1..] == nodes[i + 1..];
    hide AllIds, NodeIds;
  }

  lemma {:induction false} NoneAt(nodes: seq<Node>, i: nat)
    requires AllIds(nodes) == multiset{} && i < |nodes|
    ensures NoIds(nodes[i])
  {
    AllSplit(nodes, i);
    hide AllIds, NodeIds;
    assert |NodeIds(nodes[i])| <= |AllIds(nodes)|;
  }

  lemma {:induction false} NoneInAll(nodes: seq<Node>)
    requires forall i :: 0 <= i < |nodes| ==> NoIds(nodes[i])
    ensures AllIds(nodes) == multiset{}
  {
    hide NodeIds;
    if nodes != [] {
      assert forall i :: 0 <= i < |nodes[1..]| ==> nodes[1..][i] == nodes[i + 1];
      NoneInAll(nodes[1..]);
      assert NoIds(nodes[0]);
    }
  }

  lemma {:induction false} NoneAnywhere(nodes: seq<Node>)
    ensures AllIds(nodes) == multiset{} <==> forall i :: 0 <= i < |nodes| ==> NoIds(nodes[i])
  {
    hide AllIds, NoIds;
    if AllIds(nodes) == multiset{} {
      forall i | 0 <= i < |nodes| ensures NoIds(nodes[i]) { NoneAt(nodes, i); }
    } else if forall i :: 0 <= i < |nodes| ==> NoIds(nodes[i]) {
      NoneInAll(nodes);
    }
  }

  lemma {:induction false} Empty(x: multiset<nat>, y: multiset<nat>)
    requires x + y == multiset{}
    ensures x == multiset{}
  {
    assert |x + y| == |x| + |y|;
  }

  lemma {:induction false} NothingYet(nodes: seq<Node>)
    requires AllIds(nodes) == multiset{}
    ensures Accounted(RESERVED, nodes) && IDALLOC_INVALID in RESERVED
  {
    assert multiset(RESERVED) + multiset{} == multiset(RESERVED);
  }

  /** Changing a node without changing its IDs. */
  lemma {:induction false} SameIds(nodes: seq<Node>, i: nat, n: Node)
    requires i < |nodes| && NodeIds(n) == NodeIds(nodes[i])
    ensures AllIds(nodes[i := n]) == AllIds(nodes)
  {
    AllUpdate(nodes, i, n);
    Cancel(AllIds(nodes[i := n]), AllIds(nodes), NodeIds(n));
  }

  lemma {:induction false} NewPath(n: Node, x: PathInfo)
    requires x.id == IDALLOC_INVALID
    ensures NodeIds(Node(n.paths + [x], n.pool)) == NodeIds(n)
  {
    HeldConcat(n.paths, [x]);
    assert [x][1..] == [] && HeldIds([x]) == multiset{};
    hide HeldIds;
    assert HeldIds(n.paths) + multiset{} == HeldIds(n.paths);
  }

  /** A node whose IDs are all in its pool. */
  lemma {:induction false} Without(nodes: seq<Node>, i: nat)
    requires i < |nodes| && nodes[i].paths == []
    ensures AllIds(nodes) == AllIds(nodes[..i] + nodes[i + 1..]) + multiset(nodes[i].pool)
  {
    AllSplit(nodes, i);
    AllConcat(nodes[..i], nodes[i + 1..]);
    assert NodeIds(nodes[i]) == multiset(nodes[i].pool);
    hide AllIds, NodeIds;
    Regroup(AllIds(nodes[..i]), multiset(nodes[i].pool), AllIds(nodes[i + 1..]));
  }

  method DrainNode(al0: set<nat>, nodes: seq<Node>, i: nat) returns (al: set<nat>)
    requires Accounted(al0, nodes) && i < |nodes| && nodes[i].paths == []
    ensures Accounted(al, nodes[..i] + nodes[i + 1..])
  {
    hide AllIds;
    Without(nodes, i);
    ghost var ids := AllIds(nodes[..i] + nodes[i + 1..]);
    Take(multiset(RESERVED), ids, multiset(nodes[i].pool));
    PutBack(multiset(RESERVED) + ids, multiset(nodes[i].pool));
    var pool: seq<nat>;
    al, pool := Drain(al0, nodes[i].pool);
  }

  /** One address family and strategy of a BGP instance. */
  class TxIds {
    const strat: Strategy
    var peercount: nat
    var allocator: Option<set<nat>>
    var nodes: seq<Node>

    ghost predicate Valid()
      reads this
    {
      && (allocator.Some? <==> peercount > 0)
      && (if allocator.Some? then Accounted(allocator.value, nodes) else AllIds(nodes) == multiset{})
    }

    constructor (strat: Strategy)
      ensures Valid() && peercount == 0 && nodes == [] && this.strat == strat
    {
      this.strat, peercount, allocator, nodes := strat, 0, None, [];
    }

    /** bgp_addpath_update_ids */
    method UpdateIds(i: nat)
      requires Valid() && i < |nodes|
      modifies this`allocator, this`nodes
      ensures Valid()
      ensures peercount == 0 ==> nodes == old(nodes)
      ensures peercount > 0 ==> |nodes| == |old(nodes)| && nodes == old(nodes)[i := nodes[i]] && Updated(strat, old(nodes[i]), nodes[i])
    {
      hide Accounted, Updated, AllIds, NodeIds, Rest;
      if peercount == 0 { return; }
      NodeHasNoInvalid(allocator.value, nodes, i);
      RestOf(allocator.value, nodes, i, nodes[i]);
      PutBack(Rest(nodes, i), NodeIds(nodes[i]));
      var al, n := UpdateNode(strat, allocator.value, nodes[i]);
      RestOf(al, nodes, i, n);
      allocator, nodes := Some(al), nodes[i := n];
    }

    /** bgp_addpath_type_changed, once the peers that use the strategy have been
        counted again. */
    method TypeChanged(count: nat)
      requires Valid()
      modifies this`peercount, this`allocator, this`nodes
      ensures Valid() && peercount == count && SameNodes(old(nodes), nodes)
      ensures old(peercount) == 0 && count > 0 ==> forall i :: 0 <= i < |nodes| ==> Assigned(strat, nodes[i].paths)
      ensures count == 0 ==> forall i :: 0 <= i < |nodes| ==> NoIds(nodes[i])
      ensures old(peercount) > 0 && count > 0 ==> nodes == old(nodes) && allocator == old(allocator)
    {
      hide Accounted, AllIds, NoIds, Assigned;
      NodesItself(nodes);
      var before := peercount;
      if before == 0 && count != 0 {
        PopulateType();
      } else if before != 0 && count == 0 {
        FlushType();
      }
      NoneAnywhere(nodes);
      peercount := count;
    }

    static lemma {:induction false} NodesItself(ns: seq<Node>)
      ensures SameNodes(ns, ns)
    {
    }

    /** bgp_addpath_populate_type */
    method PopulateType()
      requires allocator.None? && AllIds(nodes) == multiset{}
      modifies this`allocator, this`nodes
      ensures allocator.Some? && Accounted(allocator.value, nodes) && SameNodes(old(nodes), nodes)
      ensures forall i :: 0 <= i < |nodes| ==> Assigned(strat, nodes[i].paths)
    {
      hide Accounted, AllIds, NodeIds, NoIds, Assigned, Rest, SameNodes;
      NodesItself(nodes);
      var al := RESERVED;
      NoneAnywhere(nodes);
      NothingYet(nodes);
      var i := 0;
      while i < |nodes|
        invariant 0 <= i <= |nodes| == |old(nodes)| && Accounted(al, nodes) && IDALLOC_INVALID in al
        invariant forall k :: 0 <= k < i ==> Assigned(strat, nodes[k].paths)
        invariant forall k :: i <= k < |nodes| ==> NoIds(nodes[k])
        invariant SameNodes(old(nodes), nodes)
      {
        ghost var rest := Rest(nodes, i);
        RestOf(al, nodes, i, nodes[i]);
        NoIdsIs(nodes[i]);
        assert rest + multiset{} == rest;
        var n: Node;
        al, n := PopulateNode(strat, al, nodes[i]);
        SameNodesStep(old(nodes), nodes, i, n);
        RestOf(al, nodes, i, n);
        nodes := nodes[i := n];
        i := i + 1;
      }
      allocator := Some(al);
    }

    lemma {:induction false} NoIdsIs(n: Node)
      requires NoIds(n)
      ensures NodeIds(n) == multiset{}
    {
    }

    /** bgp_addpath_flush_type: all IDs go back, so only the reserved ones are
        left when the allocator is destroyed. */
    method FlushType()
      requires allocator.Some? && Accounted(allocator.value, nodes)
      modifies this`allocator, this`nodes
      ensures allocator.None? && AllIds(nodes) == multiset{} && SameNodes(old(nodes), nodes)
    {
      hide Accounted, AllIds, NodeIds, NoIds, Rest, SameNodes;
      NodesItself(nodes);
      var al, i := allocator.value, 0;
      while i < |nodes|
        invariant 0 <= i <= |nodes| == |old(nodes)| && Accounted(al, nodes)
        invariant forall k :: 0 <= k < i ==> NoIds(nodes[k])
        invariant SameNodes(old(nodes), nodes)
      {
        ghost var rest := Rest(nodes, i);
        RestOf(al, nodes, i, nodes[i]);
        PutBack(rest, NodeIds(nodes[i]));
        var n: Node;
        al, n := FlushNode(al, nodes[i]);
        SameNodesStep(old(nodes), nodes, i, n);
        NoIdsIs(n);
        assert rest + multiset{} == rest;
        RestOf(al, nodes, i, n);
        nodes := nodes[i := n];
        i := i + 1;
      }
      NoneAnywhere(nodes);
      allocator := None;
    }

    /** bgp_addpath_free_info_data: a path goes away, its ID stays in the pool. */
    method FreeInfo(i: nat, k: nat)
      requires Valid() && i < |nodes| && k < |nodes[i].paths|
      modifies this`nodes
      ensures Valid() && |nodes| == |old(nodes)| && nodes == old(nodes)[i := nodes[i]]
      ensures nodes[i].paths == old(nodes[i].paths[..k] + nodes[i].paths[k + 1..])
      ensures nodes[i].pool == (if old(nodes[i].paths[k].id) == IDALLOC_INVALID then [] else [old(nodes[i].paths[k].id)]) + old(nodes[i].pool)
      ensures NodeIds(nodes[i]) == old(NodeIds(nodes[i]))
    {
      hide NodeIds, AllIds;
      var n := nodes[i];
      var id := n.paths[k].id;
      var pool := (if id == IDALLOC_INVALID then [] else [id]) + n.pool;
      PathToPool(n, k, pool);
      var m := Node(n.paths[..k] + n.paths[k + 1..], pool);
      SameIds(nodes, i, m);
      nodes := nodes[i := m];
    }

    lemma {:induction false} PathToPool(n: Node, k: nat, pool: seq<nat>)
      requires k < |n.paths| && pool == (if n.paths[k].id == IDALLOC_INVALID then [] else [n.paths[k].id]) + n.pool
      ensures NodeIds(Node(n.paths[..k] + n.paths[k + 1..], pool)) == NodeIds(n)
    {
      hide HeldIds;
      var id := n.paths[k].id;
      HeldSplit(n.paths, k);
      HeldConcat(n.paths[..k], n.paths[k + 1..]);
      PoolPush(id, n.pool);
      assert [] + n.pool == n.pool;
    }

    /** bgp_addpath_free_node_data: a node without paths goes away; its pool is
        drained into the allocator. */
    method FreeNode(i: nat)
      requires Valid() && i < |nodes| && nodes[i].paths == []
      modifies this`allocator, this`nodes
      ensures Valid() && nodes == old(nodes[..i] + nodes[i + 1..])
    {
      hide AllIds, Accounted;
      if allocator.Some? {
        var al := DrainNode(allocator.value, nodes, i);
        allocator := Some(al);
      } else {
        Without(nodes, i);
        Empty(AllIds(nodes[..i] + nodes[i + 1..]), multiset(nodes[i].pool));
      }
      nodes := nodes[..i] + nodes[i + 1..];
    }

    /** A new prefix, a new path, and what bestpath selection decides. */
    method AddNode()
      requires Valid()
      modifies this`nodes
      ensures Valid() && nodes == old(nodes) + [Node([], [])]
    {
      AllConcat(nodes, [Node([], [])]);
      assert [Node([], [])][1..] == [];
      nodes := nodes + [Node([], [])];
    }

    method AddPathInfo(i: nat)
      requires Valid() && i < |nodes|
      modifies this`nodes
      ensures Valid() && nodes == old(nodes)[i := Node(old(nodes[i].paths) + [PathInfo(false, IDALLOC_INVALID)], old(nodes[i].pool))]
    {
      hide AllIds, NodeIds;
      var n := nodes[i];
      var x := PathInfo(false, IDALLOC_INVALID);
      var m := Node(n.paths + [x], n.pool);
      NewPath(n, x);
      SameIds(nodes, i, m);
      nodes := nodes[i := m];
    }

    method SetDmedSelected(i: nat, k: nat, selected: bool)
      requires Valid() && i < |nodes| && k < |nodes[i].paths|
      modifies this`nodes
      ensures Valid()
      ensures nodes == old(nodes)[i := Node(old(nodes[i].paths)[k := PathInfo(selected, old(nodes[i].paths[k].id))], old(nodes[i].pool))]
    {
      hide AllIds, NodeIds;
      var n := nodes[i];
      var m := Node(n.paths[k := PathInfo(selected, n.paths[k].id)], n.pool);
      SelectedIds(n, k, selected);
      SameIds(nodes, i, m);
      nodes := nodes[i := m];
    }

    static lemma {:induction false} SelectedIds(n: Node, k: nat, selected: bool)
      requires k < |n.paths|
      ensures NodeIds(Node(n.paths[k := PathInfo(selected, n.paths[k].id)], n.pool)) == NodeIds(n)
    {
      hide HeldIds, OneId;
      var pi := PathInfo(selected, n.paths[k].id);
      HeldUpdate(n.paths, k, pi);
      Cancel(HeldIds(n.paths[k := pi]), HeldIds(n.paths), OneId(pi.id));
    }
  }
}
