/** The mutable per-node state of the hierarchy view and the traversals of
    js/model.js that read or write it: the host caches, absolute positions,
    the id index, the visible-node list and label truncation.

    Every field that the source writes on a node object (`expanded`, `r`,
    `x`, `y`, `absX`, `absY`, `hostSet`, `hostList`) is a map from node
    address to value in the Hierarchy object; the tree's shape is `root`. */
module Model {
  import opened Topology
  import opened NodeTree

  class Hierarchy {
    const root: Node
    ghost const addrs: set<Addr>
    var expanded: map<Addr, bool>
    var r: map<Addr, real>
    var x: map<Addr, real>
    var y: map<Addr, real>
    var absX: map<Addr, real>
    var absY: map<Addr, real>
    var hostSet: map<Addr, set<string>>
    var hostList: map<Addr, seq<Addr>>

    /** `addrs` is the set of node addresses of `root`. */
    ghost predicate Shaped() {
      forall q {:trigger q in addrs} :: q in addrs <==> IsAddr(root, q)
    }

    /** Every node of the tree has every field. */
    ghost predicate Valid()
      reads this
    {
      && Shaped()
      && ExpandedOk() && RadiusOk() && OffsetsOk() && AbsOk() && HostsOk()
    }

    ghost predicate ExpandedOk() reads this`expanded { expanded.Keys == addrs }
    ghost predicate RadiusOk() reads this`r { r.Keys == addrs }
    ghost predicate OffsetsOk() reads this`x, this`y { x.Keys == addrs && y.Keys == addrs }
    ghost predicate AbsOk() reads this`absX, this`absY { absX.Keys == addrs && absY.Keys == addrs }
    ghost predicate HostsOk() reads this`hostSet, this`hostList { hostSet.Keys == addrs && hostList.Keys == addrs }

    /** `toNode(t)`: every node starts collapsed, with radius `rr`, all four
        coordinates 0 and no host cache yet (the source's null, read as empty
        by every consumer). */
    constructor (t: Topo, rr: real)
      ensures Valid() && root == ToNode(t)
      ensures forall q :: q in expanded ==> !expanded[q]
      ensures forall q :: q in r ==> r[q] == rr
      ensures forall q :: q in x ==> x[q] == 0.0 && y[q] == 0.0 && absX[q] == 0.0 && absY[q] == 0.0
      ensures forall q :: q in hostSet ==> hostSet[q] == {} && hostList[q] == []
    {
      ToNodeRoot(t);
      var n := ToNode(t);
      var all := AddrSet(n);
      root := n;
      addrs := all;
      expanded := map q | q in all :: false;
      r := map q | q in all :: rr;
      x := map q | q in all :: 0.0;
      y := map q | q in all :: 0.0;
      absX := map q | q in all :: 0.0;
      absY := map q | q in all :: 0.0;
      hostSet := map q | q in all :: {};
      hostList := map q | q in all :: [];
    }
  }

  /** The node at `a` is expanded. */
  ghost predicate Expanded(e: map<Addr, bool>, a: Addr) {
    a in e && e[a]
  }

  /** `q` is at or below `a`, and every node from `a` down to the parent of
      `q` is expanded: a traversal that starts at `a` and descends only into
      expanded nodes reaches `q`. */
  ghost predicate OpenBelow(e: map<Addr, bool>, a: Addr, q: Addr) {
    a <= q && forall j :: |a| <= j < |q| ==> Expanded(e, q[..j])
  }

  /** One step of OpenBelow: below the k-th child of `a`, a path is open from
      `a` exactly when `a` is expanded and the path is open from the child. */
  lemma OpenBelowStep(e: map<Addr, bool>, a: Addr, k: nat, q: Addr)
    requires a + [k] <= q
    ensures OpenBelow(e, a, q) <==> Expanded(e, a) && OpenBelow(e, a + [k], q)
  {
    assert q[..|a|] == a;
    if Expanded(e, a) && OpenBelow(e, a + [k], q) {
      forall j | |a| <= j < |q| ensures Expanded(e, q[..j]) {
        if j == |a| { assert q[..j] == a; }
      }
    }
  }

  /** A node strictly below `a` hangs off one of the children of `a`. */
  lemma ChildIndexInRange(root: Node, a: Addr, q: Addr)
    requires IsAddr(root, q) && a < q
    ensures IsAddr(root, a) && q[|a|] < |NodeAt(root, a).children|
    ensures a + [q[|a|]] <= q
  {
    assert a + [q[|a|]] <= q;
    PrefixIsAddr(root, a + [q[|a|]], q);
    AtChild(root, a, q[|a|]);
  }

  // ---------------------------------------------------------------------
  // buildHostCaches

  predicate IsHostAt(root: Node, a: Addr) {
    At(root, a).Some? && At(root, a).value.kind == Host
  }

  /** The nodes whose caches `buildHostCaches(a)` writes: `a` and, below it,
      every node reached without passing through a host (a host returns
      before looking at its children). */
  ghost predicate CacheScope(root: Node, a: Addr, q: Addr)
    decreases |q|
  {
    IsAddr(root, q) &&
    (q == a || (|q| > |a| && !IsHostAt(root, q[..|q| - 1]) && CacheScope(root, a, q[..|q| - 1])))
  }

  /** The scope of `a` lies below `a`. */
  lemma {:induction false} CacheScopeBelow(root: Node, a: Addr, q: Addr)
    requires CacheScope(root, a, q)
    ensures a <= q
    decreases |q|
  {
    if q != a {
      CacheScopeBelow(root, a, q[..|q| - 1]);
    }
  }

  lemma {:induction false} CacheScopeStep(root: Node, a: Addr, k: nat, q: Addr)
    requires a + [k] <= q
    ensures CacheScope(root, a, q) <==> !IsHostAt(root, a) && CacheScope(root, a + [k], q)
    decreases |q|
  {
    var p := q[..|q| - 1];
    if q == a + [k] {
      assert p == a;
      if IsAddr(root, q) {
        PrefixIsAddr(root, a, q);
      }
    } else {
      assert a + [k] <= p;
      CacheScopeStep(root, a, k, p);
    }
  }

  /** Below a host nothing is in scope: only the host itself is. */
  lemma {:induction false} HostScopeIsSelf(root: Node, a: Addr, q: Addr)
    requires IsHostAt(root, a) && CacheScope(root, a, q)
    ensures q == a
    decreases |q|
  {
    if q != a {
      var p := q[..|q| - 1];
      HostScopeIsSelf(root, a, p);
    }
  }

  /** What a node caches: its subtree's host ids ... */
  function HostSetOf(n: Node, a: Addr): set<string> {
    HostSet(n)
  }

  /** ... and its subtree's hosts in child order. */
  function HostListOf(n: Node, a: Addr): seq<Addr> {
    HostList(n, a)
  }

  /** A cache map as `buildHostCaches` leaves it, as a function of the map it
      found (`n` is the node at `a`, `f` what a node caches): a host stores
      its own value, any other node first has its children done in order,
      then stores its own value. */
  ghost function Cached<T>(n: Node, a: Addr, m: map<Addr, T>, f: (Node, Addr) -> T): map<Addr, T>
    decreases n, 1, 0
  {
    if n.kind == Host then m[a := f(n, a)]
    else CachedKids(n, a, |n.children|, m, f)[a := f(n, a)]
  }

  ghost function CachedKids<T>(n: Node, a: Addr, k: nat, m: map<Addr, T>, f: (Node, Addr) -> T): map<Addr, T>
    requires k <= |n.children|
    decreases n, 0, k
  {
    if k == 0 then m else Cached(n.children[k - 1], a + [k - 1], CachedKids(n, a, k - 1, m, f), f)
  }

  /** What a cache map holds after `buildHostCaches(a)`: every node of the
      scope of `a` has its own value, every other node keeps what it had. */
  ghost predicate CachesFrom<T>(root: Node, a: Addr, orig: map<Addr, T>, cur: map<Addr, T>, f: (Node, Addr) -> T) {
    && (forall q :: q in cur <==> q in orig || CacheScope(root, a, q))
    && forall q :: q in cur ==>
         cur[q] == if CacheScope(root, a, q) then f(NodeAt(root, q), q) else orig[q]
  }

  /** Whether the walk from the non-host `a` has reached `q` after its first
      `k` children. */
  ghost predicate ScopeUpTo(root: Node, a: Addr, k: nat, q: Addr) {
    a < q && q[|a|] < k && CacheScope(root, a, q)
  }

  /** The scope of the k-th child is the part of the scope of `a` that hangs
      off that child. */
  lemma ScopeOfChild(root: Node, a: Addr, k: nat, q: Addr)
    requires !IsHostAt(root, a)
    ensures ScopeUpTo(root, a, k + 1, q) <==> ScopeUpTo(root, a, k, q) || CacheScope(root, a + [k], q)
  {
    if a < q && q[|a|] == k {
      assert a + [k] <= q;
      CacheScopeStep(root, a, k, q);
    } else if CacheScope(root, a + [k], q) {
      CacheScopeBelow(root, a + [k], q);
    }
  }

  /** `Cached` at one address: in scope, the node's own value; otherwise what
      was there. */
  lemma {:induction false} CachedAt<T>(root: Node, n: Node, a: Addr, m: map<Addr, T>, f: (Node, Addr) -> T, q: Addr)
    requires At(root, a) == Some(n)
    ensures var c := Cached(n, a, m, f);
      && (q in c <==> q in m || CacheScope(root, a, q))
      && (q in c ==> c[q] == if CacheScope(root, a, q) then f(NodeAt(root, q), q) else m[q])
    decreases n, 1, 0
  {
    if n.kind == Host {
      if CacheScope(root, a, q) {
        HostScopeIsSelf(root, a, q);
      }
    } else if q != a {
      CachedKidsAt(root, n, a, |n.children|, m, f, q);
      if CacheScope(root, a, q) {
        CacheScopeBelow(root, a, q);
        ChildIndexInRange(root, a, q);
      }
    }
  }

  lemma {:induction false} CachedKidsAt<T>(root: Node, n: Node, a: Addr, k: nat, m: map<Addr, T>,
                                           f: (Node, Addr) -> T, q: Addr)
    requires At(root, a) == Some(n) && n.kind != Host && k <= |n.children|
    ensures var c := CachedKids(n, a, k, m, f);
      && (q in c <==> q in m || ScopeUpTo(root, a, k, q))
      && (q in c ==> c[q] == if ScopeUpTo(root, a, k, q) then f(NodeAt(root, q), q) else m[q])
    decreases n, 0, k
  {
    if k > 0 {
      CachedKidsAt(root, n, a, k - 1, m, f, q);
      AtChild(root, a, k - 1);
      CachedAt(root, n.children[k - 1], a + [k - 1], CachedKids(n, a, k - 1, m, f), f, q);
      ScopeOfChild(root, a, k - 1, q);
    }
  }

  /** `Cached` fills exactly the scope of `a`. */
  lemma CachedMeaning<T>(root: Node, a: Addr, m: map<Addr, T>, f: (Node, Addr) -> T)
    requires IsAddr(root, a)
    ensures CachesFrom(root, a, m, Cached(NodeAt(root, a), a, m, f), f)
  {
    forall q ensures var c := Cached(NodeAt(root, a), a, m, f);
      && (q in c <==> q in m || CacheScope(root, a, q))
      && (q in c ==> c[q] == if CacheScope(root, a, q) then f(NodeAt(root, q), q) else m[q])
    {
      CachedAt(root, NodeAt(root, a), a, m, f, q);
    }
  }

  /** On a map that covers every node, `Cached` keeps covering exactly the
      nodes. */
  lemma CachedKeepsNodes<T>(root: Node, a: Addr, addrs: set<Addr>, m: map<Addr, T>, f: (Node, Addr) -> T)
    requires IsAddr(root, a)
    requires forall q {:trigger q in addrs} :: q in addrs <==> IsAddr(root, q)
    requires m.Keys == addrs
    ensures Cached(NodeAt(root, a), a, m, f).Keys == addrs
  {
    CachedMeaning(root, a, m, f);
    forall q | CacheScope(root, a, q) ensures q in addrs {
    }
  }

  /** `buildHostCaches(node)`: a host caches itself only; any other node
      caches the union of its children's host sets and the concatenation of
      their host lists, in child order. Returns the node's host set. */
  method BuildHostCaches(h: Hierarchy, a: Addr) returns (s: set<string>)
    requires IsAddr(h.root, a)
    modifies h`hostSet, h`hostList
    ensures s == HostSet(NodeAt(h.root, a))
    ensures h.hostSet == Cached(NodeAt(h.root, a), a, old(h.hostSet), HostSetOf)
    ensures h.hostList == Cached(NodeAt(h.root, a), a, old(h.hostList), HostListOf)
    decreases NodeAt(h.root, a)
  {
    var n := NodeAt(h.root, a);
    if n.kind == Host {
      h.hostList := h.hostList[a := [a]];
      h.hostSet := h.hostSet[a := {n.id}];
      return {n.id};
    }
    var set_: set<string> := {};
    var list: seq<Addr> := [];
    var k: nat := 0;
    while k < |n.children|
      invariant k <= |n.children|
      invariant set_ == HostSetKids(n, k) && list == HostListKids(n, a, k)
      invariant h.hostSet == CachedKids(n, a, k, old(h.hostSet), HostSetOf)
      invariant h.hostList == CachedKids(n, a, k, old(h.hostList), HostListOf)
    {
      AtChild(h.root, a, k);
      var childSet := BuildHostCaches(h, a + [k]);
      set_ := set_ + childSet;
      list := list + h.hostList[a + [k]];
      k := k + 1;
    }
    h.hostSet := h.hostSet[a := set_];
    h.hostList := h.hostList[a := list];
    s := set_;
  }

  /** `buildHostCaches(root)` on a valid hierarchy: the hierarchy stays valid,
      and every node not below a host caches its subtree's host ids and its
      subtree's hosts in order; the caches below hosts are left alone. */
  method BuildAllHostCaches(h: Hierarchy)
    requires h.Valid()
    modifies h`hostSet, h`hostList
    ensures h.Valid()
    ensures CachesFrom(h.root, [], old(h.hostSet), h.hostSet, HostSetOf)
    ensures CachesFrom(h.root, [], old(h.hostList), h.hostList, HostListOf)
  {
    assert IsAddr(h.root, []);
    CachedKeepsNodes(h.root, [], h.addrs, h.hostSet, HostSetOf);
    CachedKeepsNodes(h.root, [], h.addrs, h.hostList, HostListOf);
    CachedMeaning(h.root, [], h.hostSet, HostSetOf);
    CachedMeaning(h.root, [], h.hostList, HostListOf);
    var _ := BuildHostCaches(h, []);
  }

  // ---------------------------------------------------------------------
  // computeAbsolutePositions

  function ValueAt(m: map<Addr, real>, q: Addr): real {
    if q in m then m[q] else 0.0
  }

  /** `base` plus the local offsets of every node on the path from `a` down
      to `q`, both ends included. */
  function Acc(m: map<Addr, real>, a: Addr, base: real, q: Addr): real
    decreases |q|
  {
    if |q| <= |a| then base + ValueAt(m, q) else Acc(m, a, base, q[..|q| - 1]) + ValueAt(m, q)
  }

  /** Starting one level lower with the parent's accumulated value gives the
      same sums. */
  lemma {:induction false} AccShift(m: map<Addr, real>, a: Addr, k: nat, base: real, q: Addr)
    requires a + [k] <= q
    ensures Acc(m, a + [k], base + ValueAt(m, a), q) == Acc(m, a, base, q)
    decreases |q|
  {
    if |q| == |a| + 1 {
      assert q[..|q| - 1] == a;
    } else {
      assert a + [k] <= q[..|q| - 1];
      AccShift(m, a, k, base, q[..|q| - 1]);
    }
  }

  /** The absolute positions after the walk from `a` has finished the first
      `k` children: `a` itself holds `base` plus its offset, the walked part
      of each expanded path holds the accumulated offsets, the rest is `orig`. */
  ghost predicate PositionsUpTo(e: map<Addr, bool>, m: map<Addr, real>, a: Addr, base: real, k: nat,
                                orig: map<Addr, real>, cur: map<Addr, real>)
  {
    && cur.Keys == orig.Keys && a in cur && cur[a] == base + ValueAt(m, a)
    && forall q :: q in cur && q != a ==>
         cur[q] == if a < q && q[|a|] < k && OpenBelow(e, a, q) then Acc(m, a, base, q) else orig[q]
  }

  /** The walk of the k-th child, started from the parent's absolute
      position, extends the walked part by that child's subtree. */
  lemma PositionsStep(e: map<Addr, bool>, m: map<Addr, real>, a: Addr, base: real, k: nat,
                      orig: map<Addr, real>, before: map<Addr, real>, after: map<Addr, real>)
    requires Expanded(e, a) && PositionsUpTo(e, m, a, base, k, orig, before)
    requires after.Keys == before.Keys
    requires forall q :: q in after ==>
      after[q] == if OpenBelow(e, a + [k], q) then Acc(m, a + [k], before[a], q) else before[q]
    ensures PositionsUpTo(e, m, a, base, k + 1, orig, after)
  {
    forall q | q in after && q != a
      ensures after[q] == if a < q && q[|a|] < k + 1 && OpenBelow(e, a, q) then Acc(m, a, base, q) else orig[q]
    {
      if a < q && q[|a|] == k {
        assert a + [k] <= q;
        OpenBelowStep(e, a, k, q);
        AccShift(m, a, k, base, q);
      }
    }
  }

  /** Once every child is walked (or none is to be walked), the positions
      below `a` are exactly the accumulated offsets along expanded paths. */
  lemma PositionsDone(root: Node, e: map<Addr, bool>, m: map<Addr, real>, a: Addr, base: real, k: nat,
                      orig: map<Addr, real>, cur: map<Addr, real>)
    requires IsAddr(root, a) && PositionsUpTo(e, m, a, base, k, orig, cur)
    requires forall q :: q in cur ==> IsAddr(root, q)
    requires k == |NodeAt(root, a).children| || !Expanded(e, a)
    ensures forall q :: q in cur ==>
      cur[q] == if OpenBelow(e, a, q) then Acc(m, a, base, q) else orig[q]
  {
    forall q | q in cur
      ensures cur[q] == if OpenBelow(e, a, q) then Acc(m, a, base, q) else orig[q]
    {
      if q == a {
        assert OpenBelow(e, a, q);
      } else if a < q {
        ChildIndexInRange(root, a, q);
        assert q[..|a|] == a;
        assert OpenBelow(e, a, q) ==> q[|a|] < k;
      }
    }
  }

  /** `computeAbsolutePositions(node, px, py)`: the node's absolute position is
      the parent's plus its local offset, recursively for the children of
      expanded nodes only; every other node keeps its absolute position. */
  method ComputeAbsolutePositions(h: Hierarchy, a: Addr, px: real, py: real)
    requires h.Shaped() && h.ExpandedOk() && h.OffsetsOk() && h.AbsOk() && IsAddr(h.root, a)
    modifies h`absX, h`absY
    ensures h.AbsOk()
    ensures forall q :: q in h.absX ==>
      h.absX[q] == if OpenBelow(h.expanded, a, q) then Acc(h.x, a, px, q) else old(h.absX[q])
    ensures forall q :: q in h.absY ==>
      h.absY[q] == if OpenBelow(h.expanded, a, q) then Acc(h.y, a, py, q) else old(h.absY[q])
    decreases NodeAt(h.root, a)
  {
    var n := NodeAt(h.root, a);
    assert a in h.addrs;
    h.absX := h.absX[a := px + h.x[a]];
    h.absY := h.absY[a := py + h.y[a]];
    var k: nat := 0;
    if h.expanded[a] {
      while k < |n.children|
        invariant k <= |n.children|
        invariant h.AbsOk()
        invariant PositionsUpTo(h.expanded, h.x, a, px, k, old(h.absX), h.absX)
        invariant PositionsUpTo(h.expanded, h.y, a, py, k, old(h.absY), h.absY)
      {
        AtChild(h.root, a, k);
        ghost var beforeX, beforeY := h.absX, h.absY;
        ComputeAbsolutePositions(h, a + [k], h.absX[a], h.absY[a]);
        PositionsStep(h.expanded, h.x, a, px, k, old(h.absX), beforeX, h.absX);
        PositionsStep(h.expanded, h.y, a, py, k, old(h.absY), beforeY, h.absY);
        k := k + 1;
      }
    }
    forall q | q in h.absX ensures IsAddr(h.root, q) {
      assert q in h.addrs;
    }
    PositionsDone(h.root, h.expanded, h.x, a, px, k, old(h.absX), h.absX);
    PositionsDone(h.root, h.expanded, h.y, a, py, k, old(h.absY), h.absY);
  }

  // ---------------------------------------------------------------------
  // indexAllNodes

  /** The map after `map.set(id, node)` for each listed node in turn: a later
      node with the same id replaces an earlier one. */
  function Indexed(root: Node, m: map<string, Addr>, l: seq<Addr>): map<string, Addr>
    decreases |l|
  {
    if l == [] then m
    else Indexed(root, if IsAddr(root, l[0]) then m[NodeAt(root, l[0]).id := l[0]] else m, l[1..])
  }

  lemma {:induction false} IndexedAppend(root: Node, m: map<string, Addr>, l1: seq<Addr>, l2: seq<Addr>)
    ensures Indexed(root, m, l1 + l2) == Indexed(root, Indexed(root, m, l1), l2)
    decreases |l1|
  {
    if l1 != [] {
      assert (l1 + l2)[0] == l1[0] && (l1 + l2)[1..] == l1[1..] + l2;
      IndexedAppend(root, if IsAddr(root, l1[0]) then m[NodeAt(root, l1[0]).id := l1[0]] else m, l1[1..], l2);
    } else {
      assert l1 + l2 == l2;
    }
  }

  /** `indexAllNodes(node, map)`: records every node of the subtree, visible
      or not, under its id, in pre-order. */
  method IndexAllNodes(h: Hierarchy, a: Addr, m: map<string, Addr>) returns (m': map<string, Addr>)
    requires IsAddr(h.root, a)
    ensures m' == Indexed(h.root, m, PreOrder(NodeAt(h.root, a), a))
    decreases NodeAt(h.root, a)
  {
    var n := NodeAt(h.root, a);
    m' := m[n.id := a];
    assert m' == Indexed(h.root, m, [a]);
    for k := 0 to |n.children|
      invariant m' == Indexed(h.root, m, [a] + PreOrderKids(n, a, k))
    {
      AtChild(h.root, a, k);
      m' := IndexAllNodes(h, a + [k], m');
      IndexedAppend(h.root, m, [a] + PreOrderKids(n, a, k), PreOrder(n.children[k], a + [k]));
      assert [a] + PreOrderKids(n, a, k + 1) == [a] + PreOrderKids(n, a, k) + PreOrder(n.children[k], a + [k]);
    }
  }

  /** What the index holds for one id: a key exactly when it was a key
      before or some listed node carries it; if so, a listed node carrying
      it, and otherwise the entry it had. */
  lemma {:induction false} IndexedKeyAt(root: Node, m: map<string, Addr>, l: seq<Addr>, id: string)
    requires forall q :: q in l ==> IsAddr(root, q)
    ensures var m' := Indexed(root, m, l);
      && (id in m' <==> id in m || id in IdsOf(root, l))
      && (id in IdsOf(root, l) ==> m'[id] in l && NodeAt(root, m'[id]).id == id)
      && (id in m && id !in IdsOf(root, l) ==> m'[id] == m[id])
    decreases |l|
  {
    if l != [] {
      var m1 := m[NodeAt(root, l[0]).id := l[0]];
      IndexedKeyAt(root, m1, l[1..], id);
      assert forall q :: q in l <==> q == l[0] || q in l[1..];
      assert id in IdsOf(root, l) <==> id == NodeAt(root, l[0]).id || id in IdsOf(root, l[1..]);
    }
  }

  /** The last listed node with a given id is the one the index keeps. */
  lemma {:induction false} IndexedLastAt(root: Node, m: map<string, Addr>, l: seq<Addr>, i: nat)
    requires forall q :: q in l ==> IsAddr(root, q)
    requires i < |l| && forall j :: i < j < |l| ==> NodeAt(root, l[j]).id != NodeAt(root, l[i]).id
    ensures NodeAt(root, l[i]).id in Indexed(root, m, l) && Indexed(root, m, l)[NodeAt(root, l[i]).id] == l[i]
    decreases |l|
  {
    var m1 := m[NodeAt(root, l[0]).id := l[0]];
    assert forall q :: q in l[1..] ==> q in l;
    IndexedKeyAt(root, m, l, NodeAt(root, l[i]).id);
    if i > 0 {
      assert l[1..][i - 1] == l[i];
      forall j | i - 1 < j < |l| - 1 ensures NodeAt(root, l[1..][j]).id != NodeAt(root, l[1..][i - 1]).id {
        assert l[1..][j] == l[j + 1];
      }
      IndexedLastAt(root, m1, l[1..], i - 1);
    } else {
      var id := NodeAt(root, l[0]).id;
      assert id !in IdsOf(root, l[1..]) by {
        forall q | q in l[1..] ensures NodeAt(root, q).id != id {
          var j :| 0 <= j < |l[1..]| && l[1..][j] == q;
          assert l[j + 1] == q;
        }
      }
      IndexedKeyAt(root, m1, l[1..], id);
    }
  }

  /** What the index holds: the given keys plus the id of every listed node;
      each new key leads to a listed node carrying that id, and it is the
      last listed node with that id. */
  lemma IndexedFacts(root: Node, m: map<string, Addr>, l: seq<Addr>)
    requires forall q :: q in l ==> IsAddr(root, q)
    ensures var m' := Indexed(root, m, l);
      && m'.Keys == m.Keys + IdsOf(root, l)
      && (forall id :: id in m' && id !in IdsOf(root, l) ==> m'[id] == m[id])
      && (forall id :: id in IdsOf(root, l) ==> m'[id] in l && NodeAt(root, m'[id]).id == id)
      && (forall i :: 0 <= i < |l| && (forall j :: i < j < |l| ==> NodeAt(root, l[j]).id != NodeAt(root, l[i]).id)
            ==> m'[NodeAt(root, l[i]).id] == l[i])
  {
    var m' := Indexed(root, m, l);
    forall id
      ensures (id in m' <==> id in m || id in IdsOf(root, l))
      ensures id in IdsOf(root, l) ==> m'[id] in l && NodeAt(root, m'[id]).id == id
      ensures id in m && id !in IdsOf(root, l) ==> m'[id] == m[id]
    {
      IndexedKeyAt(root, m, l, id);
    }
    forall i | 0 <= i < |l| && (forall j :: i < j < |l| ==> NodeAt(root, l[j]).id != NodeAt(root, l[i]).id)
      ensures m'[NodeAt(root, l[i]).id] == l[i]
    {
      IndexedLastAt(root, m, l, i);
    }
  }

  /** The index of the whole tree: every node's id is a key, and every key
      leads to a node that carries it. */
  lemma IndexCoversTree(root: Node)
    ensures var m := Indexed(root, map[], PreOrder(root, []));
      && (forall q :: IsAddr(root, q) ==> NodeAt(root, q).id in m)
      && (forall id :: id in m ==> IsAddr(root, m[id]) && NodeAt(root, m[id]).id == id)
  {
    AllNodes(root);
    IndexedFacts(root, map[], PreOrder(root, []));
    forall q | IsAddr(root, q) ensures NodeAt(root, q).id in IdsOf(root, PreOrder(root, [])) {
    }
  }

  // ---------------------------------------------------------------------
  // isVisible / collectVisible

  /** One entry of the visible list: the node and its parent's id (none for
      the node the walk started from without a parent). */
  datatype Entry = Entry(addr: Addr, parentId: Option<string>)

  /** `isVisible(node, ancestorsExpanded)`: whether all ancestors are expanded. */
  function IsVisible(n: Node, ancestorsExpanded: bool): bool {
    ancestorsExpanded
  }

  /** The entries `collectVisible` appends for the subtree at `a`. */
  ghost function VisibleFrom(e: map<Addr, bool>, n: Node, a: Addr, ancestorsExpanded: bool,
                             parentId: Option<string>): seq<Entry>
    decreases n, 1, 0
  {
    if !IsVisible(n, ancestorsExpanded) then []
    else
      var kids := if |n.children| > 0 && Expanded(e, a) then VisibleKids(e, n, a, |n.children|) else [];
      [Entry(a, parentId)] + kids
  }

  ghost function VisibleKids(e: map<Addr, bool>, n: Node, a: Addr, k: nat): seq<Entry>
    requires k <= |n.children|
    decreases n, 0, k
  {
    if k == 0 then []
    else VisibleKids(e, n, a, k - 1) + VisibleFrom(e, n.children[k - 1], a + [k - 1], true, Some(n.id))
  }

  /** `collectVisible(node, ancestorsExpanded, out, parentId)`: pushes the
      subtree's visible entries onto `out` in pre-order. */
  method CollectVisible(h: Hierarchy, a: Addr, ancestorsExpanded: bool, out: seq<Entry>,
                        parentId: Option<string>) returns (out': seq<Entry>)
    requires h.Shaped() && h.ExpandedOk() && IsAddr(h.root, a)
    ensures out' == out + VisibleFrom(h.expanded, NodeAt(h.root, a), a, ancestorsExpanded, parentId)
    decreases NodeAt(h.root, a)
  {
    var n := NodeAt(h.root, a);
    if !IsVisible(n, ancestorsExpanded) {
      return out;
    }
    out' := out + [Entry(a, parentId)];
    assert a in h.addrs;
    var canShowKids := ancestorsExpanded && h.expanded[a];
    if |n.children| > 0 && canShowKids {
      for k := 0 to |n.children|
        invariant out' == out + [Entry(a, parentId)] + VisibleKids(h.expanded, n, a, k)
      {
        AtChild(h.root, a, k);
        out' := CollectVisible(h, a + [k], true, out', Some(n.id));
        assert VisibleKids(h.expanded, n, a, k + 1)
            == VisibleKids(h.expanded, n, a, k) + VisibleFrom(h.expanded, n.children[k], a + [k], true, Some(n.id));
      }
    }
  }

  /** The id of the parent of the node at `q` (none for the root). */
  ghost function ParentIdOf(root: Node, q: Addr): Option<string>
    requires IsAddr(root, q)
  {
    if q == [] then None
    else PrefixIsAddr(root, Parent(q), q); Some(NodeAt(root, Parent(q)).id)
  }

  function EntryAddrs(l: seq<Entry>): seq<Addr> {
    seq(|l|, i requires 0 <= i < |l| => l[i].addr)
  }

  /** Every entry of the visible list of `a` is a node below `a` reached through
      expanded nodes only, and carries its parent's id. */
  lemma {:induction false} VisibleSound(root: Node, e: map<Addr, bool>, n: Node, a: Addr, pid: Option<string>)
    requires At(root, a) == Some(n) && pid == ParentIdOf(root, a)
    ensures forall en :: en in VisibleFrom(e, n, a, true, pid) ==>
      IsAddr(root, en.addr) && OpenBelow(e, a, en.addr) && en.parentId == ParentIdOf(root, en.addr)
    decreases n, 1, 0
  {
    if |n.children| > 0 && Expanded(e, a) {
      VisibleKidsSound(root, e, n, a, |n.children|);
    }
  }

  lemma {:induction false} VisibleKidsSound(root: Node, e: map<Addr, bool>, n: Node, a: Addr, k: nat)
    requires At(root, a) == Some(n) && k <= |n.children| && Expanded(e, a)
    ensures forall en :: en in VisibleKids(e, n, a, k) ==>
      IsAddr(root, en.addr) && OpenBelow(e, a, en.addr) && en.parentId == ParentIdOf(root, en.addr)
    decreases n, 0, k
  {
    if k > 0 {
      VisibleKidsSound(root, e, n, a, k - 1);
      var c := a + [k - 1];
      AtChild(root, a, k - 1);
      assert Parent(c) == a;
      VisibleSound(root, e, n.children[k - 1], c, Some(n.id));
      forall en | en in VisibleFrom(e, n.children[k - 1], c, true, Some(n.id))
        ensures OpenBelow(e, a, en.addr)
      {
        OpenBelowStep(e, a, k - 1, en.addr);
      }
    }
  }

  lemma {:induction false} VisibleKidsHas(e: map<Addr, bool>, n: Node, a: Addr, k: nat, j: nat, en: Entry)
    requires k < j <= |n.children| && en in VisibleFrom(e, n.children[k], a + [k], true, Some(n.id))
    ensures en in VisibleKids(e, n, a, j)
    decreases j
  {
    if k < j - 1 {
      VisibleKidsHas(e, n, a, k, j - 1, en);
    }
  }

  /** Every node below `a` reached through expanded nodes only has its entry
      in the visible list of `a`. */
  lemma {:induction false} VisibleComplete(root: Node, e: map<Addr, bool>, a: Addr, q: Addr)
    requires IsAddr(root, q) && OpenBelow(e, a, q)
    ensures IsAddr(root, a)
    ensures Entry(q, ParentIdOf(root, q)) in VisibleFrom(e, NodeAt(root, a), a, true, ParentIdOf(root, a))
    decreases |q| - |a|
  {
    PrefixIsAddr(root, a, q);
    if q != a {
      var n := NodeAt(root, a);
      ChildIndexInRange(root, a, q);
      var k := q[|a|];
      var c := a + [k];
      AtChild(root, a, k);
      OpenBelowStep(e, a, k, q);
      VisibleComplete(root, e, c, q);
      assert Parent(c) == a;
      VisibleKidsHas(e, n, a, k, |n.children|, Entry(q, ParentIdOf(root, q)));
    }
  }

  /** The visible entries of a subtree come in the subtree's pre-order. */
  lemma {:induction false} VisibleInPreOrder(e: map<Addr, bool>, n: Node, a: Addr, pid: Option<string>)
    ensures IsSubseq(EntryAddrs(VisibleFrom(e, n, a, true, pid)), PreOrder(n, a))
    decreases n, 1, 0
  {
    var kids := if |n.children| > 0 && Expanded(e, a) then VisibleKids(e, n, a, |n.children|) else [];
    if |n.children| > 0 && Expanded(e, a) {
      VisibleKidsInPreOrder(e, n, a, |n.children|);
    } else {
      IsSubseqNil(PreOrderKids(n, a, |n.children|));
    }
    assert EntryAddrs(VisibleFrom(e, n, a, true, pid)) == [a] + EntryAddrs(kids);
    IsSubseqCons(a, EntryAddrs(kids), PreOrderKids(n, a, |n.children|));
  }

  lemma {:induction false} VisibleKidsInPreOrder(e: map<Addr, bool>, n: Node, a: Addr, k: nat)
    requires k <= |n.children|
    ensures IsSubseq(EntryAddrs(VisibleKids(e, n, a, k)), PreOrderKids(n, a, k))
    decreases n, 0, k
  {
    if k > 0 {
      var l1, l2 := VisibleKids(e, n, a, k - 1), VisibleFrom(e, n.children[k - 1], a + [k - 1], true, Some(n.id));
      VisibleKidsInPreOrder(e, n, a, k - 1);
      VisibleInPreOrder(e, n.children[k - 1], a + [k - 1], Some(n.id));
      assert EntryAddrs(l1 + l2) == EntryAddrs(l1) + EntryAddrs(l2);
      IsSubseqAppend(EntryAddrs(l1), PreOrderKids(n, a, k - 1), EntryAddrs(l2), PreOrder(n.children[k - 1], a + [k - 1]));
    }
  }

  /** `collectVisible(root)`: the list starts with the root and no parent id;
      a node has an entry exactly when every proper ancestor is expanded;
      each entry carries its parent's id; and the entries come in pre-order. */
  lemma VisibleListOfRoot(root: Node, e: map<Addr, bool>)
    ensures var l := VisibleFrom(e, root, [], true, None);
      && l != [] && l[0] == Entry([], None)
      && (forall q :: IsAddr(root, q) && OpenBelow(e, [], q) ==> Entry(q, ParentIdOf(root, q)) in l)
      && (forall en :: en in l ==>
            IsAddr(root, en.addr) && OpenBelow(e, [], en.addr) && en.parentId == ParentIdOf(root, en.addr))
      && IsSubseq(EntryAddrs(l), PreOrder(root, []))
  {
    VisibleSound(root, e, root, [], None);
    forall q | IsAddr(root, q) && OpenBelow(e, [], q)
      ensures Entry(q, ParentIdOf(root, q)) in VisibleFrom(e, root, [], true, None)
    {
      VisibleComplete(root, e, [], q);
    }
    VisibleInPreOrder(e, root, [], None);
  }

  // ---------------------------------------------------------------------
  // shortLabel

  /** JavaScript's `s.slice(0, end)`: a negative end counts from the back. */
  function SlicePrefix(s: string, end: int): string {
    var e := if end < 0 then (if |s| + end < 0 then 0 else |s| + end)
             else if end > |s| then |s| else end;
    s[..e]
  }

  /** `shortLabel(d, max)`: the name unchanged when it fits in `max`
      characters, otherwise its first `max - 1` characters and an ellipsis. */
  function ShortLabel(n: Node, max: int): (shown: string)
    ensures |n.name| <= max ==> shown == n.name
    ensures max >= 1 && |n.name| > max ==> shown == n.name[..max - 1] + "…"
    ensures max >= 1 ==> |shown| <= max
  {
    var s := n.name;
    if |s| > max then SlicePrefix(s, max - 1) + "…" else s
  }
}
