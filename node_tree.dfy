/** The node tree built from a topology description (`toNode`), node
    addresses, and the static facts derived from the tree's shape alone: the
    pre-order enumeration of all nodes and the descendant-host caches.

    A node object of the running system is identified here by its ADDRESS:
    the sequence of child positions that leads to it from the root. The
    parent of a node is the address without its last step, so the upward
    `parent` reference needs no field of its own. */
module NodeTree {
  import opened Topology

  /** The parts of a node that never change after it is built. */
  datatype Node = Node(id: string, name: string, kind: Kind, depth: nat,
                       zone: Option<string>, env: Option<string>,
                       children: seq<Node>)

  type Addr = seq<nat>

  /** A path-qualified id: the bare name when there is no parent path. An empty
      parent path counts as none, as the falsy test in the source does. */
  function JoinId(parentPath: string, name: string): string {
    if parentPath == "" then name else parentPath + "/" + name
  }

  /** The zone cache: the parent's zone if it has one, otherwise the node's own
      name when it is a zone. */
  function InheritZone(parent: Option<Node>, t: Topo): Option<string> {
    if parent.Some? && parent.value.zone.Some? then parent.value.zone
    else if t.kind == Zone then Some(t.name) else None
  }

  /** The environment cache, by the same rule as the zone cache. */
  function InheritEnv(parent: Option<Node>, t: Topo): Option<string> {
    if parent.Some? && parent.value.env.Some? then parent.value.env
    else if t.kind == Environment then Some(t.name) else None
  }

  /** `toNode(t, parentPath, parent)`: the node for `t` and, recursively, its
      children, each built with this node's id as parent path. */
  function ToNodeUnder(t: Topo, parentPath: string, parent: Option<Node>): Node
    decreases t
  {
    var id := JoinId(parentPath, t.name);
    var depth := if parent.Some? then parent.value.depth + 1 else 0;
    var shell := Node(id, t.name, t.kind, depth, InheritZone(parent, t), InheritEnv(parent, t), []);
    shell.(children := seq(|t.children|, k requires 0 <= k < |t.children| =>
                             ToNodeUnder(t.children[k], id, Some(shell))))
  }

  /** `toNode(t)` with the default arguments: no parent path, no parent. */
  function ToNode(t: Topo): Node {
    ToNodeUnder(t, "", None)
  }

  /** The relation toNode establishes between a node and each of its children. */
  ghost predicate ChildOf(p: Node, c: Node) {
    && c.id == JoinId(p.id, c.name)
    && c.depth == p.depth + 1
    && c.zone == (if p.zone.Some? then p.zone else if c.kind == Zone then Some(c.name) else None)
    && c.env == (if p.env.Some? then p.env else if c.kind == Environment then Some(c.name) else None)
  }

  /** Every parent-child pair of the tree is related by ChildOf. */
  ghost predicate WellBuilt(n: Node)
    decreases n
  {
    forall k :: 0 <= k < |n.children| ==> ChildOf(n, n.children[k]) && WellBuilt(n.children[k])
  }

  /** The node tree has the topology's names, kinds and children, in order. */
  ghost predicate Mirrors(n: Node, t: Topo)
    decreases t
  {
    && n.name == t.name && n.kind == t.kind
    && |n.children| == |t.children|
    && forall k :: 0 <= k < |t.children| ==> Mirrors(n.children[k], t.children[k])
  }

  /** The built node carries the topology's shape, its id is the joined path,
      its depth is one more than its parent's (0 without a parent), and every
      parent-child pair below it is related by ChildOf. */
  lemma {:induction false} ToNodeUnderFacts(t: Topo, parentPath: string, parent: Option<Node>)
    ensures var n := ToNodeUnder(t, parentPath, parent);
      && n.id == JoinId(parentPath, t.name)
      && n.depth == (if parent.Some? then parent.value.depth + 1 else 0)
      && n.zone == InheritZone(parent, t) && n.env == InheritEnv(parent, t)
      && Mirrors(n, t) && WellBuilt(n)
    decreases t
  {
    var n := ToNodeUnder(t, parentPath, parent);
    forall k | 0 <= k < |t.children|
      ensures Mirrors(n.children[k], t.children[k])
      ensures ChildOf(n, n.children[k]) && WellBuilt(n.children[k])
    {
      var shell := n.(children := []);
      assert n.children[k] == ToNodeUnder(t.children[k], n.id, Some(shell));
      ToNodeUnderFacts(t.children[k], n.id, Some(shell));
    }
  }

  /** The built root: its id is its name, its depth is 0, and its zone and
      environment caches come from its own kind only. */
  lemma ToNodeRoot(t: Topo)
    ensures var n := ToNode(t);
      && n.id == t.name && n.depth == 0
      && n.zone == (if t.kind == Zone then Some(t.name) else None)
      && n.env == (if t.kind == Environment then Some(t.name) else None)
      && Mirrors(n, t) && WellBuilt(n)
  {
    ToNodeUnderFacts(t, "", None);
  }

  // ---------------------------------------------------------------------
  // Addresses

  /** The node reached from `root` by following the child positions of `a`. */
  function At(root: Node, a: Addr): Option<Node>
    decreases |a|
  {
    if a == [] then Some(root)
    else match At(root, a[..|a| - 1])
      case None => None
      case Some(m) => if a[|a| - 1] < |m.children| then Some(m.children[a[|a| - 1]]) else None
  }

  predicate IsAddr(root: Node, a: Addr) {
    At(root, a).Some?
  }

  function NodeAt(root: Node, a: Addr): Node
    requires IsAddr(root, a)
  {
    At(root, a).value
  }

  /** The address of the parent of a non-root node. */
  function Parent(a: Addr): Addr
    requires a != []
  {
    a[..|a| - 1]
  }

  /** One step down: address `a + [k]` is the k-th child of the node at `a`. */
  lemma AtChild(root: Node, a: Addr, k: nat)
    ensures At(root, a + [k]) ==
      if IsAddr(root, a) && k < |NodeAt(root, a).children| then Some(NodeAt(root, a).children[k]) else None
  {
    assert (a + [k])[..|a + [k]| - 1] == a;
  }

  /** Every prefix of a node's address is a node's address (its ancestors). */
  lemma {:induction false} PrefixIsAddr(root: Node, p: Addr, q: Addr)
    requires IsAddr(root, q) && p <= q
    ensures IsAddr(root, p)
    decreases |q|
  {
    if |p| < |q| {
      assert p <= q[..|q| - 1];
      PrefixIsAddr(root, p, q[..|q| - 1]);
    } else {
      assert p == q;
    }
  }

  /** Below a well-built root, every node is well built. */
  lemma {:induction false} WellBuiltAt(root: Node, a: Addr)
    requires WellBuilt(root) && IsAddr(root, a)
    ensures WellBuilt(NodeAt(root, a))
    decreases |a|
  {
    if a != [] {
      var p := Parent(a);
      assert a == p + [a[|a| - 1]];
      PrefixIsAddr(root, p, a);
      WellBuiltAt(root, p);
      AtChild(root, p, a[|a| - 1]);
    }
  }

  /** In a tree built by ToNode, a node's depth is the length of its address,
      and a non-root node's id is its parent's id joined with its name. */
  lemma {:induction false} AddrFacts(root: Node, a: Addr)
    requires WellBuilt(root) && root.depth == 0 && IsAddr(root, a)
    ensures NodeAt(root, a).depth == |a|
    ensures a != [] ==>
              && IsAddr(root, Parent(a))
              && NodeAt(root, a).id == JoinId(NodeAt(root, Parent(a)).id, NodeAt(root, a).name)
    decreases |a|
  {
    if a != [] {
      var p := Parent(a);
      assert a == p + [a[|a| - 1]];
      PrefixIsAddr(root, p, a);
      AddrFacts(root, p);
      WellBuiltAt(root, p);
      AtChild(root, p, a[|a| - 1]);
    }
  }

  // ---------------------------------------------------------------------
  // Pre-order enumeration

  /** The addresses of the subtree at `a` (whose node is `n`), in pre-order. */
  function PreOrder(n: Node, a: Addr): seq<Addr>
    decreases n, 1, 0
  {
    [a] + PreOrderKids(n, a, |n.children|)
  }

  /** The pre-order lists of the first `k` children, concatenated. */
  function PreOrderKids(n: Node, a: Addr, k: nat): seq<Addr>
    requires k <= |n.children|
    decreases n, 0, k
  {
    if k == 0 then [] else PreOrderKids(n, a, k - 1) + PreOrder(n.children[k - 1], a + [k - 1])
  }

  /** Everything the pre-order list of `a` holds is a node below `a`. */
  lemma {:induction false} PreOrderSound(root: Node, n: Node, a: Addr)
    requires At(root, a) == Some(n)
    ensures forall q :: q in PreOrder(n, a) ==> a <= q && IsAddr(root, q)
    decreases n, 1, 0
  {
    PreOrderKidsSound(root, n, a, |n.children|);
  }

  lemma {:induction false} PreOrderKidsSound(root: Node, n: Node, a: Addr, k: nat)
    requires At(root, a) == Some(n) && k <= |n.children|
    ensures forall q :: q in PreOrderKids(n, a, k) ==> a < q && IsAddr(root, q)
    decreases n, 0, k
  {
    if k > 0 {
      var c := a + [k - 1];
      PreOrderKidsSound(root, n, a, k - 1);
      AtChild(root, a, k - 1);
      PreOrderSound(root, n.children[k - 1], c);
      assert PreOrderKids(n, a, k) == PreOrderKids(n, a, k - 1) + PreOrder(n.children[k - 1], c);
      var sub := PreOrder(n.children[k - 1], c);
      forall i | 0 <= i < |sub| ensures a < sub[i] {
        assert sub[i] in sub;
        assert c[..|a|] == a;
        assert sub[i][..|a|] == c[..|a|];
      }
    }
  }

  /** The pre-order list of the k-th child is part of the pre-order list of
      its parent's first `j` children when k < j. */
  lemma {:induction false} PreOrderKidsHas(n: Node, a: Addr, k: nat, j: nat, q: Addr)
    requires k < j <= |n.children| && q in PreOrder(n.children[k], a + [k])
    ensures q in PreOrderKids(n, a, j)
    decreases j
  {
    if k < j - 1 {
      PreOrderKidsHas(n, a, k, j - 1, q);
    }
  }

  /** Every node below `a` is in the pre-order list of `a`. */
  lemma {:induction false} PreOrderComplete(root: Node, a: Addr, q: Addr)
    requires IsAddr(root, q) && a <= q
    ensures IsAddr(root, a) && q in PreOrder(NodeAt(root, a), a)
    decreases |q| - |a|
  {
    PrefixIsAddr(root, a, q);
    if q != a {
      var k := q[|a|];
      var c := a + [k];
      assert c <= q;
      PrefixIsAddr(root, c, q);
      AtChild(root, a, k);
      PreOrderComplete(root, c, q);
      PreOrderKidsHas(NodeAt(root, a), a, k, |NodeAt(root, a).children|, q);
    }
  }

  /** The pre-order list of the root holds exactly the addresses of the tree. */
  lemma AllNodes(root: Node)
    ensures forall q :: q in PreOrder(root, []) <==> IsAddr(root, q)
  {
    PreOrderSound(root, root, []);
    forall q | IsAddr(root, q) ensures q in PreOrder(root, []) {
      PreOrderComplete(root, [], q);
    }
  }

  /** The set of all node addresses of the tree. */
  function AddrSet(root: Node): (s: set<Addr>)
    ensures forall q :: q in s <==> IsAddr(root, q)
  {
    AllNodes(root);
    set q | q in PreOrder(root, [])
  }

  // ---------------------------------------------------------------------
  // Descendant-host caches

  /** The ids of the hosts in the subtree (a host stands for itself only). */
  function HostSet(n: Node): set<string>
    decreases n, 1, 0
  {
    if n.kind == Host then {n.id} else HostSetKids(n, |n.children|)
  }

  function HostSetKids(n: Node, k: nat): set<string>
    requires k <= |n.children|
    decreases n, 0, k
  {
    if k == 0 then {} else HostSetKids(n, k - 1) + HostSet(n.children[k - 1])
  }

  /** The hosts of the subtree at `a` (whose node is `n`), in child order. */
  function HostList(n: Node, a: Addr): seq<Addr>
    decreases n, 1, 0
  {
    if n.kind == Host then [a] else HostListKids(n, a, |n.children|)
  }

  function HostListKids(n: Node, a: Addr, k: nat): seq<Addr>
    requires k <= |n.children|
    decreases n, 0, k
  {
    if k == 0 then [] else HostListKids(n, a, k - 1) + HostList(n.children[k - 1], a + [k - 1])
  }

  /** No node on the path to `q` at a depth from `lo` up to, not including,
      `hi` has kind `k`. */
  ghost predicate KindFree(root: Node, q: Addr, lo: nat, hi: nat, k: Kind) {
    forall j :: lo <= j < hi && j <= |q| ==> IsAddr(root, q[..j]) && NodeAt(root, q[..j]).kind != k
  }

  /** The host list of `a` holds exactly the hosts at or below `a` that have
      no host above them, up to and including `a`: the collection stops at
      the first host on each path. */
  lemma {:induction false} HostListExactly(root: Node, n: Node, a: Addr, q: Addr)
    requires At(root, a) == Some(n)
    ensures q in HostList(n, a) <==>
      a <= q && IsAddr(root, q) && NodeAt(root, q).kind == Host && KindFree(root, q, |a|, |q|, Host)
    decreases n, 1, 0
  {
    if a <= q {
      assert q[..|a|] == a;
    }
    if n.kind != Host {
      HostKidsExactly(root, n, a, |n.children|, q);
      if a < q && IsAddr(root, q) {
        PrefixIsAddr(root, a + [q[|a|]], q);
        AtChild(root, a, q[|a|]);
      }
      if a <= q && IsAddr(root, q) && NodeAt(root, q).kind == Host && KindFree(root, q, |a|, |q|, Host) {
        assert q != a;
      }
    } else if a < q && IsAddr(root, q) {
      // the host at `a` hides everything below it
      assert NodeAt(root, q[..|a|]).kind == Host;
    } else if q == a {
      assert KindFree(root, q, |a|, |q|, Host);
    }
  }
  /** The same for the first `k` children of a node that is not a host. */
  lemma {:induction false} HostKidsExactly(root: Node, n: Node, a: Addr, k: nat, q: Addr)
    requires At(root, a) == Some(n) && k <= |n.children|
    ensures q in HostListKids(n, a, k) <==>
      && a < q && q[|a|] < k && IsAddr(root, q) && NodeAt(root, q).kind == Host
      && KindFree(root, q, |a| + 1, |q|, Host)
    decreases n, 0, k
  {
    if k > 0 {
      HostKidsExactly(root, n, a, k - 1, q);
      AtChild(root, a, k - 1);
      HostListExactly(root, n.children[k - 1], a + [k - 1], q);
      assert a + [k - 1] <= q <==> a < q && q[|a|] == k - 1;
    }
  }

  /** The ids of the nodes at the given addresses. */
  ghost function IdsOf(root: Node, l: seq<Addr>): set<string> {
    set q | q in l && IsAddr(root, q) :: NodeAt(root, q).id
  }

  /** The host list and the host set describe the same hosts: every entry of
      the list is a host node below `a`, and the set is exactly their ids. */
  lemma {:induction false} HostListMatchesSet(root: Node, n: Node, a: Addr)
    requires At(root, a) == Some(n)
    ensures forall q :: q in HostList(n, a) ==> a <= q && IsAddr(root, q) && NodeAt(root, q).kind == Host
    ensures HostSet(n) == IdsOf(root, HostList(n, a))
    decreases n, 1, 0
  {
    if n.kind != Host {
      HostKidsMatchSet(root, n, a, |n.children|);
    } else {
      assert a in [a] && NodeAt(root, a).id == n.id;
      assert n.id in IdsOf(root, [a]);
    }
  }

  lemma {:induction false} HostKidsMatchSet(root: Node, n: Node, a: Addr, k: nat)
    requires At(root, a) == Some(n) && k <= |n.children|
    ensures forall q :: q in HostListKids(n, a, k) ==> a < q && IsAddr(root, q) && NodeAt(root, q).kind == Host
    ensures HostSetKids(n, k) == IdsOf(root, HostListKids(n, a, k))
    decreases n, 0, k
  {
    if k > 0 {
      HostKidsMatchSet(root, n, a, k - 1);
      AtChild(root, a, k - 1);
      HostListMatchesSet(root, n.children[k - 1], a + [k - 1]);
      var l1, l2 := HostListKids(n, a, k - 1), HostList(n.children[k - 1], a + [k - 1]);
      assert IdsOf(root, l1 + l2) == IdsOf(root, l1) + IdsOf(root, l2);
    }
  }
}
