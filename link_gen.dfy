/** The link generator of links.js: path ids written onto the raw topology,
    the pre-order list of host records with their nearest zone and
    environment, and the two generation rounds (internal and cross-zone
    links) with the random picks as nondeterministic choices. */
module LinkGen {
  import opened Topology
  import opened NodeTree
  import opened Model
  import opened Layout

  // ---------------------------------------------------------------------
  // assignIds

  /** The id table after `assignIds(t, parentPath)` on the raw node `t` at
      address `a`: the node's own path id, then each child's subtree in
      order, with this node's id as their parent path. */
  function Assigned(t: Topo, a: Addr, parentPath: string, m: map<Addr, string>): map<Addr, string>
    decreases t, 1
  {
    var id := JoinId(parentPath, t.name);
    AssignedKids(t, a, id, |t.children|, m[a := id])
  }

  function AssignedKids(t: Topo, a: Addr, id: string, k: nat, m: map<Addr, string>): map<Addr, string>
    requires k <= |t.children|
    decreases t, 0, k
  {
    if k == 0 then m
    else Assigned(t.children[k - 1], a + [k - 1], id, AssignedKids(t, a, id, k - 1, m))
  }

  /** `res` is `m` with the entry for `q` set to `v` when `below` holds, and
      unchanged otherwise. */
  ghost predicate Updated(res: map<Addr, string>, m: map<Addr, string>, q: Addr, below: bool, v: string) {
    && (q in res <==> q in m || below)
    && (below ==> q in res && res[q] == v)
    && (!below && q in m ==> q in res && res[q] == m[q])
  }

  /** Two updates in a row are one update of the union. */
  lemma UpdatedTwice(res: map<Addr, string>, mid: map<Addr, string>, m: map<Addr, string>,
                     q: Addr, b1: bool, b2: bool, v: string)
    requires Updated(mid, m, q, b1, v) && Updated(res, mid, q, b2, v)
    ensures Updated(res, m, q, b1 || b2, v)
  {
  }

  /** The id of the built node at `q`, when there is one. */
  ghost function BuiltId(root: Node, q: Addr): string {
    if IsAddr(root, q) then NodeAt(root, q).id else ""
  }

  /** When `n` is the built node at `a` for the raw node `t`, and its id is
      the path id `assignIds` gives `t`, assigning ids to `t` adds exactly
      the subtree's addresses, each with the id of its built node, and keeps
      every other entry. */
  lemma {:induction false} AssignedAt(root: Node, n: Node, t: Topo, a: Addr, parentPath: string,
                                      m: map<Addr, string>, q: Addr)
    requires At(root, a) == Some(n) && Mirrors(n, t) && WellBuilt(n) && n.id == JoinId(parentPath, t.name)
    ensures Updated(Assigned(t, a, parentPath, m), m, q, InTree(root, a, q), BuiltId(root, q))
    decreases t, 1
  {
    var count := |t.children|;
    assert NodeAt(root, a) == n;
    if a < q && IsAddr(root, q) {
      ChildIndexInRange(root, a, q);
    }
    AssignedKidsAt(root, n, t, a, n.id, count, m[a := n.id], q);
    assert InTree(root, a, q) <==> q == a || BelowKids(root, a, count, q);
  }

  lemma {:induction false} AssignedKidsAt(root: Node, n: Node, t: Topo, a: Addr, id: string, k: nat,
                                          m: map<Addr, string>, q: Addr)
    requires At(root, a) == Some(n) && Mirrors(n, t) && WellBuilt(n) && n.id == id && k <= |t.children|
    ensures Updated(AssignedKids(t, a, id, k, m), m, q, BelowKids(root, a, k, q), BuiltId(root, q))
    decreases t, 0, k, 1
  {
    if k > 0 {
      AssignedKidsAt(root, n, t, a, id, k - 1, m, q);
      AssignedKidsStep(root, n, t, a, id, k, m, q);
    }
  }

  /** The step from `k - 1` children to `k`: the subtree of child `k - 1`
      is added on top. */
  lemma AssignedKidsStep(root: Node, n: Node, t: Topo, a: Addr, id: string, k: nat,
                         m: map<Addr, string>, q: Addr)
    requires At(root, a) == Some(n) && Mirrors(n, t) && WellBuilt(n) && n.id == id && 0 < k <= |t.children|
    requires Updated(AssignedKids(t, a, id, k - 1, m), m, q, BelowKids(root, a, k - 1, q), BuiltId(root, q))
    ensures Updated(AssignedKids(t, a, id, k, m), m, q, BelowKids(root, a, k, q), BuiltId(root, q))
    decreases t, 0, k, 0
  {
    var prev := AssignedKids(t, a, id, k - 1, m);
    var c := BuiltChild(root, n, t, a, k - 1);
    AssignedAt(root, c, t.children[k - 1], a + [k - 1], id, prev, q);
    UpdatedTwice(AssignedKids(t, a, id, k, m), prev, m, q, BelowKids(root, a, k - 1, q),
                 InTree(root, a + [k - 1], q), BuiltId(root, q));
    BelowKidsStep(root, a, k, q);
  }


  /** The `k`-th child of a built node mirrors the `k`-th raw child and has
      its path id. */
  lemma BuiltChild(root: Node, n: Node, t: Topo, a: Addr, k: nat) returns (c: Node)
    requires At(root, a) == Some(n) && Mirrors(n, t) && WellBuilt(n) && k < |t.children|
    ensures c == n.children[k] && At(root, a + [k]) == Some(c)
    ensures Mirrors(c, t.children[k]) && WellBuilt(c) && c.id == JoinId(n.id, t.children[k].name)
  {
    AtChild(root, a, k);
    c := n.children[k];
    assert ChildOf(n, c);
  }

  /** Below the first `k` children means below the first `k - 1` or in the
      subtree of child `k - 1`. */
  lemma BelowKidsStep(root: Node, a: Addr, k: nat, q: Addr)
    requires k > 0
    ensures BelowKids(root, a, k, q) <==> BelowKids(root, a, k - 1, q) || InTree(root, a + [k - 1], q)
  {
    if a < q {
      assert a + [q[|a|]] <= q;
    }
  }

  /** `assignIds(data)` gives every node of the topology the id `toNode`
      gives the corresponding built node: the root's name, and
      `parentId/name` below it. Entries for other addresses are kept. */
  lemma AssignedIsBuiltId(data: Topo, m: map<Addr, string>)
    ensures var root := ToNode(data);
      var res := Assigned(data, [], "", m);
      && (forall q :: q in res <==> q in m || IsAddr(root, q))
      && (forall q :: IsAddr(root, q) ==> res[q] == NodeAt(root, q).id)
  {
    var root := ToNode(data);
    ToNodeRoot(data);
    var res := Assigned(data, [], "", m);
    forall q ensures (q in res <==> q in m || IsAddr(root, q)) && (IsAddr(root, q) ==> res[q] == NodeAt(root, q).id) {
      AssignedAt(root, root, data, [], "", m, q);
    }
  }

  // ---------------------------------------------------------------------
  // collectHosts

  /** One record of the host list: the host's id and the names of its
      nearest enclosing zone and environment (None for null). */
  datatype HostRec = HostRec(id: string, zone: Option<string>, env: Option<string>)

  /** The name of the nearest inclusive ancestor of `q` of kind `k`. */
  function NearestOf(root: Node, q: Addr, k: Kind): Option<string>
    requires IsAddr(root, q)
    decreases |q|, 1
  {
    if NodeAt(root, q).kind == k then Some(NodeAt(root, q).name) else NearestAbove(root, q, k)
  }

  /** The name of the nearest proper ancestor of `q` of kind `k`. */
  function NearestAbove(root: Node, q: Addr, k: Kind): Option<string>
    requires IsAddr(root, q)
    decreases |q|, 0
  {
    if q == [] then None
    else
      PrefixIsAddr(root, q[..|q| - 1], q);
      NearestOf(root, q[..|q| - 1], k)
  }

  /** A found name belongs to an inclusive ancestor of kind `k`, and no
      node strictly between that ancestor and `q` has kind `k`. */
  lemma {:induction false} NearestFound(root: Node, q: Addr, k: Kind, s: string)
    requires IsAddr(root, q) && NearestOf(root, q, k) == Some(s)
    ensures exists p :: && p <= q && IsAddr(root, p) && NodeAt(root, p).kind == k && NodeAt(root, p).name == s
                        && KindFree(root, q, |p| + 1, |q| + 1, k)
    decreases |q|
  {
    if NodeAt(root, q).kind == k {
      assert q <= q && KindFree(root, q, |q| + 1, |q| + 1, k);
    } else {
      var p := q[..|q| - 1];
      PrefixIsAddr(root, p, q);
      NearestFound(root, p, k, s);
      var w :| && w <= p && IsAddr(root, w) && NodeAt(root, w).kind == k && NodeAt(root, w).name == s
               && KindFree(root, p, |w| + 1, |p| + 1, k);
      KindFreeExtend(root, q, |w| + 1, k);
      assert w <= q;
    }
  }

  /** A path free of kind `k` above `q` stays free when `q` is not of kind
      `k` either. */
  lemma KindFreeExtend(root: Node, q: Addr, lo: nat, k: Kind)
    requires q != [] && IsAddr(root, q) && NodeAt(root, q).kind != k && KindFree(root, q[..|q| - 1], lo, |q|, k)
    ensures KindFree(root, q, lo, |q| + 1, k)
  {
    forall j | lo <= j < |q| + 1 && j <= |q| ensures IsAddr(root, q[..j]) && NodeAt(root, q[..j]).kind != k {
      if j < |q| {
        assert q[..j] == q[..|q| - 1][..j];
      } else {
        assert q[..j] == q;
      }
    }
  }


  /** No name found means no node on the path from the root to `q` has kind
      `k`. */
  lemma {:induction false} NearestNone(root: Node, q: Addr, k: Kind)
    requires IsAddr(root, q) && NearestOf(root, q, k) == None
    ensures KindFree(root, q, 0, |q| + 1, k)
    decreases |q|
  {
    if q != [] {
      var p := q[..|q| - 1];
      PrefixIsAddr(root, p, q);
      NearestNone(root, p, k);
      KindFreeExtend(root, q, 0, k);
    } else {
      assert q[..0] == q;
    }
  }

  /** The record of the node at `q`: its id, nearest zone and nearest
      environment. */
  function HostRecordOf(root: Node, q: Addr): HostRec
    requires IsAddr(root, q)
  {
    HostRec(NodeAt(root, q).id, NearestOf(root, q, Zone), NearestOf(root, q, Environment))
  }

  /** The record `collectHosts` emits for the node at `q`, if it is a host. */
  function RecordAt(root: Node, q: Addr): seq<HostRec> {
    if IsAddr(root, q) && NodeAt(root, q).kind == Host then [HostRecordOf(root, q)] else []
  }

  /** The records `f` gives the nodes at the addresses `l`, in the order of
      `l`; `collectHosts` lists `Records(root, l, RecordAt)`. The
      per-node rule is a parameter so that the list lemmas below hold for
      any rule. */
  function Records(root: Node, l: seq<Addr>, f: (Node, Addr) -> seq<HostRec>): seq<HostRec>
    decreases |l|
  {
    if l == [] then [] else Records(root, l[..|l| - 1], f) + f(root, l[|l| - 1])
  }

  lemma {:induction false} RecordsAppend(root: Node, x: seq<Addr>, y: seq<Addr>, f: (Node, Addr) -> seq<HostRec>)
    ensures Records(root, x + y, f) == Records(root, x, f) + Records(root, y, f)
    decreases |y|
  {
    if y != [] {
      var y0 := y[..|y| - 1];
      assert (x + y)[..|x + y| - 1] == x + y0;
      assert (x + y)[|x + y| - 1] == y[|y| - 1];
      RecordsAppend(root, x, y0, f);
      assert Records(root, x + y, f) == Records(root, x + y0, f) + f(root, y[|y| - 1]);
    } else {
      assert x + y == x;
    }
  }

  /** The records of a subtree: the node's own record, then those of its
      children's subtrees. */
  lemma OwnRecordFirst(root: Node, n: Node, a: Addr, f: (Node, Addr) -> seq<HostRec>)
    ensures Records(root, PreOrder(n, a), f) == f(root, a) + Records(root, PreOrderKids(n, a, |n.children|), f)
  {
    var kids := PreOrderKids(n, a, |n.children|);
    RecordsAppend(root, [a], kids, f);
    RecordsOne(root, a, f);
  }

  lemma RecordsOne(root: Node, q: Addr, f: (Node, Addr) -> seq<HostRec>)
    ensures Records(root, [q], f) == f(root, q)
  {
    assert [q][..0] == [];
  }

  /** The records `collectHosts` appends for the subtree at `a` (whose
      node is `n`): the node's own record, then each child's subtree in
      order. */
  function SubtreeRecords(root: Node, n: Node, a: Addr, f: (Node, Addr) -> seq<HostRec>): seq<HostRec>
    decreases n, 1
  {
    f(root, a) + KidsRecords(root, n, a, |n.children|, f)
  }

  function KidsRecords(root: Node, n: Node, a: Addr, k: nat, f: (Node, Addr) -> seq<HostRec>): seq<HostRec>
    requires k <= |n.children|
    decreases n, 0, k
  {
    if k == 0 then [] else KidsRecords(root, n, a, k - 1, f) + SubtreeRecords(root, n.children[k - 1], a + [k - 1], f)
  }

  /** The subtree's records are the records of its pre-order list. */
  lemma {:induction false} SubtreeRecordsInPreOrder(root: Node, n: Node, a: Addr, f: (Node, Addr) -> seq<HostRec>)
    ensures SubtreeRecords(root, n, a, f) == Records(root, PreOrder(n, a), f)
    decreases n, 1
  {
    KidsRecordsInPreOrder(root, n, a, |n.children|, f);
    OwnRecordFirst(root, n, a, f);
  }

  lemma {:induction false} KidsRecordsInPreOrder(root: Node, n: Node, a: Addr, k: nat, f: (Node, Addr) -> seq<HostRec>)
    requires k <= |n.children|
    ensures KidsRecords(root, n, a, k, f) == Records(root, PreOrderKids(n, a, k), f)
    decreases n, 0, k
  {
    if k > 0 {
      var c: Addr, sub := a + [k - 1], n.children[k - 1];
      var before := PreOrderKids(n, a, k - 1);
      KidsRecordsInPreOrder(root, n, a, k - 1, f);
      SubtreeRecordsInPreOrder(root, sub, c, f);
      RecordsAppend(root, before, PreOrder(sub, c), f);
      assert PreOrderKids(n, a, k) == before + PreOrder(sub, c);
    }
  }

  /** Every record of `Records(root, l)` is the record of a host in `l`, and
      every host in `l` has its record there. */
  lemma {:induction false} RecordsMembers(root: Node, l: seq<Addr>, r: HostRec)
    ensures r in Records(root, l, RecordAt) <==>
      exists q :: q in l && IsAddr(root, q) && NodeAt(root, q).kind == Host && r == RecordAt(root, q)[0]
    decreases |l|
  {
    if l != [] {
      var l0 := l[..|l| - 1];
      RecordsMembers(root, l0, r);
      assert forall q :: q in l <==> q in l0 || q == l[|l| - 1];
    }
  }

  /** The hosts collected from the whole tree are exactly the records of its
      host nodes, listed in pre-order. */
  lemma CollectedHosts(root: Node, r: HostRec)
    ensures r in Records(root, PreOrder(root, []), RecordAt) <==>
      exists q :: IsAddr(root, q) && NodeAt(root, q).kind == Host
        && r == HostRec(NodeAt(root, q).id, NearestOf(root, q, Zone), NearestOf(root, q, Environment))
  {
    AllNodes(root);
    RecordsMembers(root, PreOrder(root, []), r);
  }

  /** `collectHosts` is at the raw node `t`, whose built node is at `a`,
      and carries the nearest zone and environment strictly above it. */
  ghost predicate Walk(root: Node, t: Topo, a: Addr, zone: Option<string>, env: Option<string>) {
    && IsAddr(root, a) && Mirrors(NodeAt(root, a), t)
    && zone == NearestAbove(root, a, Zone) && env == NearestAbove(root, a, Environment)
  }

  /** The same, once the node's own zone or environment has been taken in. */
  ghost predicate KidsWalk(root: Node, t: Topo, a: Addr, zone: Option<string>, env: Option<string>) {
    && IsAddr(root, a) && Mirrors(NodeAt(root, a), t)
    && zone == NearestOf(root, a, Zone) && env == NearestOf(root, a, Environment)
  }

  /** Taking in the node's own zone and environment turns the walk at `a`
      into the walk below it, and a host's record carries those. */
  lemma WalkStep(root: Node, t: Topo, a: Addr, zone: Option<string>, env: Option<string>)
    requires Walk(root, t, a, zone, env)
    ensures var z := if t.kind == Zone then Some(t.name) else zone;
            var e := if t.kind == Environment then Some(t.name) else env;
            && KidsWalk(root, t, a, z, e)
            && RecordAt(root, a) == if t.kind == Host then [HostRec(NodeAt(root, a).id, z, e)] else []
  {
  }

  /** Stepping from the node at `a` to its k-th child keeps the walk. */
  lemma ChildStep(root: Node, a: Addr, k: nat, t: Topo, zone: Option<string>, env: Option<string>)
    requires KidsWalk(root, t, a, zone, env) && k < |t.children|
    ensures NodeAt(root, a + [k]) == NodeAt(root, a).children[k]
    ensures Walk(root, t.children[k], a + [k], zone, env)
  {
    AtChild(root, a, k);
    var c := a + [k];
    assert c[..|c| - 1] == a;
  }

  /** The raw topology object, on which `assignIds` writes a `__id` per
      node. `built` is the node tree `toNode` makes of the same data. */
  class RawTopology {
    const data: Topo
    ghost const built: Node
    var ids: map<Addr, string>

    constructor (data: Topo)
      ensures this.data == data && built == ToNode(data) && ids == map[]
      ensures Mirrors(built, data) && WellBuilt(built)
    {
      this.data := data;
      built := ToNode(data);
      ids := map[];
      ToNodeRoot(data);
    }

    /** Every node has the id of its built node. */
    ghost predicate IdsAssigned()
      reads this`ids
    {
      forall q :: IsAddr(built, q) ==> q in ids && ids[q] == NodeAt(built, q).id
    }

    /** `assignIds(t, parentPath)` for the raw node `t` at address `a`. */
    method AssignIds(t: Topo, a: Addr, parentPath: string)
      modifies this`ids
      ensures ids == Assigned(t, a, parentPath, old(ids))
      decreases t, 1
    {
      var id := JoinId(parentPath, t.name);
      ids := ids[a := id];
      AssignChildIds(t, a, id);
    }

    method AssignChildIds(t: Topo, a: Addr, id: string)
      modifies this`ids
      ensures ids == AssignedKids(t, a, id, |t.children|, old(ids))
      decreases t, 0
    {
      for k := 0 to |t.children|
        invariant ids == AssignedKids(t, a, id, k, old(ids))
      {
        AssignIds(t.children[k], a + [k], id);
      }
    }

    /** `assignIds(data)`, as the generator calls it first. */
    method AssignAllIds()
      requires built == ToNode(data)
      modifies this`ids
      ensures IdsAssigned()
      ensures forall q :: q in ids <==> q in old(ids) || IsAddr(built, q)
    {
      AssignIds(data, [], "");
      AssignedIsBuiltId(data, old(ids));
    }

    /** `collectHosts(t, zone, env, out)` for the raw node `t` at address
        `a`: the records of the subtree's hosts, in pre-order, are appended
        to `out`. The zone and environment passed down are those of the
        nearest proper ancestors. */
    method CollectHosts(t: Topo, a: Addr, zone: Option<string>, env: Option<string>, out0: seq<HostRec>)
      returns (out: seq<HostRec>)
      requires IdsAssigned() && Walk(built, t, a, zone, env)
      ensures out == out0 + SubtreeRecords(built, NodeAt(built, a), a, RecordAt)
      decreases t, 1
    {
      ghost var n := NodeAt(built, a);
      var z := zone;
      var e := env;
      if t.kind == Zone {
        z := Some(t.name);
      }
      if t.kind == Environment {
        e := Some(t.name);
      }
      WalkStep(built, t, a, zone, env);
      out := out0;
      if t.kind == Host {
        out := out + [HostRec(ids[a], z, e)];
      }
      assert out == out0 + RecordAt(built, a);
      out := CollectChildHosts(t, a, z, e, out);
    }

    /** The `node.children.forEach(...)` step of `collectHosts`. */
    method CollectChildHosts(t: Topo, a: Addr, z: Option<string>, e: Option<string>, out0: seq<HostRec>)
      returns (out: seq<HostRec>)
      requires IdsAssigned() && KidsWalk(built, t, a, z, e)
      ensures var n := NodeAt(built, a);
        out == out0 + KidsRecords(built, n, a, |n.children|, RecordAt)
      decreases t, 0
    {
      var n := NodeAt(built, a);
      out := out0;
      for k := 0 to |t.children|
        invariant out == out0 + KidsRecords(built, n, a, k, RecordAt)
      {
        var c := a + [k];
        ChildStep(built, a, k, t, z, e);
        out := CollectHosts(t.children[k], c, z, e, out);
      }
    }

    /** `collectHosts(data)`: the records of all hosts, in pre-order. */
    method CollectAllHosts() returns (hosts: seq<HostRec>)
      requires IdsAssigned() && Mirrors(built, data)
      ensures hosts == Records(built, PreOrder(built, []), RecordAt)
    {
      hosts := CollectHosts(data, [], None, None, []);
      SubtreeRecordsInPreOrder(built, built, [], RecordAt);
    }
  }

  // ---------------------------------------------------------------------
  // Link ids

  /** The decimal digits of `n`, most significant first. */
  function NatToString(n: nat): (s: string)
    ensures |s| >= 1 && forall i :: 0 <= i < |s| ==> '0' <= s[i] <= '9'
    decreases n
  {
    if n < 10 then [Digit(n)] else NatToString(n / 10) + [Digit(n % 10)]
  }

  function Digit(d: nat): (c: char)
    requires d < 10
    ensures '0' <= c <= '9'
  {
    ['0', '1', '2', '3', '4', '5', '6', '7', '8', '9'][d]
  }

  /** Different numbers have different decimal strings. */
  lemma {:induction false} NatToStringInjective(m: nat, n: nat)
    requires NatToString(m) == NatToString(n)
    ensures m == n
    decreases m
  {
    var sm := NatToString(m);
    if m < 10 || n < 10 {
      assert m < 10 && n < 10;
      assert Digit(m) == sm[0] == Digit(n);
    } else {
      var pm, pn := NatToString(m / 10), NatToString(n / 10);
      assert sm[..|sm| - 1] == pm && sm[|sm| - 1] == Digit(m % 10);
      assert sm[..|sm| - 1] == pn && sm[|sm| - 1] == Digit(n % 10);
      NatToStringInjective(m / 10, n / 10);
    }
  }

  /** The id of the link pushed as the `k`-th one: `l_<k>`. */
  function LinkId(k: nat): string {
    "l_" + NatToString(k)
  }

  lemma LinkIdInjective(m: nat, n: nat)
    requires LinkId(m) == LinkId(n)
    ensures m == n
  {
    assert NatToString(m) == LinkId(m)[2..] == LinkId(n)[2..] == NatToString(n);
    NatToStringInjective(m, n);
  }

  // ---------------------------------------------------------------------
  // rand and the two kinds of draw

  /** `rand(arr)` for the random draw `r`: the element at `r mod |arr|`, or
      None (undefined) for an empty list. Every element is some draw's pick,
      see `PickReachesAll`. */
  function Pick<T>(arr: seq<T>, r: nat): (p: Option<T>)
    ensures p.Some? <==> arr != []
    ensures p.Some? ==> p.value in arr
  {
    if arr == [] then None else Some(arr[r % |arr|])
  }

  lemma PickReachesAll<T>(arr: seq<T>, i: nat)
    requires i < |arr|
    ensures Pick(arr, i) == Some(arr[i])
  {
  }

  /** `hosts.filter(h => h.zone === a.zone && h.id !== a.id)`. */
  function SameZonePeers(hosts: seq<HostRec>, a: HostRec): (f: seq<HostRec>)
    ensures forall h :: h in f <==> h in hosts && h.zone == a.zone && h.id != a.id
    decreases |hosts|
  {
    if hosts == [] then []
    else
      var rest := SameZonePeers(hosts[1..], a);
      assert forall h :: h in hosts <==> h == hosts[0] || h in hosts[1..];
      if hosts[0].zone == a.zone && hosts[0].id != a.id then [hosts[0]] + rest else rest
  }

  /** `hosts.filter(h => h.env === "Production")`. */
  function ProductionHosts(hosts: seq<HostRec>): (f: seq<HostRec>)
    ensures forall h :: h in f <==> h in hosts && h.env == Some("Production")
    decreases |hosts|
  {
    if hosts == [] then []
    else
      var rest := ProductionHosts(hosts[1..]);
      assert forall h :: h in hosts <==> h == hosts[0] || h in hosts[1..];
      if hosts[0].env == Some("Production") then [hosts[0]] + rest else rest
  }

  /** `hosts.filter(h => h.zone !== a.zone)`. */
  function OtherZoneHosts(hosts: seq<HostRec>, a: HostRec): (f: seq<HostRec>)
    ensures forall h :: h in f <==> h in hosts && h.zone != a.zone
    decreases |hosts|
  {
    if hosts == [] then []
    else
      var rest := OtherZoneHosts(hosts[1..], a);
      assert forall h :: h in hosts <==> h == hosts[0] || h in hosts[1..];
      if hosts[0].zone != a.zone then [hosts[0]] + rest else rest
  }

  /** What one round of a generation loop does: push a link from `a` to `b`,
      or `continue`. */
  datatype Draw = Skip | Join(a: HostRec, b: HostRec)

  /** One round of the internal loop for the draws `r1`, `r2`: a random
      host, then a random other host of the same zone. */
  function InternalDraw(hosts: seq<HostRec>, r1: nat, r2: nat): (d: Draw)
    ensures d.Join? ==> d.a in hosts && d.b in hosts && d.a.zone == d.b.zone && d.a.id != d.b.id
    ensures d.Skip? <==> (|| hosts == []
                          || forall h :: h in hosts ==> h.zone != hosts[r1 % |hosts|].zone || h.id == hosts[r1 % |hosts|].id)
  {
    match Pick(hosts, r1)
    case None => Skip
    case Some(a) =>
      match Pick(SameZonePeers(hosts, a), r2)
      case None => Skip
      case Some(b) => Join(a, b)
  }

  /** One round of the cross-zone loop for the draws `r1`, `r2`: a random
      Production host, then a random host of another zone; a round without
      a Production host is skipped. */
  function CrossDraw(hosts: seq<HostRec>, r1: nat, r2: nat): (d: Draw)
    ensures d.Join? ==> d.a in hosts && d.a.env == Some("Production") && d.b in hosts && d.b.zone != d.a.zone
    ensures d.Skip? <==> (|| (forall h :: h in hosts ==> h.env != Some("Production"))
                          || var prod := ProductionHosts(hosts);
                             forall h :: h in hosts ==> h.zone == prod[r1 % |prod|].zone)
  {
    match Pick(ProductionHosts(hosts), r1)
    case None => Skip
    case Some(a) =>
      match Pick(OtherZoneHosts(hosts, a), r2)
      case None => Skip
      case Some(b) => Join(a, b)
  }

  /** The result of the cross-zone round as written: the other-zone filter
      reads `a.zone` for each host before the `!a` guard is reached. */
  datatype Outcome = Threw | Done(draw: Draw)

  function CrossDrawAsWritten(hosts: seq<HostRec>, r1: nat, r2: nat): Outcome {
    match Pick(ProductionHosts(hosts), r1)
    case None => if hosts != [] then Threw else Done(Skip)
    case Some(a) =>
      match Pick(OtherZoneHosts(hosts, a), r2)
      case None => Done(Skip)
      case Some(b) => Done(Join(a, b))
  }

  /** As written, the cross-zone round throws exactly when there are hosts
      but none of them is in Production; otherwise it does what `CrossDraw`
      does. */
  lemma CrossDrawAsWrittenThrows(hosts: seq<HostRec>, r1: nat, r2: nat)
    ensures CrossDrawAsWritten(hosts, r1, r2) == Threw <==>
      hosts != [] && forall h :: h in hosts ==> h.env != Some("Production")
    ensures CrossDrawAsWritten(hosts, r1, r2) != Threw ==>
      CrossDrawAsWritten(hosts, r1, r2) == Done(CrossDraw(hosts, r1, r2))
  {
    if ProductionHosts(hosts) == [] && hosts != [] {
      assert hosts[0] in hosts;
    }
  }

  /** A topology with one host outside Production: the first cross-zone
      round throws. */
  lemma CrossDrawThrowsOnTestOnlyHosts()
    ensures CrossDrawAsWritten([HostRec("Core/Test/web/h1", Some("Core"), Some("Test"))], 0, 0) == Threw
  {
    CrossDrawAsWrittenThrows([HostRec("Core/Test/web/h1", Some("Core"), Some("Test"))], 0, 0);
  }

  /** Over recorded draws, the round as written throws on the first draw
      exactly when there are hosts but none is in Production; the loop then
      stops there. Every draw on which it does not throw draws what
      `CrossDraw` draws. */
  lemma CrossRoundsAsWritten(hosts: seq<HostRec>, draws: seq<(nat, nat)>)
    requires draws != []
    ensures CrossDrawAsWritten(hosts, draws[0].0, draws[0].1) == Threw <==>
      hosts != [] && forall h :: h in hosts ==> h.env != Some("Production")
    ensures forall i :: 0 <= i < |draws| && CrossDrawAsWritten(hosts, draws[i].0, draws[i].1) != Threw ==>
      CrossDrawAsWritten(hosts, draws[i].0, draws[i].1) == Done(CrossDraw(hosts, draws[i].0, draws[i].1))
  {
    forall i | 0 <= i < |draws|
      ensures CrossDrawAsWritten(hosts, draws[i].0, draws[i].1) != Threw ==>
        CrossDrawAsWritten(hosts, draws[i].0, draws[i].1) == Done(CrossDraw(hosts, draws[i].0, draws[i].1))
    {
      CrossDrawAsWrittenThrows(hosts, draws[i].0, draws[i].1);
    }
  }

  // ---------------------------------------------------------------------
  // The generation loops

  const InternalRounds: nat := 1200
  const CrossRounds: nat := 400

  /** The link was drawn by an internal round: two distinct hosts of one
      zone. */
  ghost predicate InternalLink(hosts: seq<HostRec>, l: Link) {
    && l.kind == Internal
    && exists a, b :: a in hosts && b in hosts && a.id == l.source && b.id == l.target
                      && a.zone == b.zone && a.id != b.id
  }

  /** The link was drawn by a cross-zone round: a Production host to a host
      in another zone. */
  ghost predicate CrossLink(hosts: seq<HostRec>, l: Link) {
    && l.kind == CrossZone
    && exists a, b :: a in hosts && b in hosts && a.id == l.source && b.id == l.target
                      && a.env == Some("Production") && b.zone != a.zone
  }

  /** The links that rounds with the draws `draws` push, in order, with ids
      counted from `next`: one link for each draw that `f` turns into a
      join, none for a skipped one. */
  function Pushed(hosts: seq<HostRec>, draws: seq<(nat, nat)>, next: nat,
                  f: (seq<HostRec>, nat, nat) -> Draw, kind: LinkKind): (ls: seq<Link>)
    ensures |ls| == Joins(hosts, draws, f)
    ensures forall l :: l in ls ==> l.kind == kind
    decreases |draws|
  {
    if draws == [] then []
    else
      var prev := Pushed(hosts, draws[..|draws| - 1], next, f, kind);
      var r := draws[|draws| - 1];
      var d := f(hosts, r.0, r.1);
      if d.Join? then prev + [Link(LinkId(next + |prev|), d.a.id, d.b.id, kind)] else prev
  }

  /** The pushed links are numbered on from `next`. */
  lemma {:induction false} PushedIds(hosts: seq<HostRec>, draws: seq<(nat, nat)>, next: nat,
                                     f: (seq<HostRec>, nat, nat) -> Draw, kind: LinkKind)
    ensures forall k :: 0 <= k < |Pushed(hosts, draws, next, f, kind)| ==>
              Pushed(hosts, draws, next, f, kind)[k].id == LinkId(next + k)
    decreases |draws|
  {
    if draws != [] {
      var ls := Pushed(hosts, draws, next, f, kind);
      var prev := Pushed(hosts, draws[..|draws| - 1], next, f, kind);
      PushedIds(hosts, draws[..|draws| - 1], next, f, kind);
      assert forall k :: 0 <= k < |prev| ==> ls[k] == prev[k];
    }
  }

  /** How many of the draws `f` turns into a join. */
  function Joins(hosts: seq<HostRec>, draws: seq<(nat, nat)>, f: (seq<HostRec>, nat, nat) -> Draw): (c: nat)
    ensures c <= |draws|
    decreases |draws|
  {
    if draws == [] then 0
    else
      var d := draws[|draws| - 1];
      Joins(hosts, draws[..|draws| - 1], f) + (if f(hosts, d.0, d.1).Join? then 1 else 0)
  }

  /** Every draw is a join exactly when no round is skipped. */
  lemma {:induction false} JoinsAll(hosts: seq<HostRec>, draws: seq<(nat, nat)>, f: (seq<HostRec>, nat, nat) -> Draw)
    ensures Joins(hosts, draws, f) == |draws| <==> forall i :: 0 <= i < |draws| ==> f(hosts, draws[i].0, draws[i].1).Join?
    decreases |draws|
  {
    if draws != [] {
      var rest := draws[..|draws| - 1];
      JoinsAll(hosts, rest, f);
      assert forall i :: 0 <= i < |rest| ==> rest[i] == draws[i];
    }
  }

  /** The links pushed by the first `j` rounds start the links pushed by
      all of them. */
  lemma {:induction false} PushedPrefix(hosts: seq<HostRec>, draws: seq<(nat, nat)>, j: nat, next: nat,
                                        f: (seq<HostRec>, nat, nat) -> Draw, kind: LinkKind)
    requires j <= |draws|
    ensures Pushed(hosts, draws[..j], next, f, kind) <= Pushed(hosts, draws, next, f, kind)
    decreases |draws| - j
  {
    if j < |draws| {
      var init := draws[..|draws| - 1];
      assert init[..j] == draws[..j];
      PushedPrefix(hosts, init, j, next, f, kind);
    } else {
      assert draws[..j] == draws;
    }
  }

  /** Every round that draws a join pushes its link: round `i` joining `a`
      and `b` puts the link from `a` to `b` after the links of the joins
      drawn before it. */
  lemma {:induction false} PushedJoinAt(hosts: seq<HostRec>, draws: seq<(nat, nat)>, i: nat, next: nat,
                                        f: (seq<HostRec>, nat, nat) -> Draw, kind: LinkKind)
    requires i < |draws| && f(hosts, draws[i].0, draws[i].1).Join?
    ensures var d := f(hosts, draws[i].0, draws[i].1);
            var k := Joins(hosts, draws[..i], f);
            k < |Pushed(hosts, draws, next, f, kind)|
            && Pushed(hosts, draws, next, f, kind)[k] == Link(LinkId(next + k), d.a.id, d.b.id, kind)
  {
    var upto := draws[..i + 1];
    assert upto[..|upto| - 1] == draws[..i];
    assert upto[|upto| - 1] == draws[i];
    PushedPrefix(hosts, draws, i + 1, next, f, kind);
  }

  /** The entries past `prefix` are those of `rest`. */
  lemma SuffixIn(prefix: seq<Link>, rest: seq<Link>)
    ensures forall k :: |prefix| <= k < |prefix + rest| ==> (prefix + rest)[k] in rest
  {
    forall k | |prefix| <= k < |prefix + rest| ensures (prefix + rest)[k] in rest {
      assert (prefix + rest)[k] == rest[k - |prefix|];
    }
  }

  /** Every link an internal round pushes joins two distinct hosts of one
      zone. */
  lemma {:induction false} PushedInternal(hosts: seq<HostRec>, draws: seq<(nat, nat)>, next: nat)
    ensures forall l :: l in Pushed(hosts, draws, next, InternalDraw, Internal) ==> InternalLink(hosts, l)
    decreases |draws|
  {
    if draws != [] {
      PushedInternal(hosts, draws[..|draws| - 1], next);
      var d := draws[|draws| - 1];
      var r := InternalDraw(hosts, d.0, d.1);
      if r.Join? {
        assert r.a in hosts && r.b in hosts;
      }
    }
  }

  /** Every link a cross-zone round pushes joins a Production host to a host
      of another zone. */
  lemma {:induction false} PushedCross(hosts: seq<HostRec>, draws: seq<(nat, nat)>, next: nat)
    ensures forall l :: l in Pushed(hosts, draws, next, CrossDraw, CrossZone) ==> CrossLink(hosts, l)
    decreases |draws|
  {
    if draws != [] {
      PushedCross(hosts, draws[..|draws| - 1], next);
      var d := draws[|draws| - 1];
      var r := CrossDraw(hosts, d.0, d.1);
      if r.Join? {
        assert r.a in hosts && r.b in hosts;
      }
    }
  }

  /** Every host shares its zone with another host. */
  ghost predicate EveryHostPaired(hosts: seq<HostRec>) {
    hosts != [] && forall a :: a in hosts ==> SameZonePeers(hosts, a) != []
  }

  /** Some host is in Production, and every Production host has a host in
      another zone. */
  ghost predicate EveryProductionHostReaches(hosts: seq<HostRec>) {
    ProductionHosts(hosts) != [] && forall a :: a in ProductionHosts(hosts) ==> OtherZoneHosts(hosts, a) != []
  }

  /** When every host has a same-zone peer, no internal round is skipped. */
  lemma InternalNeverSkips(hosts: seq<HostRec>, r1: nat, r2: nat)
    requires EveryHostPaired(hosts)
    ensures InternalDraw(hosts, r1, r2).Join?
  {
    assert hosts[r1 % |hosts|] in hosts;
  }

  /** When every Production host has a host in another zone, no cross-zone
      round is skipped. */
  lemma CrossNeverSkips(hosts: seq<HostRec>, r1: nat, r2: nat)
    requires EveryProductionHostReaches(hosts)
    ensures CrossDraw(hosts, r1, r2).Join?
  {
    var prod := ProductionHosts(hosts);
    assert prod[r1 % |prod|] in prod;
  }

  /** When every host has a same-zone peer, every internal round pushes a
      link. */
  lemma {:induction false} InternalPushesAll(hosts: seq<HostRec>, draws: seq<(nat, nat)>, next: nat)
    requires EveryHostPaired(hosts)
    ensures |Pushed(hosts, draws, next, InternalDraw, Internal)| == |draws|
    decreases |draws|
  {
    if draws != [] {
      var d := draws[|draws| - 1];
      InternalPushesAll(hosts, draws[..|draws| - 1], next);
      InternalNeverSkips(hosts, d.0, d.1);
    }
  }

  /** When every Production host has a host in another zone, every
      cross-zone round pushes a link. */
  lemma {:induction false} CrossPushesAll(hosts: seq<HostRec>, draws: seq<(nat, nat)>, next: nat)
    requires EveryProductionHostReaches(hosts)
    ensures |Pushed(hosts, draws, next, CrossDraw, CrossZone)| == |draws|
    decreases |draws|
  {
    if draws != [] {
      var d := draws[|draws| - 1];
      CrossPushesAll(hosts, draws[..|draws| - 1], next);
      CrossNeverSkips(hosts, d.0, d.1);
    }
  }

  /** One more round: its link, if it draws a join, comes after the links
      of the earlier rounds. */
  lemma PushedSnoc(hosts: seq<HostRec>, draws: seq<(nat, nat)>, r: (nat, nat), next: nat,
                   f: (seq<HostRec>, nat, nat) -> Draw, kind: LinkKind)
    ensures var prev := Pushed(hosts, draws, next, f, kind);
            var d := f(hosts, r.0, r.1);
            Pushed(hosts, draws + [r], next, f, kind)
              == if d.Join? then prev + [Link(LinkId(next + |prev|), d.a.id, d.b.id, kind)] else prev
  {
    var all := draws + [r];
    assert all[..|all| - 1] == draws;
    assert all[|all| - 1] == r;
  }

  /** The module-level `links` array and `id` counter of the generator. */
  class LinkList {
    var links: seq<Link>
    var nextId: nat

    /** The counter is the number of links pushed, and the k-th link has id
        `l_<k>`. */
    ghost predicate Valid()
      reads this
    {
      nextId == |links| && forall k :: 0 <= k < |links| ==> links[k].id == LinkId(k)
    }

    constructor ()
      ensures links == [] && nextId == 0 && Valid()
    {
      links := [];
      nextId := 0;
    }

    /** `links.push({ id: `l_${id++}`, source, target, kind })`. */
    method Push(source: string, target: string, kind: LinkKind)
      requires Valid()
      modifies this
      ensures Valid()
      ensures links == old(links) + [Link(LinkId(old(nextId)), source, target, kind)]
    {
      links := links + [Link(LinkId(nextId), source, target, kind)];
      nextId := nextId + 1;
    }

    /** The end of one round: push the drawn link, or `continue`. */
    method PushDraw(d: Draw, kind: LinkKind)
      requires Valid()
      modifies this
      ensures Valid()
      ensures links == old(links) + if d.Join? then [Link(LinkId(old(nextId)), d.a.id, d.b.id, kind)] else []
    {
      if d.Join? {
        Push(d.a.id, d.b.id, kind);
      }
    }

    /** A generation loop: `rounds` rounds, each drawing two random
        numbers, then pushing the link `f` draws from them or none.
        `draws` are the numbers drawn. */
    method Rounds(hosts: seq<HostRec>, rounds: nat, f: (seq<HostRec>, nat, nat) -> Draw, kind: LinkKind)
      returns (ghost draws: seq<(nat, nat)>)
      requires Valid()
      modifies this
      ensures Valid()
      ensures |draws| == rounds
      ensures links == old(links) + Pushed(hosts, draws, old(nextId), f, kind)
    {
      draws := [];
      for i := 0 to rounds
        invariant Valid()
        invariant |draws| == i
        invariant links == old(links) + Pushed(hosts, draws, old(nextId), f, kind)
      {
        var r1: nat :| true;
        var r2: nat :| true;
        var d := f(hosts, r1, r2);
        PushedSnoc(hosts, draws, (r1, r2), old(nextId), f, kind);
        draws := draws + [(r1, r2)];
        PushDraw(d, kind);
      }
    }

    /** The internal loop: 1200 rounds, each pushing one internal link or
        none; none is skipped when every host has a same-zone peer. */
    method InternalLinks(hosts: seq<HostRec>) returns (ghost draws: seq<(nat, nat)>)
      requires Valid()
      modifies this
      ensures Valid()
      ensures |draws| == InternalRounds
      ensures links == old(links) + Pushed(hosts, draws, old(nextId), InternalDraw, Internal)
      ensures |links| <= |old(links)| + InternalRounds
      ensures EveryHostPaired(hosts) ==> |links| == |old(links)| + InternalRounds
      ensures forall k :: |old(links)| <= k < |links| ==> InternalLink(hosts, links[k])
    {
      draws := Rounds(hosts, InternalRounds, InternalDraw, Internal);
      ghost var pushed := Pushed(hosts, draws, old(nextId), InternalDraw, Internal);
      if EveryHostPaired(hosts) {
        InternalPushesAll(hosts, draws, old(nextId));
      }
      PushedInternal(hosts, draws, old(nextId));
      SuffixIn(old(links), pushed);
    }

    /** The cross-zone loop: 400 rounds, each pushing one cross-zone link
        or none; none is skipped when every Production host has a host in
        another zone. */
    method CrossZoneLinks(hosts: seq<HostRec>) returns (ghost draws: seq<(nat, nat)>)
      requires Valid()
      modifies this
      ensures Valid()
      ensures |draws| == CrossRounds
      ensures links == old(links) + Pushed(hosts, draws, old(nextId), CrossDraw, CrossZone)
      ensures |links| <= |old(links)| + CrossRounds
      ensures EveryProductionHostReaches(hosts) ==> |links| == |old(links)| + CrossRounds
      ensures forall k :: |old(links)| <= k < |links| ==> CrossLink(hosts, links[k])
      ensures CrossDrawAsWritten(hosts, draws[0].0, draws[0].1) == Threw <==>
        hosts != [] && forall h :: h in hosts ==> h.env != Some("Production")
    {
      draws := Rounds(hosts, CrossRounds, CrossDraw, CrossZone);
      CrossRoundsAsWritten(hosts, draws);
      ghost var pushed := Pushed(hosts, draws, old(nextId), CrossDraw, CrossZone);
      if EveryProductionHostReaches(hosts) {
        CrossPushesAll(hosts, draws, old(nextId));
      }
      PushedCross(hosts, draws, old(nextId));
      SuffixIn(old(links), pushed);
    }
  }

  /** Link ids are pairwise different. */
  lemma LinkIdsUnique(links: seq<Link>)
    requires forall k :: 0 <= k < |links| ==> links[k].id == LinkId(k)
    ensures forall i, j :: 0 <= i < j < |links| ==> links[i].id != links[j].id
  {
    forall i, j | 0 <= i < j < |links| ensures links[i].id != links[j].id {
      if links[i].id == links[j].id {
        LinkIdInjective(i, j);
      }
    }
  }

  /** The first `n` links come from internal rounds (at most 1200), the
      others from cross-zone rounds (at most 400). */
  ghost predicate InternalThenCross(hosts: seq<HostRec>, links: seq<Link>, n: nat) {
    && n <= InternalRounds && n <= |links| && |links| - n <= CrossRounds
    && (forall k :: 0 <= k < n ==> InternalLink(hosts, links[k]))
    && (forall k :: n <= k < |links| ==> CrossLink(hosts, links[k]))
  }

  /** The links of internal rounds followed by those of cross-zone rounds:
      internal links first, then cross-zone ones. */
  lemma DrawnShape(hosts: seq<HostRec>, internalDraws: seq<(nat, nat)>, crossDraws: seq<(nat, nat)>)
    requires |internalDraws| == InternalRounds && |crossDraws| == CrossRounds
    ensures var internal := Pushed(hosts, internalDraws, 0, InternalDraw, Internal);
            InternalThenCross(hosts, internal + Pushed(hosts, crossDraws, |internal|, CrossDraw, CrossZone), |internal|)
  {
    var internal := Pushed(hosts, internalDraws, 0, InternalDraw, Internal);
    var cross := Pushed(hosts, crossDraws, |internal|, CrossDraw, CrossZone);
    var links := internal + cross;
    PushedInternal(hosts, internalDraws, 0);
    PushedCross(hosts, crossDraws, |internal|);
    SuffixIn(internal, cross);
    assert forall k :: 0 <= k < |internal| ==> links[k] == internal[k];
  }

  /** The two loops of links.js over the collected hosts, on a fresh
      `links` array: the internal rounds' links, then the cross-zone
      rounds' links, with ids `l_0, l_1, ...`. */
  method DrawLinks(hosts: seq<HostRec>) returns (links: seq<Link>,
                                                 ghost internalDraws: seq<(nat, nat)>, ghost crossDraws: seq<(nat, nat)>)
    ensures |internalDraws| == InternalRounds && |crossDraws| == CrossRounds
    ensures var internal := Pushed(hosts, internalDraws, 0, InternalDraw, Internal);
      links == internal + Pushed(hosts, crossDraws, |internal|, CrossDraw, CrossZone)
    ensures EveryHostPaired(hosts) && EveryProductionHostReaches(hosts) ==> |links| == InternalRounds + CrossRounds
    ensures forall k :: 0 <= k < |links| ==> links[k].id == LinkId(k)
    ensures forall i, j :: 0 <= i < j < |links| ==> links[i].id != links[j].id
    ensures exists n :: InternalThenCross(hosts, links, n)
    ensures CrossDrawAsWritten(hosts, crossDraws[0].0, crossDraws[0].1) == Threw <==>
      hosts != [] && forall h :: h in hosts ==> h.env != Some("Production")
  {
    var out := new LinkList();
    internalDraws := out.InternalLinks(hosts);
    ghost var internal := Pushed(hosts, internalDraws, 0, InternalDraw, Internal);
    assert [] + internal == internal;
    assert out.links == internal && out.nextId == |internal|;
    crossDraws := out.CrossZoneLinks(hosts);
    ghost var cross := Pushed(hosts, crossDraws, |internal|, CrossDraw, CrossZone);
    assert out.links == internal + cross;
    links := out.links;
    DrawnShape(hosts, internalDraws, crossDraws);
    assert InternalThenCross(hosts, links, |internal|);
    LinkIdsUnique(links);
  }

  /** The whole of links.js for the topology `data`: ids, hosts, then the
      internal and the cross-zone rounds. */
  method GenerateLinks(data: Topo) returns (hosts: seq<HostRec>, links: seq<Link>,
                                             ghost internalDraws: seq<(nat, nat)>, ghost crossDraws: seq<(nat, nat)>)
    ensures var root := ToNode(data);
      hosts == Records(root, PreOrder(root, []), RecordAt)
    ensures |internalDraws| == InternalRounds && |crossDraws| == CrossRounds
    ensures var internal := Pushed(hosts, internalDraws, 0, InternalDraw, Internal);
      links == internal + Pushed(hosts, crossDraws, |internal|, CrossDraw, CrossZone)
    ensures EveryHostPaired(hosts) && EveryProductionHostReaches(hosts) ==> |links| == InternalRounds + CrossRounds
    ensures forall k :: 0 <= k < |links| ==> links[k].id == LinkId(k)
    ensures forall i, j :: 0 <= i < j < |links| ==> links[i].id != links[j].id
    ensures exists n :: InternalThenCross(hosts, links, n)
    ensures CrossDrawAsWritten(hosts, crossDraws[0].0, crossDraws[0].1) == Threw <==>
      hosts != [] && forall h :: h in hosts ==> h.env != Some("Production")
  {
    var raw := new RawTopology(data);
    raw.AssignAllIds();
    hosts := raw.CollectAllHosts();
    links, internalDraws, crossDraws := DrawLinks(hosts);
  }


}
