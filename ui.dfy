/** The bulk expand / collapse commands of js/ui.js, and the single-node
    toggle a click triggers (the guard of js/render.js and the flip and
    recompute of js/main.js). */
module Ui {
  import opened Topology
  import opened NodeTree
  import opened Model
  import opened Layout

  /** The flag `collapseAll` gives a node: only the root stays expanded. */
  function CollapseFlag(n: Node): bool {
    n.kind == Root
  }

  /** The flag `expandAll` gives a node. */
  function ExpandFlag(n: Node): bool {
    true
  }

  /** The node at `a` and everything below it get the flag `f` of their
      node, the node first and then its children in order. */
  function Painted(n: Node, a: Addr, e: map<Addr, bool>, f: Node -> bool): map<Addr, bool>
    decreases n, 1
  {
    PaintedKids(n, a, |n.children|, e[a := f(n)], f)
  }

  function PaintedKids(n: Node, a: Addr, k: nat, e: map<Addr, bool>, f: Node -> bool): map<Addr, bool>
    requires k <= |n.children|
    decreases n, 0, k
  {
    if k == 0 then e
    else Painted(n.children[k - 1], a + [k - 1], PaintedKids(n, a, k - 1, e, f), f)
  }

  /** Painting the subtree at `a` adds the subtree's addresses as keys,
      gives each of them the flag of its node, and keeps every other flag. */
  lemma {:induction false} PaintedAt(root: Node, n: Node, a: Addr, e: map<Addr, bool>, f: Node -> bool, q: Addr)
    requires At(root, a) == Some(n)
    ensures var res := Painted(n, a, e, f);
      && (q in res <==> q in e || InTree(root, a, q))
      && Expanded(res, q) == if InTree(root, a, q) then f(NodeAt(root, q)) else Expanded(e, q)
    decreases n, 1
  {
    var count := |n.children|;
    assert NodeAt(root, a) == n;
    if a < q && IsAddr(root, q) {
      ChildIndexInRange(root, a, q);
    }
    PaintedKidsAt(root, n, a, count, e[a := f(n)], f, q);
    assert InTree(root, a, q) <==> q == a || BelowKids(root, a, count, q);
  }

  lemma {:induction false} PaintedKidsAt(root: Node, n: Node, a: Addr, k: nat, e: map<Addr, bool>, f: Node -> bool,
                                         q: Addr)
    requires At(root, a) == Some(n) && k <= |n.children|
    ensures var res := PaintedKids(n, a, k, e, f);
      && (q in res <==> q in e || BelowKids(root, a, k, q))
      && Expanded(res, q) == if BelowKids(root, a, k, q) then f(NodeAt(root, q)) else Expanded(e, q)
    decreases n, 0, k
  {
    if k > 0 {
      PaintedKidsAt(root, n, a, k - 1, e, f, q);
      AtChild(root, a, k - 1);
      PaintedAt(root, n.children[k - 1], a + [k - 1], PaintedKids(n, a, k - 1, e, f), f, q);
      if a < q {
        assert a + [q[|a|]] <= q;
      }
    }
  }

  /** Painting a subtree twice with the same rule gives the flags of painting
      it once. */
  lemma PaintedIdempotent(root: Node, a: Addr, e: map<Addr, bool>, f: Node -> bool)
    requires IsAddr(root, a)
    ensures var n := NodeAt(root, a);
      Painted(n, a, Painted(n, a, e, f), f) == Painted(n, a, e, f)
  {
    var n := NodeAt(root, a);
    var once := Painted(n, a, e, f);
    var twice := Painted(n, a, once, f);
    forall q ensures (q in twice <==> q in once) && (q in once ==> twice[q] == once[q]) {
      PaintedAt(root, n, a, e, f, q);
      PaintedAt(root, n, a, once, f, q);
    }
  }

  /** Painting keeps the key set of a map that already has a key for every
      node. */
  lemma PaintedKeys(root: Node, addrs: set<Addr>, a: Addr, e: map<Addr, bool>, f: Node -> bool)
    requires forall q {:trigger q in addrs} :: q in addrs <==> IsAddr(root, q)
    requires IsAddr(root, a) && e.Keys == addrs
    ensures Painted(NodeAt(root, a), a, e, f).Keys == addrs
  {
    forall q ensures q in Painted(NodeAt(root, a), a, e, f) <==> q in addrs {
      PaintedAt(root, NodeAt(root, a), a, e, f, q);
    }
  }

  // ---------------------------------------------------------------------
  // collapseAll / expandAll

  /** `collapseAll(node)`: a root-type node is set expanded, a zone and
      every other node collapsed, then each child in turn. */
  method CollapseAll(h: Hierarchy, a: Addr)
    requires IsAddr(h.root, a)
    modifies h`expanded
    ensures h.expanded == Painted(NodeAt(h.root, a), a, old(h.expanded), CollapseFlag)
    decreases NodeAt(h.root, a), 1
  {
    var n := NodeAt(h.root, a);
    if n.kind == Root {
      h.expanded := h.expanded[a := true];
      CollapseChildren(h, a);
      return;
    }
    if n.kind == Zone {
      h.expanded := h.expanded[a := false];
      CollapseChildren(h, a);
      return;
    }
    h.expanded := h.expanded[a := false];
    CollapseChildren(h, a);
  }

  method CollapseChildren(h: Hierarchy, a: Addr)
    requires IsAddr(h.root, a)
    modifies h`expanded
    ensures var n := NodeAt(h.root, a);
      h.expanded == PaintedKids(n, a, |n.children|, old(h.expanded), CollapseFlag)
    decreases NodeAt(h.root, a), 0
  {
    var n := NodeAt(h.root, a);
    for k := 0 to |n.children|
      invariant h.expanded == PaintedKids(n, a, k, old(h.expanded), CollapseFlag)
    {
      AtChild(h.root, a, k);
      CollapseAll(h, a + [k]);
    }
  }

  /** `expandAll(node)`: the node and everything below it expanded. */
  method ExpandAll(h: Hierarchy, a: Addr)
    requires IsAddr(h.root, a)
    modifies h`expanded
    ensures h.expanded == Painted(NodeAt(h.root, a), a, old(h.expanded), ExpandFlag)
    decreases NodeAt(h.root, a), 1
  {
    h.expanded := h.expanded[a := true];
    ExpandChildren(h, a);
  }

  method ExpandChildren(h: Hierarchy, a: Addr)
    requires IsAddr(h.root, a)
    modifies h`expanded
    ensures var n := NodeAt(h.root, a);
      h.expanded == PaintedKids(n, a, |n.children|, old(h.expanded), ExpandFlag)
    decreases NodeAt(h.root, a), 0
  {
    var n := NodeAt(h.root, a);
    for k := 0 to |n.children|
      invariant h.expanded == PaintedKids(n, a, k, old(h.expanded), ExpandFlag)
    {
      AtChild(h.root, a, k);
      ExpandAll(h, a + [k]);
    }
  }

  /** After `collapseAll` on `a`: the root-type nodes of the subtree are
      expanded, all its other nodes (zones included) collapsed, flags
      outside it kept, and no key added or lost. */
  lemma CollapsedFlags(root: Node, addrs: set<Addr>, a: Addr, e: map<Addr, bool>)
    requires forall q {:trigger q in addrs} :: q in addrs <==> IsAddr(root, q)
    requires IsAddr(root, a) && e.Keys == addrs
    ensures var c := Painted(NodeAt(root, a), a, e, CollapseFlag);
      && c.Keys == addrs
      && (forall q :: q in c && a <= q ==> (c[q] <==> NodeAt(root, q).kind == Root))
      && (forall q :: q in c && !(a <= q) ==> c[q] == e[q])
  {
    PaintedKeys(root, addrs, a, e, CollapseFlag);
    var c := Painted(NodeAt(root, a), a, e, CollapseFlag);
    forall q | q in c ensures (a <= q ==> (c[q] <==> NodeAt(root, q).kind == Root)) && (!(a <= q) ==> c[q] == e[q]) {
      PaintedAt(root, NodeAt(root, a), a, e, CollapseFlag, q);
    }
  }

  /** After `expandAll` on `a`: every node of the subtree is expanded, flags
      outside it kept, and no key added or lost. */
  lemma ExpandedFlags(root: Node, addrs: set<Addr>, a: Addr, e: map<Addr, bool>)
    requires forall q {:trigger q in addrs} :: q in addrs <==> IsAddr(root, q)
    requires IsAddr(root, a) && e.Keys == addrs
    ensures var c := Painted(NodeAt(root, a), a, e, ExpandFlag);
      && c.Keys == addrs
      && (forall q :: q in c && a <= q ==> c[q])
      && (forall q :: q in c && !(a <= q) ==> c[q] == e[q])
  {
    PaintedKeys(root, addrs, a, e, ExpandFlag);
    var c := Painted(NodeAt(root, a), a, e, ExpandFlag);
    forall q | q in c ensures (a <= q ==> c[q]) && (!(a <= q) ==> c[q] == e[q]) {
      PaintedAt(root, NodeAt(root, a), a, e, ExpandFlag, q);
    }
  }

  /** The tree's root has type root and no other node has. */
  ghost predicate OnlyRootIsRoot(root: Node) {
    root.kind == Root && forall q :: IsAddr(root, q) && q != [] ==> NodeAt(root, q).kind != Root
  }

  /** After `collapseAll(root)` the visible list holds exactly the root and
      its children. */
  lemma CollapsedVisible(root: Node, e: map<Addr, bool>)
    requires OnlyRootIsRoot(root)
    ensures var l := VisibleFrom(Painted(root, [], e, CollapseFlag), root, [], true, None);
      && (forall en :: en in l ==> |en.addr| <= 1)
      && (forall q :: IsAddr(root, q) && |q| <= 1 ==> Entry(q, ParentIdOf(root, q)) in l)
  {
    var c := Painted(root, [], e, CollapseFlag);
    VisibleListOfRoot(root, c);
    forall q | IsAddr(root, q) ensures OpenBelow(c, [], q) <==> |q| <= 1 {
      PaintedAt(root, root, [], e, CollapseFlag, []);
      assert Expanded(c, []);
      if |q| >= 2 {
        PrefixIsAddr(root, q[..1], q);
        PaintedAt(root, root, [], e, CollapseFlag, q[..1]);
        assert !Expanded(c, q[..1]);
      } else if |q| == 1 {
        assert q[..0] == [];
      }
    }
  }

  // ---------------------------------------------------------------------
  // Toggling one node

  /** A click on the node at `a`: ignored on the root-type node and on
      nodes without children; otherwise the node's flag is flipped and the
      whole layout, the index and the link endpoints are recomputed. */
  method ToggleNode(h: Hierarchy, a: Addr, links: seq<Link>, cfg: Config, pack: seq<real> -> Packing,
                    nodeById0: map<string, Addr>, linkEndpoints0: seq<Endpoints>)
    returns (toggled: bool, nodeById: map<string, Addr>, linkEndpoints: seq<Endpoints>)
    requires h.Shaped() && h.ExpandedOk() && h.RadiusOk() && h.OffsetsOk() && h.AbsOk() && PackerOk(pack)
    requires IsAddr(h.root, a)
    modifies h`expanded, h`r, h`x, h`y, h`absX, h`absY
    ensures toggled <==> NodeAt(h.root, a).kind != Root && |NodeAt(h.root, a).children| > 0
    ensures !toggled ==> unchanged(h) && nodeById == nodeById0 && linkEndpoints == linkEndpoints0
    ensures toggled ==>
      && a in old(h.expanded) && h.expanded == old(h.expanded)[a := !old(h.expanded)[a]]
      && h.ExpandedOk() && h.RadiusOk() && h.OffsetsOk() && h.AbsOk()
      && RadiiComputed(h.root, h.expanded, h.r, cfg, pack)
      && OffsetsComputed(h.root, h.expanded, h.r, h.x, h.y, cfg, pack)
      && AbsComputed(h.expanded, h.x, old(h.absX), h.absX) && AbsComputed(h.expanded, h.y, old(h.absY), h.absY)
      && nodeById == Indexed(h.root, map[], PreOrder(h.root, []))
      && linkEndpoints == ResolveEndpoints(links, nodeById)
  {
    var n := NodeAt(h.root, a);
    if n.kind == Root || |n.children| == 0 {
      return false, nodeById0, linkEndpoints0;
    }
    assert a in h.addrs;
    h.expanded := h.expanded[a := !h.expanded[a]];
    nodeById, linkEndpoints := RecomputeAll(h, links, cfg, pack);
    toggled := true;
  }
}
