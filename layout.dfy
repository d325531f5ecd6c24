/** The layout passes of the circle view: the radius pass, the position pass
    that fits each packed cluster of children inside its parent, and the
    recomputation that runs every pass and resolves the link endpoints.

    Circle packing itself is a foreign library call; it is the parameter
    `pack`, which maps the radii of a list of sibling circles to one centre
    per circle and an enclosing circle. Nothing is assumed about it beyond
    returning one centre per circle. */
module Layout {
  import opened Topology
  import opened NodeTree
  import opened Model

  datatype Point = Point(x: real, y: real)
  datatype Circle = Circle(x: real, y: real, r: real)

  /** What the packer returns for a list of radii: a centre for each circle
      (in the same order) and the circle enclosing them all. */
  datatype Packing = Packing(centres: seq<Point>, enclosing: Circle)

  /** The packer places every circle it is given. */
  ghost predicate PackerOk(pack: seq<real> -> Packing) {
    forall radii :: |pack(radii).centres| == |radii|
  }

  /** The layout constants: the radius of a leaf or collapsed node, the
      margin kept inside a parent, and the spacing between packed siblings. */
  datatype Config = Config(rr: real, padding: real, siblingPad: real)

  /** The values the application is configured with. */
  const Defaults := Config(10.0, 5.0, 100.0)

  function Max(u: real, v: real): real {
    if u >= v then u else v
  }

  function PointX(p: Point): real { p.x }
  function PointY(p: Point): real { p.y }

  // ---------------------------------------------------------------------
  // packWithPadding

  /** The current radii of the first `count` children of `a`, in order. */
  function Radii(r: map<Addr, real>, a: Addr, count: nat): (rs: seq<real>)
    ensures |rs| == count && forall j :: 0 <= j < count ==> rs[j] == ValueAt(r, a + [j])
    decreases count
  {
    if count == 0 then [] else Radii(r, a, count - 1) + [ValueAt(r, a + [count - 1])]
  }

  /** Each radius grown by half the padding. */
  function Inflate(rs: seq<real>, pad: real): (grown: seq<real>)
    ensures |grown| == |rs|
    ensures forall j :: 0 <= j < |rs| ==> grown[j] == rs[j] + pad / 2.0
  {
    seq(|rs|, j requires 0 <= j < |rs| => rs[j] + pad / 2.0)
  }

  /** A map in which the children `lo` .. `hi - 1` of `a` have their value
      grown by half the padding. */
  function Bumped(m: map<Addr, real>, a: Addr, lo: nat, hi: nat, pad: real): map<Addr, real>
    decreases hi
  {
    if hi <= lo then m
    else Bumped(m, a, lo, hi - 1, pad)[a + [hi - 1] := ValueAt(m, a + [hi - 1]) + pad / 2.0]
  }

  /** A map in which child `j` of `a` takes `sel` of the j-th centre, for the
      first `k` centres. */
  function Placed(m: map<Addr, real>, a: Addr, cs: seq<Point>, k: nat, sel: Point -> real): map<Addr, real>
    decreases k
  {
    if k == 0 then m
    else
      var m1 := Placed(m, a, cs, k - 1, sel);
      if k - 1 < |cs| then m1[a + [k - 1] := sel(cs[k - 1])] else m1
  }

  /** `q` is child `j` of `a` for some `lo <= j < hi`. */
  predicate ChildIn(a: Addr, lo: nat, hi: nat, q: Addr) {
    |q| == |a| + 1 && a <= q && lo <= q[|a|] < hi
  }

  lemma ChildAddr(a: Addr, j: nat, q: Addr)
    ensures ChildIn(a, j, j + 1, q) <==> q == a + [j]
  {
    if ChildIn(a, j, j + 1, q) {
      assert q == q[..|a|] + [q[|a|]];
    }
  }

  lemma {:induction false} BumpedAt(m: map<Addr, real>, a: Addr, lo: nat, hi: nat, pad: real, q: Addr)
    ensures var b := Bumped(m, a, lo, hi, pad);
      && (q in b <==> q in m || ChildIn(a, lo, hi, q))
      && ValueAt(b, q) == if ChildIn(a, lo, hi, q) then ValueAt(m, q) + pad / 2.0 else ValueAt(m, q)
    decreases hi
  {
    if lo < hi {
      BumpedAt(m, a, lo, hi - 1, pad, q);
      ChildAddr(a, hi - 1, q);
    }
  }

  lemma {:induction false} PlacedAt(m: map<Addr, real>, a: Addr, cs: seq<Point>, k: nat, sel: Point -> real, q: Addr)
    ensures var p := Placed(m, a, cs, k, sel);
      && (q in p <==> q in m || ChildIn(a, 0, if k <= |cs| then k else |cs|, q))
      && ValueAt(p, q) == if ChildIn(a, 0, if k <= |cs| then k else |cs|, q) then sel(cs[q[|a|]]) else ValueAt(m, q)
    decreases k
  {
    if k > 0 {
      PlacedAt(m, a, cs, k - 1, sel, q);
      ChildAddr(a, k - 1, q);
    }
  }

  /** Reading the radii back after the first `count` children were grown
      gives the grown radii. */
  lemma {:induction false} RadiiOfBumped(m: map<Addr, real>, a: Addr, count: nat, pad: real, k: nat)
    requires k <= count
    ensures Radii(Bumped(m, a, 0, count, pad), a, k) == Inflate(Radii(m, a, k), pad)
    decreases k
  {
    if k > 0 {
      RadiiOfBumped(m, a, count, pad, k - 1);
      BumpedAt(m, a, 0, count, pad, a + [k - 1]);
    }
  }

  /** Restoring child `lo` to its value in `m` undoes its growth. */
  lemma RestoreStep(m: map<Addr, real>, a: Addr, lo: nat, hi: nat, pad: real)
    requires lo < hi && a + [lo] in m
    ensures Bumped(m, a, lo, hi, pad)[a + [lo] := m[a + [lo]]] == Bumped(m, a, lo + 1, hi, pad)
  {
    var u := Bumped(m, a, lo, hi, pad)[a + [lo] := m[a + [lo]]];
    var v := Bumped(m, a, lo + 1, hi, pad);
    forall q ensures (q in u <==> q in v) && (q in u ==> u[q] == v[q]) {
      BumpedAt(m, a, lo, hi, pad, q);
      BumpedAt(m, a, lo + 1, hi, pad, q);
      ChildAddr(a, lo, q);
    }
  }

  /** The first loop of `packWithPadding`: remembers each child's radius and
      grows it by half the padding. */
  method GrowRadii(h: Hierarchy, a: Addr, count: nat, pad: real) returns (saved: seq<real>)
    modifies h`r
    ensures saved == Radii(old(h.r), a, count)
    ensures h.r == Bumped(old(h.r), a, 0, count, pad)
  {
    saved := [];
    var k: nat := 0;
    while k < count
      invariant k <= count && saved == Radii(old(h.r), a, k) && h.r == Bumped(old(h.r), a, 0, k, pad)
    {
      BumpedAt(old(h.r), a, 0, k, pad, a + [k]);
      saved := saved + [ValueAt(h.r, a + [k])];
      h.r := h.r[a + [k] := saved[k] + pad / 2.0];
      k := k + 1;
    }
  }

  /** What the packer writes: child `j` of `a` moves to the j-th centre. */
  method PlaceCentres(h: Hierarchy, a: Addr, cs: seq<Point>, count: nat)
    requires count <= |cs|
    modifies h`x, h`y
    ensures h.x == Placed(old(h.x), a, cs, count, PointX)
    ensures h.y == Placed(old(h.y), a, cs, count, PointY)
  {
    var k: nat := 0;
    while k < count
      invariant k <= count
      invariant h.x == Placed(old(h.x), a, cs, k, PointX)
      invariant h.y == Placed(old(h.y), a, cs, k, PointY)
    {
      h.x := h.x[a + [k] := cs[k].x];
      h.y := h.y[a + [k] := cs[k].y];
      k := k + 1;
    }
  }

  /** The second loop of `packWithPadding`: puts each remembered radius back. */
  method RestoreRadii(h: Hierarchy, a: Addr, saved: seq<real>, ghost r0: map<Addr, real>, pad: real)
    requires forall j :: 0 <= j < |saved| ==> a + [j] in r0 && saved[j] == r0[a + [j]]
    requires h.r == Bumped(r0, a, 0, |saved|, pad)
    modifies h`r
    ensures h.r == r0
  {
    var k: nat := 0;
    while k < |saved|
      invariant k <= |saved| && h.r == Bumped(r0, a, k, |saved|, pad)
    {
      RestoreStep(r0, a, k, |saved|, pad);
      h.r := h.r[a + [k] := saved[k]];
      k := k + 1;
    }
  }

  /** What the packer makes of the first `count` children of `a`, their
      radii grown by half of `pad`. */
  function PackKids(r: map<Addr, real>, a: Addr, count: nat, pad: real, pack: seq<real> -> Packing): Packing {
    pack(Inflate(Radii(r, a, count), pad))
  }

  /** The geometry once the first `count` children of `a` sit on the
      given centres. */
  function PlaceKids(g: Geometry, a: Addr, cs: seq<Point>, count: nat): Geometry {
    g.(x := Placed(g.x, a, cs, count, PointX), y := Placed(g.y, a, cs, count, PointY))
  }

  /** `packWithPadding(kids, pad)`: grows the radius of each child of `a` by
      half the padding, packs the grown circles, restores every radius and
      returns the enclosing circle of the grown circles. The children keep
      the packed centres; no radius changes. */
  method PackWithPadding(h: Hierarchy, a: Addr, pad: real, pack: seq<real> -> Packing) returns (enclosing: Circle)
    requires h.Shaped() && h.RadiusOk() && IsAddr(h.root, a) && PackerOk(pack)
    modifies h`r, h`x, h`y
    ensures h.r == old(h.r)
    ensures var count := |NodeAt(h.root, a).children|;
      var p := PackKids(old(h.r), a, count, pad, pack);
      && enclosing == p.enclosing
      && Geometry(h.r, h.x, h.y) == PlaceKids(Geometry(old(h.r), old(h.x), old(h.y)), a, p.centres, count)
  {
    var count := |NodeAt(h.root, a).children|;
    ghost var r0 := h.r;
    forall j | 0 <= j < count ensures a + [j] in r0 {
      AtChild(h.root, a, j);
      assert a + [j] in h.addrs;
    }
    var saved := GrowRadii(h, a, count, pad);
    var grown := Radii(h.r, a, count);
    RadiiOfBumped(r0, a, count, pad, count);
    var p := pack(grown);
    assert |p.centres| == count;
    PlaceCentres(h, a, p.centres, count);
    enclosing := p.enclosing;
    RestoreRadii(h, a, saved, r0, pad);
  }

  // ---------------------------------------------------------------------
  // computeRadius

  /** The three geometry fields of every node. */
  datatype Geometry = Geometry(r: map<Addr, real>, x: map<Addr, real>, y: map<Addr, real>)

  /** `q` is `a` or one of its descendants. */
  ghost predicate InTree(root: Node, a: Addr, q: Addr) {
    a <= q && IsAddr(root, q)
  }

  /** `q` is a descendant of one of the first `k` children of `a`, or one of
      those children. */
  ghost predicate BelowKids(root: Node, a: Addr, k: nat, q: Addr) {
    a < q && q[|a|] < k && IsAddr(root, q)
  }

  /** The radius `computeRadius` gives the node `n` at `a`: `rr` for a leaf or a
      collapsed node; otherwise the radius of the circle enclosing its
      children packed with their own radii grown by half the sibling
      padding, plus the padding, but never less than `rr`. */
  ghost function RadiusOf(e: map<Addr, bool>, n: Node, a: Addr, cfg: Config, pack: seq<real> -> Packing): (radius: real)
    ensures radius >= cfg.rr
    decreases n, 1, 0
  {
    if |n.children| == 0 || !Expanded(e, a) then cfg.rr
    else
      var enclosing := pack(Inflate(KidRadii(e, n, a, |n.children|, cfg, pack), cfg.siblingPad)).enclosing;
      Max(cfg.rr, enclosing.r + cfg.padding)
  }

  /** The radii of the first `k` children of `n`. */
  ghost function KidRadii(e: map<Addr, bool>, n: Node, a: Addr, k: nat, cfg: Config, pack: seq<real> -> Packing): (rs: seq<real>)
    requires k <= |n.children|
    ensures |rs| == k && forall j :: 0 <= j < k ==> rs[j] == RadiusOf(e, n.children[j], a + [j], cfg, pack)
    decreases n, 0, k
  {
    if k == 0 then [] else KidRadii(e, n, a, k - 1, cfg, pack) + [RadiusOf(e, n.children[k - 1], a + [k - 1], cfg, pack)]
  }

  /** The geometry as `computeRadius(node)` leaves it, as a function of the
      geometry before the call. */
  ghost function RadiusPass(e: map<Addr, bool>, n: Node, a: Addr, g: Geometry, cfg: Config, pack: seq<real> -> Packing): Geometry
    decreases n, 1, 0
  {
    if |n.children| == 0 then g.(r := g.r[a := cfg.rr])
    else
      var count := |n.children|;
      var g1 := RadiusKids(e, n, a, count, g, cfg, pack);
      if !Expanded(e, a) then g1.(r := g1.r[a := cfg.rr])
      else PackedGeometry(g1, a, count, cfg, pack)
  }

  /** An expanded node after its children's radii are known: the children
      are packed, and the node's radius covers the packed cluster. */
  function PackedGeometry(g: Geometry, a: Addr, count: nat, cfg: Config, pack: seq<real> -> Packing): Geometry {
    var p := PackKids(g.r, a, count, cfg.siblingPad, pack);
    var placed := PlaceKids(g, a, p.centres, count);
    placed.(r := placed.r[a := Max(cfg.rr, p.enclosing.r + cfg.padding)])
  }

  /** The radius pass over the first `k` children of `n`, in order. */
  ghost function RadiusKids(e: map<Addr, bool>, n: Node, a: Addr, k: nat, g: Geometry, cfg: Config,
                            pack: seq<real> -> Packing): Geometry
    requires k <= |n.children|
    decreases n, 0, k
  {
    if k == 0 then g
    else RadiusPass(e, n.children[k - 1], a + [k - 1], RadiusKids(e, n, a, k - 1, g, cfg, pack), cfg, pack)
  }

  /** The radius pass at one address: every node of the subtree gets the
      radius `RadiusOf` describes, collapsed subtrees included; no radius
      outside the subtree changes. */
  lemma {:induction false} RadiusPassAt(root: Node, e: map<Addr, bool>, n: Node, a: Addr, g: Geometry, cfg: Config,
                                        pack: seq<real> -> Packing, q: Addr)
    requires At(root, a) == Some(n)
    ensures var res := RadiusPass(e, n, a, g, cfg, pack);
      && (q in res.r <==> q in g.r || InTree(root, a, q))
      && ValueAt(res.r, q) == (if InTree(root, a, q) then RadiusOf(e, NodeAt(root, q), q, cfg, pack) else ValueAt(g.r, q))
    decreases n, 1, 0
  {
    var count := |n.children|;
    assert NodeAt(root, a) == n;
    if a < q && IsAddr(root, q) {
      ChildIndexInRange(root, a, q);
    }
    if count > 0 {
      RadiusKidsAt(root, e, n, a, count, g, cfg, pack, q);
      assert InTree(root, a, q) <==> q == a || BelowKids(root, a, count, q);
      if Expanded(e, a) {
        ExpandedRadius(root, e, n, a, g, cfg, pack);
      }
    } else {
      assert RadiusPass(e, n, a, g, cfg, pack).r == g.r[a := cfg.rr];
      assert InTree(root, a, q) <==> q == a;
    }
  }

  /** An expanded node is packed around the radii its children just got. */
  lemma {:induction false} ExpandedRadius(root: Node, e: map<Addr, bool>, n: Node, a: Addr, g: Geometry, cfg: Config,
                                          pack: seq<real> -> Packing)
    requires At(root, a) == Some(n) && |n.children| > 0 && Expanded(e, a)
    ensures RadiusPass(e, n, a, g, cfg, pack).r
         == RadiusKids(e, n, a, |n.children|, g, cfg, pack).r[a := RadiusOf(e, n, a, cfg, pack)]
    decreases n, 0, |n.children| + 1
  {
    var count := |n.children|;
    var g1 := RadiusKids(e, n, a, count, g, cfg, pack);
    forall j | 0 <= j < count ensures ValueAt(g1.r, a + [j]) == RadiusOf(e, n.children[j], a + [j], cfg, pack) {
      RadiusKidsAt(root, e, n, a, count, g, cfg, pack, a + [j]);
      AtChild(root, a, j);
    }
    assert Radii(g1.r, a, count) == KidRadii(e, n, a, count, cfg, pack);
  }

  lemma {:induction false} RadiusKidsAt(root: Node, e: map<Addr, bool>, n: Node, a: Addr, k: nat, g: Geometry,
                                        cfg: Config, pack: seq<real> -> Packing, q: Addr)
    requires At(root, a) == Some(n) && k <= |n.children|
    ensures var res := RadiusKids(e, n, a, k, g, cfg, pack);
      && (q in res.r <==> q in g.r || BelowKids(root, a, k, q))
      && ValueAt(res.r, q) == (if BelowKids(root, a, k, q) then RadiusOf(e, NodeAt(root, q), q, cfg, pack) else ValueAt(g.r, q))
    decreases n, 0, k
  {
    if k > 0 {
      RadiusKidsAt(root, e, n, a, k - 1, g, cfg, pack, q);
      AtChild(root, a, k - 1);
      RadiusPassAt(root, e, n.children[k - 1], a + [k - 1], RadiusKids(e, n, a, k - 1, g, cfg, pack), cfg, pack, q);
      if a < q {
        assert a + [q[|a|]] <= q;
      }
    }
  }

  /** The offsets the radius pass moves (children of packed nodes) lie
      strictly inside the subtree; the node itself and everything outside
      keep their offsets. */
  lemma {:induction false} RadiusPassMoves(root: Node, e: map<Addr, bool>, n: Node, a: Addr, g: Geometry, cfg: Config,
                                           pack: seq<real> -> Packing, q: Addr)
    requires At(root, a) == Some(n)
    ensures var res := RadiusPass(e, n, a, g, cfg, pack);
      && (q in g.x ==> q in res.x) && (q in res.x ==> q in g.x || InTree(root, a, q))
      && (q in g.y ==> q in res.y) && (q in res.y ==> q in g.y || InTree(root, a, q))
      && (!(a < q) ==> ValueAt(res.x, q) == ValueAt(g.x, q) && ValueAt(res.y, q) == ValueAt(g.y, q))
    decreases n, 1, 0
  {
    var count := |n.children|;
    if count > 0 {
      var g1 := RadiusKids(e, n, a, count, g, cfg, pack);
      RadiusKidsMove(root, e, n, a, count, g, cfg, pack, q);
      if Expanded(e, a) {
        var p := PackKids(g1.r, a, count, cfg.siblingPad, pack);
        PlacedAt(g1.x, a, p.centres, count, PointX, q);
        PlacedAt(g1.y, a, p.centres, count, PointY, q);
        if ChildIn(a, 0, count, q) {
          ChildAddr(a, q[|a|], q);
          AtChild(root, a, q[|a|]);
        }
      }
    }
  }

  lemma {:induction false} RadiusKidsMove(root: Node, e: map<Addr, bool>, n: Node, a: Addr, k: nat, g: Geometry,
                                          cfg: Config, pack: seq<real> -> Packing, q: Addr)
    requires At(root, a) == Some(n) && k <= |n.children|
    ensures var res := RadiusKids(e, n, a, k, g, cfg, pack);
      && (q in g.x ==> q in res.x) && (q in res.x ==> q in g.x || InTree(root, a, q))
      && (q in g.y ==> q in res.y) && (q in res.y ==> q in g.y || InTree(root, a, q))
      && (!(a < q) ==> ValueAt(res.x, q) == ValueAt(g.x, q) && ValueAt(res.y, q) == ValueAt(g.y, q))
    decreases n, 0, k
  {
    if k > 0 {
      RadiusKidsMove(root, e, n, a, k - 1, g, cfg, pack, q);
      AtChild(root, a, k - 1);
      RadiusPassMoves(root, e, n.children[k - 1], a + [k - 1], RadiusKids(e, n, a, k - 1, g, cfg, pack), cfg, pack, q);
      if a + [k - 1] <= q {
        assert a <= q;
      }
    }
  }

  /** `computeRadius(node)`: the radius pass. Returns the node's new radius. */
  method ComputeRadius(h: Hierarchy, a: Addr, cfg: Config, pack: seq<real> -> Packing) returns (radius: real)
    requires h.Shaped() && h.ExpandedOk() && h.RadiusOk() && IsAddr(h.root, a) && PackerOk(pack)
    modifies h`r, h`x, h`y
    ensures h.RadiusOk()
    ensures Geometry(h.r, h.x, h.y) == RadiusPass(h.expanded, NodeAt(h.root, a), a, Geometry(old(h.r), old(h.x), old(h.y)), cfg, pack)
    ensures a in h.r && radius == h.r[a]
    decreases NodeAt(h.root, a), 1
  {
    var n := NodeAt(h.root, a);
    assert a in h.addrs;
    if |n.children| == 0 {
      h.r := h.r[a := cfg.rr];
      return cfg.rr;
    }
    ComputeKidRadii(h, a, cfg, pack);
    if !h.expanded[a] {
      h.r := h.r[a := cfg.rr];
      return cfg.rr;
    }
    radius := FitAroundKids(h, a, cfg, pack);
    RadiusPassExpanded(h.expanded, n, a, Geometry(old(h.r), old(h.x), old(h.y)), cfg, pack);
  }

  /** The end of `computeRadius` for an expanded node: packs the children and
      sizes the node to cover them. */
  method FitAroundKids(h: Hierarchy, a: Addr, cfg: Config, pack: seq<real> -> Packing) returns (radius: real)
    requires h.Shaped() && h.RadiusOk() && IsAddr(h.root, a) && PackerOk(pack)
    modifies h`r, h`x, h`y
    ensures h.RadiusOk() && a in h.r && radius == h.r[a]
    ensures Geometry(h.r, h.x, h.y)
         == PackedGeometry(Geometry(old(h.r), old(h.x), old(h.y)), a, |NodeAt(h.root, a).children|, cfg, pack)
  {
    assert a in h.addrs;
    var enclosing := PackWithPadding(h, a, cfg.siblingPad, pack);
    radius := Max(cfg.rr, enclosing.r + cfg.padding);
    h.r := h.r[a := radius];
  }

  lemma RadiusPassExpanded(e: map<Addr, bool>, n: Node, a: Addr, g: Geometry, cfg: Config, pack: seq<real> -> Packing)
    requires |n.children| > 0 && Expanded(e, a)
    ensures RadiusPass(e, n, a, g, cfg, pack) == PackedGeometry(RadiusKids(e, n, a, |n.children|, g, cfg, pack), a, |n.children|, cfg, pack)
  {
  }

  /** `node.children.forEach(computeRadius)`. */
  method ComputeKidRadii(h: Hierarchy, a: Addr, cfg: Config, pack: seq<real> -> Packing)
    requires h.Shaped() && h.ExpandedOk() && h.RadiusOk() && IsAddr(h.root, a) && PackerOk(pack)
    modifies h`r, h`x, h`y
    ensures h.RadiusOk()
    ensures var n := NodeAt(h.root, a);
      Geometry(h.r, h.x, h.y) == RadiusKids(h.expanded, n, a, |n.children|, Geometry(old(h.r), old(h.x), old(h.y)), cfg, pack)
    decreases NodeAt(h.root, a), 0
  {
    var n := NodeAt(h.root, a);
    var k: nat := 0;
    while k < |n.children|
      invariant k <= |n.children| && h.RadiusOk()
      invariant Geometry(h.r, h.x, h.y) == RadiusKids(h.expanded, n, a, k, Geometry(old(h.r), old(h.x), old(h.y)), cfg, pack)
    {
      AtChild(h.root, a, k);
      var _ := ComputeRadius(h, a + [k], cfg, pack);
      k := k + 1;
    }
  }

  // ---------------------------------------------------------------------
  // layout

  /** `v` times `s`. */
  function Scaled(v: real, s: real): real { v * s }

  /** The factor that fits a packed cluster with enclosing radius `encR`
      inside a parent of radius `r` less the padding; 1 for an empty
      enclosing circle. */
  function FitScale(r: real, encR: real, padding: real): real {
    if encR > 0.0 then Max(0.0, r - padding) / encR else 1.0
  }

  /** Scaling by the fit scale makes the enclosing circle exactly as large
      as the parent's radius less the padding (or zero), never negative. */
  lemma FitScaleFits(r: real, encR: real, padding: real)
    requires encR > 0.0
    ensures FitScale(r, encR, padding) >= 0.0
    ensures Scaled(encR, FitScale(r, encR, padding)) == Max(0.0, r - padding)
  {
  }

  /** A map in which child `j` of `a`, for `j < k`, has its value moved by
      `-origin` and scaled by `s`. */
  function Fitted(m: map<Addr, real>, a: Addr, k: nat, origin: real, s: real): map<Addr, real>
    decreases k
  {
    if k == 0 then m else Fitted(m, a, k - 1, origin, s)[a + [k - 1] := Scaled(ValueAt(m, a + [k - 1]) - origin, s)]
  }

  lemma {:induction false} FittedAt(m: map<Addr, real>, a: Addr, k: nat, origin: real, s: real, q: Addr)
    ensures var f := Fitted(m, a, k, origin, s);
      && (q in f <==> q in m || ChildIn(a, 0, k, q))
      && ValueAt(f, q) == if ChildIn(a, 0, k, q) then Scaled(ValueAt(m, q) - origin, s) else ValueAt(m, q)
    decreases k
  {
    if k > 0 {
      FittedAt(m, a, k - 1, origin, s, q);
      ChildAddr(a, k - 1, q);
    }
  }

  /** Fitting one more child reads that child's entry, still untouched. */
  lemma FittedStep(m: map<Addr, real>, a: Addr, k: nat, origin: real, s: real)
    ensures var f := Fitted(m, a, k, origin, s);
      f[a + [k] := Scaled(ValueAt(f, a + [k]) - origin, s)] == Fitted(m, a, k + 1, origin, s)
  {
    FittedAt(m, a, k, origin, s, a + [k]);
  }

  /** The geometry once the first `count` children of `a` are moved into the
      frame of the enclosing circle's centre and scaled. */
  function FitKids(g: Geometry, a: Addr, count: nat, enclosing: Circle, s: real): Geometry {
    g.(x := Fitted(g.x, a, count, enclosing.x, s), y := Fitted(g.y, a, count, enclosing.y, s))
  }

  /** The geometry as `layout(node)` leaves it, as a function of the geometry
      before the call. */
  ghost function LayoutPass(e: map<Addr, bool>, n: Node, a: Addr, g: Geometry, cfg: Config, pack: seq<real> -> Packing): Geometry
    decreases n, 1, 0
  {
    if |n.children| == 0 || !Expanded(e, a) then g
    else LayoutKids(e, n, a, |n.children|, Spread(g, a, |n.children|, cfg, pack), cfg, pack)
  }

  /** The children of an expanded node packed and fitted inside it. */
  function Spread(g: Geometry, a: Addr, count: nat, cfg: Config, pack: seq<real> -> Packing): Geometry {
    var p := PackKids(g.r, a, count, cfg.siblingPad, pack);
    FitKids(PlaceKids(g, a, p.centres, count), a, count, p.enclosing,
            FitScale(ValueAt(g.r, a), p.enclosing.r, cfg.padding))
  }

  /** The position pass over the first `k` children of `n`, in order. */
  ghost function LayoutKids(e: map<Addr, bool>, n: Node, a: Addr, k: nat, g: Geometry, cfg: Config,
                            pack: seq<real> -> Packing): Geometry
    requires k <= |n.children|
    decreases n, 0, k
  {
    if k == 0 then g
    else LayoutPass(e, n.children[k - 1], a + [k - 1], LayoutKids(e, n, a, k - 1, g, cfg, pack), cfg, pack)
  }

  /** The node `q` is reached by the position pass started at `a`: strictly
      below `a`, with every node from `a` down to its parent expanded. */
  ghost predicate Laid(root: Node, e: map<Addr, bool>, a: Addr, q: Addr) {
    a < q && IsAddr(root, q) && OpenBelow(e, a, q)
  }

  /** `q` is reached by the pass of one of the first `k` children of `a`. */
  ghost predicate LaidUpTo(root: Node, e: map<Addr, bool>, a: Addr, k: nat, q: Addr) {
    |q| > |a| + 1 && a < q && q[|a|] < k && Laid(root, e, a + [q[|a|]], q)
  }

  /** The local offset the position pass gives the node at `q`: its packed
      centre relative to the centre of its siblings' enclosing circle, times
      the fit scale of its parent. */
  ghost function FitOffset(root: Node, r: map<Addr, real>, q: Addr, cfg: Config, pack: seq<real> -> Packing): Point {
    if q == [] then Point(0.0, 0.0)
    else
      var parent := q[..|q| - 1];
      var count := if IsAddr(root, parent) then |NodeAt(root, parent).children| else 0;
      ChildOffset(r, parent, q[|q| - 1], count, cfg, pack)
  }

  /** The fitted offset of child `j` among the `count` children of `a`. */
  function ChildOffset(r: map<Addr, real>, a: Addr, j: nat, count: nat, cfg: Config, pack: seq<real> -> Packing): Point {
    var p := PackKids(r, a, count, cfg.siblingPad, pack);
    var s := FitScale(ValueAt(r, a), p.enclosing.r, cfg.padding);
    if j < |p.centres| then Point(Scaled(p.centres[j].x - p.enclosing.x, s), Scaled(p.centres[j].y - p.enclosing.y, s))
    else Point(0.0, 0.0)
  }

  /** A child whose packed centre lies inside its siblings' enclosing circle
      keeps, once fitted, its centre within `max(0, r - padding)` of its
      parent's centre, `r` being the parent's radius. */
  lemma ChildOffsetWithin(r: map<Addr, real>, a: Addr, j: nat, count: nat, cfg: Config, pack: seq<real> -> Packing)
    requires var p := PackKids(r, a, count, cfg.siblingPad, pack);
      && j < |p.centres| && p.enclosing.r > 0.0
      && (p.centres[j].x - p.enclosing.x) * (p.centres[j].x - p.enclosing.x)
         + (p.centres[j].y - p.enclosing.y) * (p.centres[j].y - p.enclosing.y)
         <= p.enclosing.r * p.enclosing.r
    ensures var o := ChildOffset(r, a, j, count, cfg, pack);
      var target := Max(0.0, ValueAt(r, a) - cfg.padding);
      o.x * o.x + o.y * o.y <= target * target
  {
    var p := PackKids(r, a, count, cfg.siblingPad, pack);
    var s := FitScale(ValueAt(r, a), p.enclosing.r, cfg.padding);
    var dx, dy, e := p.centres[j].x - p.enclosing.x, p.centres[j].y - p.enclosing.y, p.enclosing.r;
    FitScaleFits(ValueAt(r, a), e, cfg.padding);
    var target := Max(0.0, ValueAt(r, a) - cfg.padding);
    assert Scaled(dx, s) * Scaled(dx, s) + Scaled(dy, s) * Scaled(dy, s) == (s * s) * (dx * dx + dy * dy);
    assert (s * s) * (dx * dx + dy * dy) <= (s * s) * (e * e) by {
      assert s * s >= 0.0;
    }
    assert (s * s) * (e * e) == Scaled(e, s) * Scaled(e, s) == target * target;
  }

  /** The position pass at one address: radii are untouched; every node it
      reaches gets its fitted offset; every other offset, the node's own
      included, stays. */
  lemma {:induction false} LayoutPassAt(root: Node, e: map<Addr, bool>, n: Node, a: Addr, g: Geometry, cfg: Config,
                                        pack: seq<real> -> Packing, q: Addr)
    requires At(root, a) == Some(n) && PackerOk(pack)
    ensures var res := LayoutPass(e, n, a, g, cfg, pack);
      && res.r == g.r
      && (q in res.x <==> q in g.x || Laid(root, e, a, q))
      && (q in res.y <==> q in g.y || Laid(root, e, a, q))
      && ValueAt(res.x, q) == (if Laid(root, e, a, q) then FitOffset(root, g.r, q, cfg, pack).x else ValueAt(g.x, q))
      && ValueAt(res.y, q) == (if Laid(root, e, a, q) then FitOffset(root, g.r, q, cfg, pack).y else ValueAt(g.y, q))
    decreases n, 1, 0
  {
    var count := |n.children|;
    LaidSplit(root, e, n, a, q);
    if count > 0 && Expanded(e, a) {
      SpreadAt(root, n, a, g, cfg, pack, q);
      LayoutKidsAt(root, e, n, a, count, Spread(g, a, count, cfg, pack), cfg, pack, q);
    }
  }

  /** The nodes the position pass from `a` reaches: none below a leaf or a
      collapsed node; below an expanded node, its children and what each
      child's pass reaches. */
  lemma LaidSplit(root: Node, e: map<Addr, bool>, n: Node, a: Addr, q: Addr)
    requires At(root, a) == Some(n)
    ensures |n.children| == 0 || !Expanded(e, a) ==> !Laid(root, e, a, q)
    ensures Expanded(e, a) ==>
      (Laid(root, e, a, q) <==> ChildIn(a, 0, |n.children|, q) || LaidUpTo(root, e, a, |n.children|, q))
    ensures ChildIn(a, 0, |n.children|, q) ==> !LaidUpTo(root, e, a, |n.children|, q)
  {
    if a < q {
      assert q[..|a|] == a;
      assert a + [q[|a|]] <= q;
      if IsAddr(root, q) {
        ChildIndexInRange(root, a, q);
        OpenBelowStep(e, a, q[|a|], q);
        if |q| == |a| + 1 {
          assert OpenBelow(e, a, q) <==> Expanded(e, a);
        }
      }
      if ChildIn(a, 0, |n.children|, q) {
        AtChild(root, a, q[|a|]);
        ChildAddr(a, q[|a|], q);
      }
    }
  }

  /** Placing the first `count` children of `a` on their centres and then
      moving and scaling them: each such child ends at its centre's
      coordinate less `origin`, times `s`; every other entry stays. */
  lemma SpreadMapAt(m: map<Addr, real>, a: Addr, cs: seq<Point>, count: nat, sel: Point -> real,
                    origin: real, s: real, q: Addr)
    requires count <= |cs|
    ensures var res := Fitted(Placed(m, a, cs, count, sel), a, count, origin, s);
      && (q in res <==> q in m || ChildIn(a, 0, count, q))
      && ValueAt(res, q) == if ChildIn(a, 0, count, q) then Scaled(sel(cs[q[|a|]]) - origin, s) else ValueAt(m, q)
  {
    PlacedAt(m, a, cs, count, sel, q);
    FittedAt(Placed(m, a, cs, count, sel), a, count, origin, s, q);
  }

  /** Packing and fitting the children of an expanded node gives each child
      its fitted offset and leaves everything else as it was. */
  lemma SpreadAt(root: Node, n: Node, a: Addr, g: Geometry, cfg: Config, pack: seq<real> -> Packing, q: Addr)
    requires At(root, a) == Some(n) && PackerOk(pack)
    ensures var count := |n.children|;
      var sp := Spread(g, a, count, cfg, pack);
      && sp.r == g.r
      && (q in sp.x <==> q in g.x || ChildIn(a, 0, count, q))
      && (q in sp.y <==> q in g.y || ChildIn(a, 0, count, q))
      && ValueAt(sp.x, q) == (if ChildIn(a, 0, count, q) then FitOffset(root, g.r, q, cfg, pack).x else ValueAt(g.x, q))
      && ValueAt(sp.y, q) == (if ChildIn(a, 0, count, q) then FitOffset(root, g.r, q, cfg, pack).y else ValueAt(g.y, q))
  {
    var count := |n.children|;
    var p := PackKids(g.r, a, count, cfg.siblingPad, pack);
    var s := FitScale(ValueAt(g.r, a), p.enclosing.r, cfg.padding);
    assert |p.centres| == count;
    SpreadMapAt(g.x, a, p.centres, count, PointX, p.enclosing.x, s, q);
    SpreadMapAt(g.y, a, p.centres, count, PointY, p.enclosing.y, s, q);
    if ChildIn(a, 0, count, q) {
      var j := q[|a|];
      ChildAddr(a, j, q);
      assert q[..|q| - 1] == a && q[|q| - 1] == j;
      assert NodeAt(root, a) == n;
      assert FitOffset(root, g.r, q, cfg, pack) == ChildOffset(g.r, a, j, count, cfg, pack);
      SpreadChild(g, a, count, cfg, pack, j);
    }
  }

  /** The entry of child `j` after packing and fitting is its fitted offset. */
  lemma SpreadChild(g: Geometry, a: Addr, count: nat, cfg: Config, pack: seq<real> -> Packing, j: nat)
    requires j < count && PackerOk(pack)
    ensures var sp := Spread(g, a, count, cfg, pack);
      var off := ChildOffset(g.r, a, j, count, cfg, pack);
      ValueAt(sp.x, a + [j]) == off.x && ValueAt(sp.y, a + [j]) == off.y
  {
    var p := PackKids(g.r, a, count, cfg.siblingPad, pack);
    var s := FitScale(ValueAt(g.r, a), p.enclosing.r, cfg.padding);
    assert |p.centres| == count;
    SpreadMapAt(g.x, a, p.centres, count, PointX, p.enclosing.x, s, a + [j]);
    SpreadMapAt(g.y, a, p.centres, count, PointY, p.enclosing.y, s, a + [j]);
  }

  lemma {:induction false} LayoutKidsAt(root: Node, e: map<Addr, bool>, n: Node, a: Addr, k: nat, g: Geometry,
                                        cfg: Config, pack: seq<real> -> Packing, q: Addr)
    requires At(root, a) == Some(n) && k <= |n.children| && PackerOk(pack)
    ensures var res := LayoutKids(e, n, a, k, g, cfg, pack);
      && res.r == g.r
      && (q in res.x <==> q in g.x || LaidUpTo(root, e, a, k, q))
      && (q in res.y <==> q in g.y || LaidUpTo(root, e, a, k, q))
      && ValueAt(res.x, q) == (if LaidUpTo(root, e, a, k, q) then FitOffset(root, g.r, q, cfg, pack).x else ValueAt(g.x, q))
      && ValueAt(res.y, q) == (if LaidUpTo(root, e, a, k, q) then FitOffset(root, g.r, q, cfg, pack).y else ValueAt(g.y, q))
    decreases n, 0, k
  {
    if k > 0 {
      LayoutKidsAt(root, e, n, a, k - 1, g, cfg, pack, q);
      AtChild(root, a, k - 1);
      LayoutPassAt(root, e, n.children[k - 1], a + [k - 1], LayoutKids(e, n, a, k - 1, g, cfg, pack), cfg, pack, q);
      if a < q {
        assert a + [q[|a|]] <= q;
      }
    }
  }

  /** `layout(node)`: for an expanded node with children, packs the children,
      moves each into the frame of the enclosing circle's centre scaled to fit
      inside the node, then lays out each child in turn; nothing happens at a
      leaf or a collapsed node. Radii are never changed. */
  method Layout(h: Hierarchy, a: Addr, cfg: Config, pack: seq<real> -> Packing)
    requires h.Shaped() && h.ExpandedOk() && h.RadiusOk() && IsAddr(h.root, a) && PackerOk(pack)
    modifies h`r, h`x, h`y
    ensures h.r == old(h.r)
    ensures Geometry(h.r, h.x, h.y) == LayoutPass(h.expanded, NodeAt(h.root, a), a, Geometry(old(h.r), old(h.x), old(h.y)), cfg, pack)
    decreases NodeAt(h.root, a), 1
  {
    var n := NodeAt(h.root, a);
    if |n.children| == 0 {
      return;
    }
    assert a in h.addrs;
    if !h.expanded[a] {
      return;
    }
    var enclosing := PackWithPadding(h, a, cfg.siblingPad, pack);
    var targetR := Max(0.0, h.r[a] - cfg.padding);
    var scale := if enclosing.r > 0.0 then targetR / enclosing.r else 1.0;
    CentreAndScale(h, a, |n.children|, enclosing, scale);
    assert Geometry(h.r, h.x, h.y) == Spread(Geometry(old(h.r), old(h.x), old(h.y)), a, |n.children|, cfg, pack);
    LayoutChildren(h, a, cfg, pack);
  }

  /** `kids.forEach(c => { c.x = (c.x - enclosing.x) * scale; ... })`. */
  method CentreAndScale(h: Hierarchy, a: Addr, count: nat, enclosing: Circle, scale: real)
    modifies h`x, h`y
    ensures Geometry(h.r, h.x, h.y) == FitKids(Geometry(old(h.r), old(h.x), old(h.y)), a, count, enclosing, scale)
  {
    var k: nat := 0;
    while k < count
      invariant k <= count
      invariant h.x == Fitted(old(h.x), a, k, enclosing.x, scale)
      invariant h.y == Fitted(old(h.y), a, k, enclosing.y, scale)
    {
      FittedStep(old(h.x), a, k, enclosing.x, scale);
      FittedStep(old(h.y), a, k, enclosing.y, scale);
      h.x := h.x[a + [k] := Scaled(ValueAt(h.x, a + [k]) - enclosing.x, scale)];
      h.y := h.y[a + [k] := Scaled(ValueAt(h.y, a + [k]) - enclosing.y, scale)];
      k := k + 1;
    }
  }

  /** `kids.forEach(layout)`. */
  method LayoutChildren(h: Hierarchy, a: Addr, cfg: Config, pack: seq<real> -> Packing)
    requires h.Shaped() && h.ExpandedOk() && h.RadiusOk() && IsAddr(h.root, a) && PackerOk(pack)
    modifies h`r, h`x, h`y
    ensures h.r == old(h.r)
    ensures var n := NodeAt(h.root, a);
      Geometry(h.r, h.x, h.y) == LayoutKids(h.expanded, n, a, |n.children|, Geometry(old(h.r), old(h.x), old(h.y)), cfg, pack)
    decreases NodeAt(h.root, a), 0
  {
    var n := NodeAt(h.root, a);
    var k: nat := 0;
    while k < |n.children|
      invariant k <= |n.children| && h.r == old(h.r)
      invariant Geometry(h.r, h.x, h.y) == LayoutKids(h.expanded, n, a, k, Geometry(old(h.r), old(h.x), old(h.y)), cfg, pack)
    {
      AtChild(h.root, a, k);
      Layout(h, a + [k], cfg, pack);
      k := k + 1;
    }
  }

  // ---------------------------------------------------------------------
  // recomputeAll

  /** A link together with the nodes its source and target ids resolve to. */
  datatype Endpoints = Endpoints(link: Link, sourceNode: Addr, targetNode: Addr)

  function LinksOf(l: seq<Endpoints>): (links: seq<Link>)
    ensures |links| == |l| && forall i :: 0 <= i < |l| ==> links[i] == l[i].link
  {
    if l == [] then [] else [l[0].link] + LinksOf(l[1..])
  }

  /** The `links.map(...).filter(Boolean)` step: a link is kept, with both
      resolved nodes, exactly when both its ids are in the index. */
  function ResolveEndpoints(links: seq<Link>, index: map<string, Addr>): (resolved: seq<Endpoints>)
    ensures forall en :: en in resolved ==>
      && en.link in links && en.link.source in index && en.link.target in index
      && en.sourceNode == index[en.link.source] && en.targetNode == index[en.link.target]
    ensures forall l :: l in links && l.source in index && l.target in index ==>
      Endpoints(l, index[l.source], index[l.target]) in resolved
    decreases |links|
  {
    if links == [] then []
    else
      var l := links[0];
      var rest := ResolveEndpoints(links[1..], index);
      assert forall l' :: l' in links[1..] ==> l' in links;
      if l.source in index && l.target in index then [Endpoints(l, index[l.source], index[l.target])] + rest
      else rest
  }

  /** A link with both ids in the index is resolved as often as it occurs;
      any other is dropped. */
  lemma {:induction false} ResolvedCounts(links: seq<Link>, index: map<string, Addr>, l: Link)
    ensures multiset(LinksOf(ResolveEndpoints(links, index)))[l]
         == if l.source in index && l.target in index then multiset(links)[l] else 0
    decreases |links|
  {
    if links != [] {
      ResolvedCounts(links[1..], index, l);
      assert links == [links[0]] + links[1..];
      var h := links[0];
      var rest := ResolveEndpoints(links[1..], index);
      if h.source in index && h.target in index {
        assert LinksOf([Endpoints(h, index[h.source], index[h.target])] + rest) == [h] + LinksOf(rest);
      }
    }
  }

  /** The resolved links keep their input order. */
  lemma {:induction false} ResolvedInOrder(links: seq<Link>, index: map<string, Addr>)
    ensures IsSubseq(LinksOf(ResolveEndpoints(links, index)), links)
    decreases |links|
  {
    if links == [] {
      IsSubseqNil(links);
    } else {
      var l := links[0];
      var rest := ResolveEndpoints(links[1..], index);
      ResolvedInOrder(links[1..], index);
      assert [l] + links[1..] == links;
      if l.source in index && l.target in index {
        assert LinksOf([Endpoints(l, index[l.source], index[l.target])] + rest) == [l] + LinksOf(rest);
        IsSubseqCons(l, LinksOf(rest), links[1..]);
      } else {
        IsSubseqSkip(l, LinksOf(rest), links[1..]);
      }
    }
  }

  /** Both ends of every resolved link are nodes of the tree carrying the
      link's ids. */
  ghost predicate EndpointsInTree(root: Node, eps: seq<Endpoints>) {
    forall en :: en in eps ==>
      && IsAddr(root, en.sourceNode) && NodeAt(root, en.sourceNode).id == en.link.source
      && IsAddr(root, en.targetNode) && NodeAt(root, en.targetNode).id == en.link.target
  }

  /** Resolving against the index of the whole tree yields links whose
      resolved nodes are tree nodes with the link's ids. */
  lemma ResolvedInTree(root: Node, links: seq<Link>)
    ensures EndpointsInTree(root, ResolveEndpoints(links, Indexed(root, map[], PreOrder(root, []))))
  {
    IndexCoversTree(root);
  }

  /** Over a map covering every node, the radius pass keeps covering exactly
      the nodes and gives every node its `RadiusOf`. */
  lemma RadiusPassWhole(root: Node, addrs: set<Addr>, e: map<Addr, bool>, g: Geometry, cfg: Config,
                        pack: seq<real> -> Packing)
    requires forall q {:trigger q in addrs} :: q in addrs <==> IsAddr(root, q)
    requires g.r.Keys == addrs && g.x.Keys == addrs && g.y.Keys == addrs
    ensures var res := RadiusPass(e, root, [], g, cfg, pack);
      && res.r.Keys == addrs && res.x.Keys == addrs && res.y.Keys == addrs
      && forall q :: q in addrs ==> res.r[q] == RadiusOf(e, NodeAt(root, q), q, cfg, pack)
  {
    var res := RadiusPass(e, root, [], g, cfg, pack);
    forall q
      ensures (q in res.r <==> q in addrs) && (q in res.x <==> q in addrs) && (q in res.y <==> q in addrs)
      ensures q in addrs ==> res.r[q] == RadiusOf(e, NodeAt(root, q), q, cfg, pack)
    {
      RadiusPassAt(root, e, root, [], g, cfg, pack, q);
      RadiusPassMoves(root, e, root, [], g, cfg, pack, q);
    }
  }

  /** Over a map covering every node, the position pass keeps radii and
      coverage, gives every node it reaches its fitted offset and leaves the
      root's offset alone. */
  lemma LayoutPassWhole(root: Node, addrs: set<Addr>, e: map<Addr, bool>, g: Geometry, cfg: Config,
                        pack: seq<real> -> Packing)
    requires forall q {:trigger q in addrs} :: q in addrs <==> IsAddr(root, q)
    requires g.x.Keys == addrs && g.y.Keys == addrs && PackerOk(pack)
    ensures var res := LayoutPass(e, root, [], g, cfg, pack);
      && res.r == g.r && res.x.Keys == addrs && res.y.Keys == addrs
      && (forall q :: Laid(root, e, [], q) ==>
            res.x[q] == FitOffset(root, g.r, q, cfg, pack).x && res.y[q] == FitOffset(root, g.r, q, cfg, pack).y)
      && ValueAt(res.x, []) == ValueAt(g.x, []) && ValueAt(res.y, []) == ValueAt(g.y, [])
  {
    var res := LayoutPass(e, root, [], g, cfg, pack);
    LayoutPassAt(root, e, root, [], g, cfg, pack, []);
    forall q
      ensures res.r == g.r && (q in res.x <==> q in addrs) && (q in res.y <==> q in addrs)
      ensures Laid(root, e, [], q) ==>
        res.x[q] == FitOffset(root, g.r, q, cfg, pack).x && res.y[q] == FitOffset(root, g.r, q, cfg, pack).y
    {
      LayoutPassAt(root, e, root, [], g, cfg, pack, q);
    }
  }

  /** Every node's radius is the one the radius pass defines for it. */
  ghost predicate RadiiComputed(root: Node, e: map<Addr, bool>, r: map<Addr, real>, cfg: Config,
                                pack: seq<real> -> Packing)
  {
    forall q {:trigger ValueAt(r, q)} :: IsAddr(root, q) ==> ValueAt(r, q) == RadiusOf(e, NodeAt(root, q), q, cfg, pack)
  }

  /** Every node reached from the root through expanded nodes only has the
      offset the position pass defines for it; the root sits at the origin. */
  ghost predicate OffsetsComputed(root: Node, e: map<Addr, bool>, r: map<Addr, real>, x: map<Addr, real>,
                                  y: map<Addr, real>, cfg: Config, pack: seq<real> -> Packing)
  {
    && ValueAt(x, []) == 0.0 && ValueAt(y, []) == 0.0
    && (forall q {:trigger ValueAt(x, q)} :: Laid(root, e, [], q) ==> ValueAt(x, q) == FitOffset(root, r, q, cfg, pack).x)
    && (forall q {:trigger ValueAt(y, q)} :: Laid(root, e, [], q) ==> ValueAt(y, q) == FitOffset(root, r, q, cfg, pack).y)
  }

  /** Every absolute coordinate of a node reached through expanded nodes
      only is the sum of the offsets on its path; the others are kept. */
  ghost predicate AbsComputed(e: map<Addr, bool>, off: map<Addr, real>, abs0: map<Addr, real>,
                              abs: map<Addr, real>)
  {
    forall q {:trigger abs[q]} :: q in abs ==> abs[q] == if OpenBelow(e, [], q) then Acc(off, [], 0.0, q) else ValueAt(abs0, q)
  }

  /** With the offsets and absolute positions of a whole recomputation, the
      root's absolute position is the origin. */
  lemma RootAtOrigin(root: Node, e: map<Addr, bool>, r: map<Addr, real>, x: map<Addr, real>, y: map<Addr, real>,
                     cfg: Config, pack: seq<real> -> Packing, absX0: map<Addr, real>, absX: map<Addr, real>,
                     absY0: map<Addr, real>, absY: map<Addr, real>)
    requires OffsetsComputed(root, e, r, x, y, cfg, pack)
    requires AbsComputed(e, x, absX0, absX) && AbsComputed(e, y, absY0, absY)
    requires [] in absX && [] in absY
    ensures absX[[]] == 0.0 && absY[[]] == 0.0
  {
    assert OpenBelow(e, [], []);
  }

  /** The radius pass over the whole tree. */
  method RadiiAll(h: Hierarchy, cfg: Config, pack: seq<real> -> Packing)
    requires h.Shaped() && h.ExpandedOk() && h.RadiusOk() && h.OffsetsOk() && PackerOk(pack)
    modifies h`r, h`x, h`y
    ensures h.RadiusOk() && h.OffsetsOk()
    ensures RadiiComputed(h.root, h.expanded, h.r, cfg, pack)
  {
    RadiusPassWhole(h.root, h.addrs, h.expanded, Geometry(h.r, h.x, h.y), cfg, pack);
    var _ := ComputeRadius(h, [], cfg, pack);
  }

  /** The root placed at the origin, then the position pass over the whole
      tree; radii are kept. */
  method OffsetsAll(h: Hierarchy, cfg: Config, pack: seq<real> -> Packing)
    requires h.Shaped() && h.ExpandedOk() && h.RadiusOk() && h.OffsetsOk() && PackerOk(pack)
    modifies h`r, h`x, h`y
    ensures h.r == old(h.r) && h.OffsetsOk()
    ensures OffsetsComputed(h.root, h.expanded, h.r, h.x, h.y, cfg, pack)
  {
    assert [] in h.addrs;
    h.x := h.x[[] := 0.0];
    h.y := h.y[[] := 0.0];
    LayoutPassWhole(h.root, h.addrs, h.expanded, Geometry(h.r, h.x, h.y), cfg, pack);
    Layout(h, [], cfg, pack);
  }

  /** The geometric part of `recomputeAll`: the radius pass, the root
      placed at the origin, then the position pass. */
  method LayoutAll(h: Hierarchy, cfg: Config, pack: seq<real> -> Packing)
    requires h.Shaped() && h.ExpandedOk() && h.RadiusOk() && h.OffsetsOk() && PackerOk(pack)
    modifies h`r, h`x, h`y
    ensures h.RadiusOk() && h.OffsetsOk()
    ensures RadiiComputed(h.root, h.expanded, h.r, cfg, pack)
    ensures OffsetsComputed(h.root, h.expanded, h.r, h.x, h.y, cfg, pack)
  {
    RadiiAll(h, cfg, pack);
    OffsetsAll(h, cfg, pack);
  }

  /** The absolute-position part of `recomputeAll`, from the root at the
      origin. */
  method PositionAll(h: Hierarchy)
    requires h.Shaped() && h.ExpandedOk() && h.OffsetsOk() && h.AbsOk()
    modifies h`absX, h`absY
    ensures h.AbsOk()
    ensures AbsComputed(h.expanded, h.x, old(h.absX), h.absX) && AbsComputed(h.expanded, h.y, old(h.absY), h.absY)
  {
    ComputeAbsolutePositions(h, [], 0.0, 0.0);
  }

  /** The whole geometric part of `recomputeAll`: radii, offsets, then
      absolute positions. */
  method GeometryAll(h: Hierarchy, cfg: Config, pack: seq<real> -> Packing)
    requires h.Shaped() && h.ExpandedOk() && h.RadiusOk() && h.OffsetsOk() && h.AbsOk() && PackerOk(pack)
    modifies h`r, h`x, h`y, h`absX, h`absY
    ensures h.RadiusOk() && h.OffsetsOk() && h.AbsOk()
    ensures RadiiComputed(h.root, h.expanded, h.r, cfg, pack)
    ensures OffsetsComputed(h.root, h.expanded, h.r, h.x, h.y, cfg, pack)
    ensures AbsComputed(h.expanded, h.x, old(h.absX), h.absX) && AbsComputed(h.expanded, h.y, old(h.absY), h.absY)
  {
    LayoutAll(h, cfg, pack);
    PositionAll(h);
  }

  /** `recomputeAll(root, links)`: lays the tree out, computes absolute
      positions (the root's is the origin), indexes every node by id and
      resolves the links whose two ends are both in that index. */
  method RecomputeAll(h: Hierarchy, links: seq<Link>, cfg: Config, pack: seq<real> -> Packing)
    returns (nodeById: map<string, Addr>, linkEndpoints: seq<Endpoints>)
    requires h.Shaped() && h.ExpandedOk() && h.RadiusOk() && h.OffsetsOk() && h.AbsOk() && PackerOk(pack)
    modifies h`r, h`x, h`y, h`absX, h`absY
    ensures h.RadiusOk() && h.OffsetsOk() && h.AbsOk()
    ensures RadiiComputed(h.root, h.expanded, h.r, cfg, pack)
    ensures OffsetsComputed(h.root, h.expanded, h.r, h.x, h.y, cfg, pack)
    ensures AbsComputed(h.expanded, h.x, old(h.absX), h.absX) && AbsComputed(h.expanded, h.y, old(h.absY), h.absY)
    ensures nodeById == Indexed(h.root, map[], PreOrder(h.root, []))
    ensures linkEndpoints == ResolveEndpoints(links, nodeById)
    ensures EndpointsInTree(h.root, linkEndpoints)
    ensures h.absX[[]] == 0.0 && h.absY[[]] == 0.0
  {
    GeometryAll(h, cfg, pack);
    assert [] in h.addrs;
    RootAtOrigin(h.root, h.expanded, h.r, h.x, h.y, cfg, pack, old(h.absX), h.absX, old(h.absY), h.absY);
    nodeById := IndexAllNodes(h, [], map[]);
    linkEndpoints := ResolveEndpoints(links, nodeById);
    ResolvedInTree(h.root, links);
  }
}
