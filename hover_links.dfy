/** The hover highlighter of js/hoverLinks.js: the visible proxy of a node,
    the links drawn while a node is hovered, and the dim / active /
    connected classes of the drawn nodes and lines. Links are drawn only on
    hover (the configuration's `SHOW_LINKS_ONLY_ON_HOVER` is true), so
    clearing the highlight also removes every line. */
module HoverLinks {
  import opened Topology
  import opened NodeTree
  import opened Model
  import opened Layout

  /** The configured cap on the number of links drawn for one hover. */
  const MaxHoverLinks: nat := 300

  // ---------------------------------------------------------------------
  // visibleProxy

  /** The nearest inclusive ancestor of `a` whose id is visible, or None
      once the walk has passed the root. */
  function Proxy(root: Node, vis: set<string>, a: Addr): (p: Option<Addr>)
    requires IsAddr(root, a)
    ensures p.Some? ==> p.value <= a && IsAddr(root, p.value) && NodeAt(root, p.value).id in vis
    decreases |a|
  {
    if NodeAt(root, a).id in vis then Some(a)
    else if a == [] then None
    else
      var p := a[..|a| - 1];
      PrefixIsAddr(root, p, a);
      Proxy(root, vis, p)
  }

  /** A found proxy is an ancestor of `a` (or `a` itself) with a visible id,
      and no node strictly between it and `a` is visible; when there is no
      proxy, no node on the path from the root to `a` is visible. */
  lemma {:induction false} ProxyNearest(root: Node, vis: set<string>, a: Addr)
    requires IsAddr(root, a)
    ensures match Proxy(root, vis, a)
      case Some(p) =>
        && p <= a && IsAddr(root, p) && NodeAt(root, p).id in vis
        && forall j :: |p| < j <= |a| ==> IsAddr(root, a[..j]) && NodeAt(root, a[..j]).id !in vis
      case None =>
        forall j :: 0 <= j <= |a| ==> IsAddr(root, a[..j]) && NodeAt(root, a[..j]).id !in vis
    decreases |a|
  {
    assert a[..|a|] == a;
    if NodeAt(root, a).id !in vis && a != [] {
      var p := a[..|a| - 1];
      PrefixIsAddr(root, p, a);
      ProxyNearest(root, vis, p);
      forall j | 0 <= j <= |p| ensures a[..j] == p[..j] {
      }
    }
  }

  // ---------------------------------------------------------------------
  // computeResolvedLinksForHosts

  /** Both resolved nodes of every link are nodes of the tree. */
  ghost predicate Anchored(root: Node, eps: seq<Endpoints>) {
    forall e :: e in eps ==> IsAddr(root, e.sourceNode) && IsAddr(root, e.targetNode)
  }

  /** A link to draw: the resolved link and the visible proxies of its two
      ends. */
  datatype Resolved = Resolved(ep: Endpoints, sp: Addr, tp: Addr)

  function EndpointsOf(rs: seq<Resolved>): (eps: seq<Endpoints>)
    ensures |eps| == |rs| && forall k :: 0 <= k < |rs| ==> eps[k] == rs[k].ep
  {
    if rs == [] then [] else [rs[0].ep] + EndpointsOf(rs[1..])
  }

  /** A link touches the host set through its source or target id. */
  predicate Touches(e: Endpoints, hs: set<string>) {
    e.link.source in hs || e.link.target in hs
  }

  /** The `linkEndpoints.filter(...)` step. */
  function Touching(eps: seq<Endpoints>, hs: set<string>): (f: seq<Endpoints>)
    ensures forall e :: e in f <==> e in eps && Touches(e, hs)
    decreases |eps|
  {
    if eps == [] then []
    else
      var rest := Touching(eps[1..], hs);
      assert forall e :: e in eps <==> e == eps[0] || e in eps[1..];
      if Touches(eps[0], hs) then [eps[0]] + rest else rest
  }

  lemma {:induction false} TouchingInOrder(eps: seq<Endpoints>, hs: set<string>)
    ensures IsSubseq(Touching(eps, hs), eps)
    decreases |eps|
  {
    if eps == [] {
      IsSubseqNil(eps);
    } else {
      TouchingInOrder(eps[1..], hs);
      assert [eps[0]] + eps[1..] == eps;
      if Touches(eps[0], hs) {
        IsSubseqCons(eps[0], Touching(eps[1..], hs), eps[1..]);
      } else {
        IsSubseqSkip(eps[0], Touching(eps[1..], hs), eps[1..]);
      }
    }
  }

  /** The filter keeps every touching link as often as it occurs, and
      drops every other. */
  lemma {:induction false} TouchingCounts(eps: seq<Endpoints>, hs: set<string>, e: Endpoints)
    ensures multiset(Touching(eps, hs))[e] == if Touches(e, hs) then multiset(eps)[e] else 0
    decreases |eps|
  {
    if eps != [] {
      TouchingCounts(eps[1..], hs, e);
      assert eps == [eps[0]] + eps[1..];
    }
  }

  /** The `map(...).filter(Boolean)` step: a link is kept, with its two
      proxies, exactly when both proxies exist. */
  function WithProxies(root: Node, vis: set<string>, l: seq<Endpoints>): (r: seq<Resolved>)
    requires Anchored(root, l)
    ensures |r| <= |l|
    ensures forall x :: x in r ==>
      && x.ep in l && Proxy(root, vis, x.ep.sourceNode) == Some(x.sp) && Proxy(root, vis, x.ep.targetNode) == Some(x.tp)
    ensures forall e :: e in l && Proxy(root, vis, e.sourceNode).Some? && Proxy(root, vis, e.targetNode).Some? ==>
      Resolved(e, Proxy(root, vis, e.sourceNode).value, Proxy(root, vis, e.targetNode).value) in r
    decreases |l|
  {
    if l == [] then []
    else
      var e := l[0];
      assert forall e' :: e' in l <==> e' == e || e' in l[1..];
      var rest := WithProxies(root, vis, l[1..]);
      var sp := Proxy(root, vis, e.sourceNode);
      var tp := Proxy(root, vis, e.targetNode);
      if sp.Some? && tp.Some? then [Resolved(e, sp.value, tp.value)] + rest else rest
  }

  lemma {:induction false} WithProxiesInOrder(root: Node, vis: set<string>, l: seq<Endpoints>)
    requires Anchored(root, l)
    ensures IsSubseq(EndpointsOf(WithProxies(root, vis, l)), l)
    decreases |l|
  {
    if l == [] {
      IsSubseqNil(l);
    } else {
      var e := l[0];
      var rest := WithProxies(root, vis, l[1..]);
      WithProxiesInOrder(root, vis, l[1..]);
      assert [e] + l[1..] == l;
      var sp := Proxy(root, vis, e.sourceNode);
      var tp := Proxy(root, vis, e.targetNode);
      if sp.Some? && tp.Some? {
        var r := [Resolved(e, sp.value, tp.value)] + rest;
        assert EndpointsOf(r) == [e] + EndpointsOf(rest);
        IsSubseqCons(e, EndpointsOf(rest), l[1..]);
      } else {
        IsSubseqSkip(e, EndpointsOf(rest), l[1..]);
      }
    }
  }

  /** A link with both proxies is kept as often as it occurs; any other is
      dropped. */
  lemma {:induction false} WithProxiesCounts(root: Node, vis: set<string>, l: seq<Endpoints>, e: Endpoints)
    requires Anchored(root, l)
    ensures multiset(EndpointsOf(WithProxies(root, vis, l)))[e]
         == if e in l && Proxy(root, vis, e.sourceNode).Some? && Proxy(root, vis, e.targetNode).Some? then multiset(l)[e] else 0
    decreases |l|
  {
    if l != [] {
      WithProxiesCounts(root, vis, l[1..], e);
      assert l == [l[0]] + l[1..];
      var rest := WithProxies(root, vis, l[1..]);
      var sp := Proxy(root, vis, l[0].sourceNode);
      var tp := Proxy(root, vis, l[0].targetNode);
      if sp.Some? && tp.Some? {
        assert EndpointsOf([Resolved(l[0], sp.value, tp.value)] + rest) == [l[0]] + EndpointsOf(rest);
      }
    }
  }

  /** The first `max` links of `f` (all of them when there are fewer). */
  function Capped(f: seq<Endpoints>, max: nat): (c: seq<Endpoints>)
    ensures c <= f
    ensures |c| == if |f| <= max then |f| else max
  {
    if |f| > max then f[..max] else f
  }

  /** `computeResolvedLinksForHosts(hostIdSet)`: nothing for a missing or
      empty host set; otherwise the links touching the set, capped at `max`,
      each with both visible proxies, dropping those lacking one. */
  function ResolvedLinks(root: Node, vis: set<string>, eps: seq<Endpoints>, hostIds: Option<set<string>>,
                         max: nat): (r: seq<Resolved>)
    requires Anchored(root, eps)
    ensures hostIds == None || hostIds == Some({}) ==> r == []
    ensures |r| <= max
    ensures forall x :: x in r ==>
      && x.ep in eps && hostIds.Some? && Touches(x.ep, hostIds.value)
      && Proxy(root, vis, x.ep.sourceNode) == Some(x.sp) && Proxy(root, vis, x.ep.targetNode) == Some(x.tp)
      && LineInTree(root, x)
  {
    match hostIds
    case None => []
    case Some(hs) =>
      if |hs| == 0 then []
      else
        var c := Capped(Touching(eps, hs), max);
        assert forall e :: e in c ==> e in Touching(eps, hs);
        WithProxies(root, vis, c)
  }

  /** The drawn links keep the input order and come from the first `max`
      links that touch the host set. */
  lemma ResolvedLinksInOrder(root: Node, vis: set<string>, eps: seq<Endpoints>, hs: set<string>, max: nat)
    requires Anchored(root, eps) && hs != {}
    ensures IsSubseq(EndpointsOf(ResolvedLinks(root, vis, eps, Some(hs), max)), Capped(Touching(eps, hs), max))
    ensures IsSubseq(EndpointsOf(ResolvedLinks(root, vis, eps, Some(hs), max)), eps)
  {
    var f := Touching(eps, hs);
    var c := Capped(f, max);
    var r := EndpointsOf(ResolvedLinks(root, vis, eps, Some(hs), max));
    WithProxiesInOrder(root, vis, c);
    IsSubseqOfPrefix(r, f, |c|);
    assert f[..|c|] == c;
    TouchingInOrder(eps, hs);
    IsSubseqTrans(r, f, eps);
  }

  /** Every link among the first `max` touching links whose two proxies
      exist is drawn. */
  lemma ResolvedLinksComplete(root: Node, vis: set<string>, eps: seq<Endpoints>, hs: set<string>, max: nat,
                              e: Endpoints)
    requires Anchored(root, eps) && hs != {} && e in Capped(Touching(eps, hs), max)
    requires IsAddr(root, e.sourceNode) && IsAddr(root, e.targetNode)
    requires Proxy(root, vis, e.sourceNode).Some? && Proxy(root, vis, e.targetNode).Some?
    ensures Resolved(e, Proxy(root, vis, e.sourceNode).value, Proxy(root, vis, e.targetNode).value)
      in ResolvedLinks(root, vis, eps, Some(hs), max)
  {
    var c := Capped(Touching(eps, hs), max);
    assert forall e' :: e' in c ==> e' in Touching(eps, hs);
  }

  // ---------------------------------------------------------------------
  // The highlight classes

  /** The three classes a drawn node can carry. */
  datatype NodeFlags = NodeFlags(dim: bool, active: bool, connected: bool)

  /** A drawn line: the link it shows and its two classes. */
  datatype Line = Line(link: Resolved, dim: bool, active: bool)

  const Plain := NodeFlags(false, false, false)

  /** Every node of `m` with all three classes off. */
  function Cleared(m: map<string, NodeFlags>): (c: map<string, NodeFlags>)
    ensures c.Keys == m.Keys && forall id :: id in c ==> !c[id].dim && !c[id].active && !c[id].connected
  {
    map id | id in m :: Plain
  }

  /** All four addresses a drawn line refers to are tree nodes. */
  predicate LineInTree(root: Node, x: Resolved) {
    IsAddr(root, x.ep.sourceNode) && IsAddr(root, x.ep.targetNode) && IsAddr(root, x.sp) && IsAddr(root, x.tp)
  }

  /** A line matches when the id of its source or target host is in the
      hovered subtree's host set. */
  predicate Matches(root: Node, hs: set<string>, x: Resolved)
    requires LineInTree(root, x)
  {
    NodeAt(root, x.ep.sourceNode).id in hs || NodeAt(root, x.ep.targetNode).id in hs
  }

  /** Some of the first `k` lines matches. */
  predicate AnyMatchUpTo(root: Node, hs: set<string>, rs: seq<Resolved>, k: nat)
    requires k <= |rs| && forall x :: x in rs ==> LineInTree(root, x)
  {
    exists j :: 0 <= j < k && Matches(root, hs, rs[j])
  }

  /** An id that is not empty (the source skips a falsy id). */
  function NonEmpty(id: string): set<string> {
    if id != "" then {id} else {}
  }

  /** The ids of the proxies of the matching lines among the first `k`. */
  function ShownUpTo(root: Node, hs: set<string>, rs: seq<Resolved>, k: nat): set<string>
    requires k <= |rs| && forall x :: x in rs ==> LineInTree(root, x)
  {
    if k == 0 then {}
    else
      var x := rs[k - 1];
      ShownUpTo(root, hs, rs, k - 1)
        + if Matches(root, hs, x) then NonEmpty(NodeAt(root, x.sp).id) + NonEmpty(NodeAt(root, x.tp).id) else {}
  }

  /** The ids of the shown nodes are exactly the non-empty proxy ids of the
      matching lines. */
  lemma {:induction false} ShownUpToExact(root: Node, hs: set<string>, rs: seq<Resolved>, k: nat, id: string)
    requires k <= |rs| && forall x :: x in rs ==> LineInTree(root, x)
    ensures id in ShownUpTo(root, hs, rs, k) <==>
      id != "" && exists j :: 0 <= j < k && Matches(root, hs, rs[j]) && (NodeAt(root, rs[j].sp).id == id || NodeAt(root, rs[j].tp).id == id)
    decreases k
  {
    if k > 0 {
      ShownUpToExact(root, hs, rs, k - 1, id);
      var x := rs[k - 1];
      if id in ShownUpTo(root, hs, rs, k) && id !in ShownUpTo(root, hs, rs, k - 1) {
        assert Matches(root, hs, rs[k - 1]) && (NodeAt(root, x.sp).id == id || NodeAt(root, x.tp).id == id);
      }
    }
  }

  /** The lines after the matching step: matching lines active and not dim,
      the others dim and not active. */
  function Marked(root: Node, hs: set<string>, rs: seq<Resolved>): (ls: seq<Line>)
    requires forall x :: x in rs ==> LineInTree(root, x)
    ensures |ls| == |rs|
    ensures forall k :: 0 <= k < |rs| ==>
      ls[k].link == rs[k] && (ls[k].active <==> Matches(root, hs, rs[k])) && ls[k].dim == !ls[k].active
  {
    seq(|rs|, k requires 0 <= k < |rs| => Line(rs[k], !Matches(root, hs, rs[k]), Matches(root, hs, rs[k])))
  }

  /** The lines as drawn for `rs`, each dimmed and not active. */
  function Dimmed(rs: seq<Resolved>): (ls: seq<Line>)
    ensures |ls| == |rs| && forall k :: 0 <= k < |rs| ==> ls[k] == Line(rs[k], true, false)
  {
    seq(|rs|, k requires 0 <= k < |rs| => Line(rs[k], true, false))
  }

  /** The node classes after a hover that matched: the shown proxies are
      connected and not dim, the hovered node is active and not dim, every
      other node is dim and neither active nor connected. */
  function Highlighted(m: map<string, NodeFlags>, show: set<string>, hovered: string): (h: map<string, NodeFlags>)
    ensures h.Keys == m.Keys
    ensures forall id :: id in h && id in show ==> !h[id].dim && h[id].connected
    ensures forall id :: id in h && id == hovered ==> !h[id].dim && h[id].active
    ensures forall id :: id in h && id !in show && id != hovered ==> h[id] == NodeFlags(true, false, false)
    ensures forall id :: id in h && id != hovered ==> !h[id].active
    ensures forall id :: id in h && id !in show ==> !h[id].connected
  {
    map id | id in m :: NodeFlags(id !in show && id != hovered, id == hovered, id in show)
  }

  /** When every link's resolved nodes carry the link's ids (as recomputeAll
      guarantees), every drawn line matches the host set it was drawn for,
      so a hover matches some line exactly when it draws one. */
  lemma DrawnLinesMatch(root: Node, vis: set<string>, eps: seq<Endpoints>, hs: set<string>, max: nat)
    requires EndpointsInTree(root, eps)
    ensures Anchored(root, eps)
    ensures var rs := ResolvedLinks(root, vis, eps, Some(hs), max);
      && (forall k :: 0 <= k < |rs| ==> Matches(root, hs, rs[k]))
      && (AnyMatchUpTo(root, hs, rs, |rs|) <==> rs != [])
  {
    var rs := ResolvedLinks(root, vis, eps, Some(hs), max);
    if rs != [] {
      assert rs[0] in rs;
    }
  }

  /** The hover highlighter: the drawn lines (only the links of the current
      hover) and the classes of the drawn nodes, keyed by node id. */
  class HoverHighlighter {
    const root: Node
    const visibleIds: set<string>
    const linkEndpoints: seq<Endpoints>
    const maxHoverLinks: nat
    var lines: seq<Line>
    var nodeFlags: map<string, NodeFlags>

    ghost predicate Valid() {
      Anchored(root, linkEndpoints)
    }

    /** `createHoverHighlighter(...)` over a freshly rendered view: one
        unclassed node per visible id and no lines. */
    constructor (root: Node, visibleIds: set<string>, linkEndpoints: seq<Endpoints>, maxHoverLinks: nat)
      requires Anchored(root, linkEndpoints)
      ensures Valid()
      ensures this.root == root && this.visibleIds == visibleIds
      ensures this.linkEndpoints == linkEndpoints && this.maxHoverLinks == maxHoverLinks
      ensures lines == [] && nodeFlags.Keys == visibleIds && forall id :: id in nodeFlags ==> nodeFlags[id] == Plain
    {
      this.root := root;
      this.visibleIds := visibleIds;
      this.linkEndpoints := linkEndpoints;
      this.maxHoverLinks := maxHoverLinks;
      lines := [];
      nodeFlags := map id | id in visibleIds :: Plain;
    }

    /** `visibleProxy(node)`: walks up from `a` until a visible node or past
        the root. */
    method VisibleProxy(a: Addr) returns (p: Option<Addr>)
      requires IsAddr(root, a)
      ensures p == Proxy(root, visibleIds, a)
    {
      var cur := Some(a);
      while cur.Some? && NodeAt(root, cur.value).id !in visibleIds
        invariant cur.Some? ==> IsAddr(root, cur.value) && Proxy(root, visibleIds, cur.value) == Proxy(root, visibleIds, a)
        invariant cur.None? ==> Proxy(root, visibleIds, a) == None
        decreases if cur.Some? then |cur.value| + 1 else 0
      {
        var c := cur.value;
        if c == [] {
          cur := None;
        } else {
          PrefixIsAddr(root, c[..|c| - 1], c);
          cur := Some(c[..|c| - 1]);
        }
      }
      p := cur;
    }

    /** `clearHighlight()` (also `onLeave`): removes every line and turns
        every node class off. */
    method ClearHighlight()
      modifies this`lines, this`nodeFlags
      ensures lines == [] && nodeFlags == Cleared(old(nodeFlags))
    {
      lines := [];
      nodeFlags := Cleared(nodeFlags);
    }

    /** `highlightHostsInSubtree(node)` (`onEnter`): with the node's host set
        empty, or no drawn line matching it, everything is cleared; otherwise
        the drawn lines are the resolved links, matching lines active, and the
        nodes classed as Highlighted says. */
    method OnEnter(h: Hierarchy, a: Addr)
      requires Valid() && h.root == root && h.Shaped() && h.HostsOk() && IsAddr(root, a)
      modifies this`lines, this`nodeFlags
      ensures a in h.hostSet
      ensures var hs := h.hostSet[a];
        var rs := ResolvedLinks(root, visibleIds, linkEndpoints, Some(hs), maxHoverLinks);
        if hs == {} || !AnyMatchUpTo(root, hs, rs, |rs|) then
          lines == [] && nodeFlags == Cleared(old(nodeFlags))
        else
          lines == Marked(root, hs, rs)
          && nodeFlags == Highlighted(old(nodeFlags), ShownUpTo(root, hs, rs, |rs|), NodeAt(root, a).id)
    {
      assert a in h.addrs;
      var hs := h.hostSet[a];
      if |hs| == 0 {
        ClearHighlight();
        return;
      }
      var rs := ResolvedLinks(root, visibleIds, linkEndpoints, Some(hs), maxHoverLinks);
      // drawLinks, then every line and node dimmed
      lines := Dimmed(rs);
      nodeFlags := map id | id in nodeFlags :: NodeFlags(true, false, false);
      var show, anyMatched := MatchLines(hs, rs);
      if !anyMatched {
        ClearHighlight();
        return;
      }
      ClassNodes(show, NodeAt(root, a).id);
    }

    /** The `lines.each(...)` step over freshly dimmed lines: a matching line
        becomes active and not dim, and the non-empty ids of its proxies are
        collected. */
    method MatchLines(hs: set<string>, rs: seq<Resolved>) returns (show: set<string>, anyMatched: bool)
      requires forall x :: x in rs ==> LineInTree(root, x)
      requires lines == Dimmed(rs)
      modifies this`lines
      ensures lines == Marked(root, hs, rs)
      ensures show == ShownUpTo(root, hs, rs, |rs|) && anyMatched == AnyMatchUpTo(root, hs, rs, |rs|)
    {
      ghost var marked := Marked(root, hs, rs);
      var ls := lines;
      show := {};
      anyMatched := false;
      var k := 0;
      while k < |ls|
        invariant 0 <= k <= |ls| == |rs|
        invariant forall j :: 0 <= j < k ==> ls[j] == marked[j]
        invariant forall j :: k <= j < |rs| ==> ls[j] == Line(rs[j], true, false)
        invariant show == ShownUpTo(root, hs, rs, k)
        invariant anyMatched == AnyMatchUpTo(root, hs, rs, k)
      {
        var x := ls[k].link;
        assert x == rs[k] && x in rs;
        var shId := NodeAt(root, x.ep.sourceNode).id;
        var thId := NodeAt(root, x.ep.targetNode).id;
        if shId in hs || thId in hs {
          anyMatched := true;
          ls := ls[k := Line(x, false, true)];
          var spId := NodeAt(root, x.sp).id;
          var tpId := NodeAt(root, x.tp).id;
          show := show + (NonEmpty(spId) + NonEmpty(tpId));
        }
        assert AnyMatchUpTo(root, hs, rs, k + 1) <==> AnyMatchUpTo(root, hs, rs, k) || Matches(root, hs, rs[k]);
        k := k + 1;
      }
      lines := ls;
    }

    /** The two `nodes.each(...)` steps over freshly dimmed nodes: shown
        proxies become connected and not dim, then the hovered node active
        and not dim. */
    method ClassNodes(show: set<string>, hovered: string)
      requires forall id :: id in nodeFlags ==> nodeFlags[id] == NodeFlags(true, false, false)
      modifies this`nodeFlags
      ensures nodeFlags == Highlighted(old(nodeFlags), show, hovered)
    {
      nodeFlags := map id | id in nodeFlags :: if id in show then nodeFlags[id].(dim := false, connected := true) else nodeFlags[id];
      if hovered in nodeFlags {
        nodeFlags := nodeFlags[hovered := nodeFlags[hovered].(active := true, dim := false)];
      }
    }
  }
}
