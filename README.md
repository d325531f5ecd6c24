# Dynamic Network Graph — the hierarchy engine, in Dafny

Dynamic Network Graph draws a network topology as nested circles. The root
contains zones, zones contain environments, then tiers, applications and
hosts. This project models the engine behind that view, and proves what
each part promises.

- **Node tree** (`NodeTree`, from `toNode`). The immutable tree built from
  the topology description. It covers path ids (`parent/name`), depth, the
  inherited zone and environment caches, and the pre-order enumeration of
  all nodes.
- **Hierarchy state** (`Model.Hierarchy`). The per-node fields that the
  system updates in place: `expanded`, the radius `r`, the local offsets
  `x`/`y`, the absolute positions `absX`/`absY`, and the descendant-host
  caches `hostSet`/`hostList`. The traversals over it are:
  - `buildHostCaches`
  - `computeAbsolutePositions`
  - `indexAllNodes`
  - `isVisible`/`collectVisible`
  - `shortLabel`
- **Layout passes** (`Layout`):
  - `packWithPadding`: grow the radii, pack, then restore the radii.
  - `computeRadius`: the radius pass.
  - `layout`: the position pass with its fit-scale rule.
  - `recomputeAll`: every pass, the id index, and resolution of the link
    endpoints.

  The circle packer is a parameter `pack`. It maps the radii of a list of
  sibling circles to one centre per circle, plus an enclosing circle.
- **Hover highlighter** (`HoverLinks`):
  - the visible proxy of a node;
  - the links drawn for a hovered subtree (the touching links, capped at
    the maximum, with both proxies resolved);
  - the dim / active / connected classes of the drawn lines and nodes;
  - clearing on leave.
- **Collapse / expand commands** (`Ui`): `collapseAll` and `expandAll` as
  flag rewrites over a subtree. Also the single-node toggle that a click
  triggers. The click handler ignores the root and childless nodes; for
  any other node the toggle flips `expanded` and recomputes the layout.
- **Zone colour table** (`Colors`): the seven-entry palette, the
  name-to-entry table filled from the root's children, and the lookup with
  its fallback.
- **Link generator** (`LinkGen`):
  - `assignIds` on the raw topology;
  - `collectHosts`, the pre-order host records with their nearest zone and
    environment;
  - the internal and cross-zone generation loops, with each random pick
    as a nondeterministic choice.

A node object is identified by its **address**: the sequence of child
positions that leads to it from the root. The parent of a node is its
address without the last step, so the upward `parent` reference is not
stored. Mutable per-node fields are maps from address to value, held in
the fields of `Model.Hierarchy`. The recursive procedures mutate these
maps.

Each such method is specified by a function of the old state, for
example `h.hostSet == Cached(...)`. Lemmas then prove what the source
promises about that function: pointwise, for every address, and with
`{:induction false}` where the inductive argument is the point.

## Model

| member | source | states |
|---|---|---|
| NodeTree.ToNodeUnderFacts | js/model.js:5-31 | The built node's id is `parentPath/name` (the bare name with no parent path). Its depth is the parent's depth plus one (0 with no parent). Its zone and environment caches are the parent's when set, otherwise its own name when its kind is zone or environment. It has the topology's names, kinds and children in order. Every parent and child below it are related the same way. |
| NodeTree.ToNodeRoot | js/model.js:5-31 | The root built with the default arguments has its name as id and depth 0. Its caches come from its own kind only. It mirrors the topology, and every parent-child pair below it is well built. |
| NodeTree.AddrFacts | js/model.js:5-29 | In a built tree, a node's depth is the length of its address. A non-root node's id is its parent's id joined with its name by `/`. |
| NodeTree.AllNodes | js/model.js:71-75 | The pre-order enumeration from the root lists exactly the nodes of the tree. |
| NodeTree.HostListMatchesSet | js/model.js:33-58 | Every address in a subtree's host list is a host below that subtree. The subtree's host set is exactly the ids of its host list. |
| NodeTree.HostListExactly | js/model.js:33-58 | An address is in the host list of the subtree at `a` exactly when it is a host at or below `a` and no host lies strictly between `a` and it. |
| NodeTree.HostKidsExactly | js/model.js:43-50 | An address is in the concatenated host lists of the first `k` children of `a` exactly when it is a host below one of those children and no host lies strictly between `a` and it. |
| Model.Hierarchy.constructor | js/model.js:11-27 | A fresh hierarchy has the tree `toNode(t)`, every node collapsed, every radius `rr`, all four coordinates 0, and empty host caches. Every field has one entry per node. |
| Model.CachedAt | js/model.js:33-58 | After the cache walk from `a`, exactly the nodes in its scope get their own value. The scope is `a`, plus everything below it reached without passing a host. Every other entry is kept. |
| Model.CachedMeaning | js/model.js:33-58 | The cache map after the walk from `a` holds, at each node of the scope, that node's own value and elsewhere the old value; it gains exactly the scope as new keys. |
| Model.CachedKeepsNodes | js/model.js:33-58 | On a map with one entry per node, the cache walk keeps exactly one entry per node. |
| Model.BuildHostCaches | js/model.js:33-58 | A host caches its own id and itself. A non-host caches the union of its children's host sets and the concatenation of their host lists in child order; a childless non-host caches the empty set and list. The returned set is the node's host set, and both caches are the cache walk of the old maps. |
| Model.BuildAllHostCaches | js/model.js:33-58 | From the root, each node in the scope caches its own host set and host list. The hierarchy stays well formed. |
| Model.OpenBelowStep | js/model.js:64-67 | A path is open from `a` through its k-th child exactly when `a` is expanded and the path is open from that child. |
| Model.ComputeAbsolutePositions | js/model.js:60-69 | A node reachable from `a` through expanded nodes only gets its absolute position. That is the parent position passed in, plus the local offsets on the path from `a` down to it. Every node below a collapsed node keeps its old absolute position. |
| Model.IndexedAppend | js/model.js:71-75 | Indexing a concatenation of lists gives the same result as indexing the first list and then the second. |
| Model.IndexAllNodes | js/model.js:71-75 | The map returned is the old map with each node of the subtree set in pre-order, under its id. |
| Model.IndexedKeyAt | js/model.js:71-75 | An id is a key afterwards exactly when it was one before or belongs to a listed node. A listed node's id leads to a listed node that carries it. An unlisted id keeps its old entry. |
| Model.IndexedLastAt | js/model.js:71-75 | A listed node whose id no later listed node shares is the entry for that id: a later `set` replaces an earlier one. |
| Model.IndexedFacts | js/model.js:71-75 | The keys of the index are the old keys plus the listed ids. Unlisted ids keep their entries. Each listed id leads to a listed node carrying it, and that node is the last listed node with that id. |
| Model.IndexCoversTree | js/model.js:71-75 | Every node of the tree, visible or not, has its id as a key, and every key leads to a node that carries it. |
| Model.CollectVisible | js/model.js:82-97 | The output is the input list followed by the subtree's visible entries, in pre-order. A node appears only when its ancestors are expanded, and children are visited only under an expanded node. |
| Model.VisibleSound | js/model.js:77-97 | Every collected entry is a node of the subtree that is reachable through expanded nodes and carries its parent's id. |
| Model.VisibleComplete | js/model.js:77-97 | Every node reachable from `a` through expanded nodes only is collected, with its parent's id. |
| Model.VisibleInPreOrder | js/model.js:82-97 | The collected addresses are a subsequence of the pre-order of the subtree. |
| Model.VisibleListOfRoot | js/model.js:82-97 | `collectVisible(root)` starts with the root and no parent id. A node has an entry exactly when every proper ancestor is expanded. Each entry carries its parent's id, and the list is in pre-order. |
| Model.ShortLabel | js/model.js:99-102 | A name of at most `max` characters is returned unchanged. A longer name becomes its first `max - 1` characters plus an ellipsis, so the label never exceeds `max` characters. |
| Layout.GrowRadii | js/layout.js:8-11 | Each child's radius before growing is saved. Each child's radius grows by half the padding, and no other radius changes. |
| Layout.PlaceCentres | js/layout.js:13 | Each child gets the packer's centre for it, and no other offset changes. |
| Layout.RestoreRadii | js/layout.js:17-20 | The saved radii are written back, so the radius map is exactly what it was before growing. |
| Layout.RadiiOfBumped | js/layout.js:8-13 | The radii handed to the packer are the children's radii, each grown by half the padding. |
| Layout.PackWithPadding | js/layout.js:6-23 | Every radius is as it was before the call. The children are placed on the centres of the packing of their grown radii. The returned enclosing circle is that packing's. |
| Layout.RadiusOf | js/layout.js:25-46 | The radius of every node is at least `rr`. |
| Layout.RadiusPassAt | js/layout.js:25-46 | The radius pass from `a` gives every node of the subtree its radius, collapsed subtrees included. A leaf or collapsed node gets `rr`; an expanded node gets `max(rr, enclosing + padding)`. No radius outside the subtree changes. |
| Layout.ExpandedRadius | js/layout.js:38-45 | An expanded node is sized from the packing of its children's just-computed radii. |
| Layout.RadiusPassMoves | js/layout.js:25-46 | The radius pass moves only offsets strictly inside the subtree (the children of packed nodes). The node's own offset and every offset outside the subtree are kept. |
| Layout.ComputeRadius | js/layout.js:25-46 | The method performs the radius pass and returns the node's new radius. |
| Layout.FitAroundKids | js/layout.js:38-45 | The children are packed, and the node's radius becomes `max(rr, enclosing.r + padding)`. The method returns that radius. |
| Layout.ComputeKidRadii | js/layout.js:31 | Each child is run through the radius pass in turn. |
| Layout.ChildOffsetWithin | js/layout.js:57-64 | A child whose packed centre lies inside its siblings' enclosing circle ends up, once fitted, within `max(0, r - padding)` of its parent's centre, `r` being the parent's radius. |
| Layout.FittedAt | js/layout.js:61-64 | Each of the first `k` children has its coordinate moved by the enclosing centre and then scaled. Every other entry is kept. |
| Layout.LayoutPassAt | js/layout.js:48-67 | The position pass from `a` never changes a radius. Every node it reaches gets its fitted offset: its packed centre minus its siblings' enclosing centre, times the parent's fit scale. Every other offset, the node's own included, is kept. |
| Layout.LaidSplit | js/layout.js:49-50 | Below a leaf or a collapsed node the position pass reaches nothing. Below an expanded node it reaches the children and what each child's pass reaches. |
| Layout.SpreadAt | js/layout.js:52-64 | Packing and fitting the children of an expanded node gives each child its fitted offset and leaves all radii and every other offset as they were. |
| Layout.SpreadChild | js/layout.js:61-64 | After packing and fitting, child `j` has the offset `(centre - enclosing centre) * scale`. |
| Layout.LayoutKidsAt | js/layout.js:66 | The passes of the first `k` children lay out exactly what each child's pass reaches. |
| Layout.Layout | js/layout.js:48-67 | The method performs the position pass from `a`, and radii are never changed. |
| Layout.CentreAndScale | js/layout.js:57-64 | Each child's coordinates are moved into the frame of the enclosing centre and scaled. |
| Layout.LayoutChildren | js/layout.js:66 | Each child is laid out in turn, and radii are kept. |
| Layout.ResolveEndpoints | js/layout.js:82-89 | A link is kept, with both of its resolved nodes, exactly when both of its ids are in the index. |
| Layout.ResolvedInOrder | js/layout.js:82-89 | The resolved links keep the order of the input links. |
| Layout.ResolvedCounts | js/layout.js:82-89 | A link whose two ids are in the index is resolved as many times as it occurs, and any other link not at all. |
| Layout.ResolvedInTree | js/layout.js:81-89 | Resolved against the index of the whole tree, both ends of every link are tree nodes carrying the link's ids. |
| Layout.RadiusPassWhole | js/layout.js:70 | On maps with one entry per node, the radius pass from the root keeps one entry per node and gives every node its radius. |
| Layout.LayoutPassWhole | js/layout.js:72-76 | On maps with one entry per node, the position pass from the root keeps the radii and one entry per node. Every reached node gets its fitted offset, and the root's offset is kept. |
| Layout.RootAtOrigin | js/layout.js:73-79 | After a full recomputation, the root's absolute position is the origin. |
| Layout.RadiiAll | js/layout.js:70 | After the radius pass over the whole tree, every node has the radius the pass defines for it. |
| Layout.OffsetsAll | js/layout.js:72-76 | The root is placed at (0, 0) and the position pass runs over the whole tree. Every node it reaches has its fitted offset, and radii are kept. |
| Layout.LayoutAll | js/layout.js:70-76 | The radius pass runs, then the position pass. |
| Layout.PositionAll | js/layout.js:78-79 | The absolute positions are computed from the root at the origin. |
| Layout.GeometryAll | js/layout.js:70-79 | The method computes radii, offsets and absolute positions, in that order. |
| Layout.RecomputeAll | js/layout.js:69-92 | After `recomputeAll`, every node has its radius and every reached node its offset and absolute position. The root is at the origin. The index is the pre-order index of the whole tree. The endpoints are the links with both ends in the index, each end a tree node carrying the link's id. |
| HoverLinks.Proxy | js/hoverLinks.js:12-16 | A found proxy is an inclusive ancestor of the node, and its id is in the visible set. |
| HoverLinks.ProxyNearest | js/hoverLinks.js:12-16 | The found proxy is the nearest such ancestor: no node strictly between the proxy and the starting node is visible. When there is none, no node on the path from the root is visible. |
| HoverLinks.HoverHighlighter.VisibleProxy | js/hoverLinks.js:12-16 | The upward walk returns exactly the nearest visible inclusive ancestor, or none. |
| HoverLinks.Touching | js/hoverLinks.js:21-23 | A link is kept exactly when its source or its target is in the host set. |
| HoverLinks.TouchingInOrder | js/hoverLinks.js:21-23 | The kept links are in input order. |
| HoverLinks.TouchingCounts | js/hoverLinks.js:21-23 | A touching link is kept as many times as it occurs in the input, and any other link not at all. |
| HoverLinks.Capped | js/hoverLinks.js:25-28 | The result is a prefix of the touching links, of length exactly `max` when there are more, and all of them otherwise: `slice(0, max)`. |
| HoverLinks.WithProxies | js/hoverLinks.js:30-37 | A link is kept, with its two proxies, exactly when both proxies exist. |
| HoverLinks.WithProxiesInOrder | js/hoverLinks.js:30-37 | The kept links are in input order. |
| HoverLinks.WithProxiesCounts | js/hoverLinks.js:30-37 | A link whose two proxies exist is kept as many times as it occurs, and any other link not at all. |
| HoverLinks.ResolvedLinks | js/hoverLinks.js:18-38 | A missing or empty host set gives no links. Otherwise there are at most `max` links; each touches the host set, its proxies are the nodes' visible proxies, and all four of its nodes are tree nodes. |
| HoverLinks.ResolvedLinksInOrder | js/hoverLinks.js:18-38 | The drawn links are a subsequence of the first `max` touching links, and so of the whole link list. |
| HoverLinks.ResolvedLinksComplete | js/hoverLinks.js:18-38 | Every link among the first `max` touching links whose two proxies exist is drawn. |
| HoverLinks.Cleared | js/hoverLinks.js:63-72 | Every node keeps its entry and has dim, active and connected all off. |
| HoverLinks.Dimmed | js/hoverLinks.js:93-97 | Every drawn line is dim and not active. |
| HoverLinks.Marked | js/hoverLinks.js:103-115 | A line is active exactly when it matches the host set, and dim exactly when it is not active. |
| HoverLinks.ShownUpToExact | js/hoverLinks.js:99-115 | The shown ids are exactly the non-empty proxy ids of the matching lines. |
| HoverLinks.Highlighted | js/hoverLinks.js:122-134 | Shown proxies are connected and not dim, and the hovered node is active and not dim. Every other node is dim, not active and not connected, and no node is added or lost. |
| HoverLinks.DrawnLinesMatch | js/hoverLinks.js:99-120 | When the endpoints come from `recomputeAll`, every drawn line matches the hovered host set. So some line matches exactly when any line is drawn. |
| HoverLinks.HoverHighlighter.constructor | js/hoverLinks.js:3-10 | The highlighter starts with no lines and one unclassed entry per visible id. |
| HoverLinks.HoverHighlighter.ClearHighlight | js/hoverLinks.js:59-72 | Every line is removed and every node class is turned off. |
| HoverLinks.HoverHighlighter.OnEnter | js/hoverLinks.js:74-135 | With an empty host set, or no drawn line matching it, everything is cleared. Otherwise the lines are the resolved links, with matching ones active and the rest dim, and the nodes are classed as `Highlighted` says. |
| HoverLinks.HoverHighlighter.MatchLines | js/hoverLinks.js:99-115 | The loop reports whether any line matched. It collects the non-empty proxy ids of the matching lines and marks each matching line active and not dim. |
| HoverLinks.HoverHighlighter.ClassNodes | js/hoverLinks.js:122-134 | Starting from all nodes dimmed, the node classes become `Highlighted`. |
| Ui.PaintedAt | js/ui.js:3-34 | A whole-subtree flag rewrite adds the subtree's addresses as keys. It gives each of them the flag its rule gives its node, and keeps every other flag. |
| Ui.PaintedIdempotent | js/ui.js:3-34 | Applying the same rewrite twice gives the flags of applying it once. |
| Ui.PaintedKeys | js/ui.js:3-34 | On a map with one entry per node, the rewrite keeps exactly one entry per node. |
| Ui.CollapseAll | js/ui.js:3-27 | A node of type root is set expanded and every other node is set collapsed, then each child in turn. Only `expanded` changes. |
| Ui.CollapseChildren | js/ui.js:7-26 | Each child is collapsed in turn. |
| Ui.ExpandAll | js/ui.js:29-34 | The node is set expanded, then each child in turn. Only `expanded` changes. |
| Ui.ExpandChildren | js/ui.js:31-33 | Each child is expanded in turn. |
| Ui.CollapsedFlags | js/ui.js:3-27 | After `collapseAll`, the root-type nodes of the subtree are expanded and all its other nodes, zones included, are collapsed. Flags outside the subtree are kept, and no key is added or lost. |
| Ui.ExpandedFlags | js/ui.js:29-34 | After `expandAll`, every node of the subtree is expanded. Flags outside the subtree are kept, and no key is added or lost. |
| Ui.CollapsedVisible | js/ui.js:3-27 | After `collapseAll(root)`, the visible list holds exactly the root and its children. |
| Ui.ToggleNode | js/main.js:54-56 | A click on the root, or on a node without children, changes nothing: that is the guard of the click handler at js/render.js:70-74. Any other click flips exactly that node's flag. It then recomputes the radii, offsets, absolute positions, index and link endpoints. |
| Colors.RegisteredKeys | js/colors.js:41-46 | Registering keeps every existing name and adds exactly the zone names. |
| Colors.RegisteredLast | js/colors.js:43-45 | The i-th zone's name maps to palette entry `i mod 7`, unless a later zone has the same name. For a duplicate name, the later index wins. |
| Colors.RegisteredKept | js/colors.js:39-46 | A name that is no zone's name keeps its existing entry. |
| Colors.ZoneColors.constructor | js/colors.js:39 | The table starts empty. |
| Colors.ZoneColors.InitZoneColors | js/colors.js:41-46 | The table becomes the old table with each child of the root registered in order. |
| Colors.ZoneColors.ZoneColor | js/colors.js:48-50 | The lookup gives the registered entry for a known name and the first palette entry otherwise. |
| Colors.ColorAfterInit | js/colors.js:41-50 | After registration, a zone name's colour is the palette entry of its last position mod 7. Any other name has its old entry, or the first palette entry. |
| LinkGen.AssignedAt | links.js:6-10 | For the raw node mirrored at `a`, assigning ids adds exactly the subtree's addresses. Each gets the id that `toNode` gives its node, and every other entry is kept. |
| LinkGen.AssignedKidsAt | links.js:9 | Assigning the first `k` children adds exactly their subtrees, each node with its built id. |
| LinkGen.AssignedIsBuiltId | links.js:6-10 | Over the whole topology, every node gets the id that `toNode` computes: the root's name, and `parentId/name` below it. |
| LinkGen.NearestFound | links.js:12-14 | A found zone or environment name belongs to an inclusive ancestor of that kind, and no node of that kind lies strictly between that ancestor and the host. The walk keeps the innermost one. |
| LinkGen.NearestNone | links.js:12-14 | With no name found, no node of that kind lies on the path from the root. |
| LinkGen.SubtreeRecordsInPreOrder | links.js:12-24 | The records of a subtree are the records of its nodes in pre-order. |
| LinkGen.KidsRecordsInPreOrder | links.js:20-21 | The records of the first `k` children are those of their pre-order. |
| LinkGen.RecordsMembers | links.js:16-18 | A record is listed exactly when it is the record of a listed host. |
| LinkGen.CollectedHosts | links.js:12-27 | The host list holds exactly one record per host of the tree: its id, with its nearest zone and nearest environment (none when absent). |
| LinkGen.RawTopology.constructor | links.js:4 | The raw topology starts with no ids, and its built tree mirrors it. |
| LinkGen.RawTopology.AssignIds | links.js:6-10 | The id table becomes the assignment for the subtree. |
| LinkGen.RawTopology.AssignChildIds | links.js:9 | Each child is assigned in turn, with this node's id as parent path. |
| LinkGen.RawTopology.AssignAllIds | links.js:26 | Afterwards every node of the topology carries its built id, and exactly the node addresses are added. |
| LinkGen.RawTopology.CollectHosts | links.js:12-24 | The output is the input list followed by the records of the subtree in pre-order. The zone and environment passed down are the nearest ones above. |
| LinkGen.RawTopology.CollectChildHosts | links.js:20-22 | The records of each child's subtree are appended in turn. |
| LinkGen.RawTopology.CollectAllHosts | links.js:27 | The host list is the records of the whole tree in pre-order. |
| LinkGen.NatToString | links.js:43 | A counter prints as at least one character, all of them decimal digits. |
| LinkGen.NatToStringInjective | links.js:43 | Different counter values print differently. |
| LinkGen.LinkIdInjective | links.js:43 | Different counter values give different link ids. |
| LinkGen.Pick | links.js:29-31 | A pick finds an element exactly when the array is non-empty, and what it finds is an element of the array. |
| LinkGen.PickReachesAll | links.js:29-31 | Every element can be picked. |
| LinkGen.SameZonePeers | links.js:39 | The hosts kept are exactly the other hosts (by id) in the same zone. |
| LinkGen.ProductionHosts | links.js:52 | The hosts kept are exactly those in the Production environment. |
| LinkGen.OtherZoneHosts | links.js:53 | The hosts kept are exactly those in another zone. |
| LinkGen.InternalDraw | links.js:37-40 | A drawn pair is two different hosts in one zone. A round is skipped exactly when there are no hosts, or the first pick has no peer in its zone. |
| LinkGen.CrossDraw | links.js:51-54 | A drawn pair runs from a Production host to a host in another zone. A round is skipped exactly when there is no Production host, or every host shares the picked host's zone. |
| LinkGen.CrossDrawAsWrittenThrows | links.js:52-54 | As written, the cross-zone round throws exactly when there are hosts but none is in Production. Otherwise it draws what `CrossDraw` draws. |
| LinkGen.CrossDrawThrowsOnTestOnlyHosts | links.js:52-54 | A single host outside Production makes the round throw. |
| LinkGen.CrossRoundsAsWritten | links.js:51-62 | Over a run's draws, the round as written throws on the first draw exactly when there are hosts but none is in Production. Every draw on which it does not throw draws what the corrected round draws. |
| LinkGen.LinkList.constructor | links.js:33-34 | The list starts empty, with the counter at 0. |
| LinkGen.LinkList.Push | links.js:42-47 | One link is appended, with the id `l_<counter>`, and the counter goes up by one. |
| LinkGen.LinkList.PushDraw | links.js:40-47 | A drawn join appends its link, with the next counter id. A skipped round (`continue`) appends nothing. |
| LinkGen.LinkList.Rounds | links.js:37-48 | A loop of `rounds` rounds records one pair of random numbers per round. It appends exactly the links `Pushed` gives for those draws. |
| LinkGen.LinkList.InternalLinks | links.js:37-48 | The loop runs 1200 rounds, and `draws` records the two random numbers of each. The appended links are exactly `Pushed` of those draws: each round that draws a join pushes its link, and a skipped round pushes none, with ids numbered on from the counter. Each appended link joins two different hosts of one zone. When every host has a same-zone peer, exactly 1200 links are appended. |
| LinkGen.LinkList.CrossZoneLinks | links.js:51-62 | The loop runs 400 rounds, and `draws` records the two random numbers of each. The appended links are exactly `Pushed` of those draws, ids numbered on from the counter. Each runs from a Production host to a host in another zone. When some host is in Production and every Production host has a host in another zone, exactly 400 links are appended. As written, the first round throws exactly when there are hosts but none is in Production (see "## Left out"). |
| LinkGen.LinkIdsUnique | links.js:34-43 | Consecutive counter ids are pairwise different. |
| LinkGen.Pushed | links.js:37-62 | The links pushed for a list of draws: as many as the draws that are joins, each of the loop's kind. |
| LinkGen.PushedIds | links.js:43 | The k-th pushed link has the id `l_<next + k>`. |
| LinkGen.Joins | links.js:40 | The number of joins is at most the number of rounds. |
| LinkGen.JoinsAll | links.js:40 | Every round joins exactly when the number of joins equals the number of rounds. |
| LinkGen.PushedPrefix | links.js:37-62 | The links pushed by the first rounds are a prefix of the links pushed by all of them: later rounds only append. |
| LinkGen.PushedJoinAt | links.js:40-47 | A round that draws a join of `a` and `b` pushes the link from `a` to `b`. Its position, and its id `l_<next + k>`, follow the joins drawn before it. |
| LinkGen.PushedSnoc | links.js:40-47 | One more round appends its join's link, with the next id, or nothing when skipped. |
| LinkGen.PushedInternal | links.js:37-47 | Every link pushed by internal rounds joins two different hosts of one zone. |
| LinkGen.PushedCross | links.js:51-61 | Every link pushed by cross-zone rounds runs from a Production host to a host in another zone. |
| LinkGen.InternalNeverSkips | links.js:38-40 | When every host has a same-zone peer, an internal round always draws a join. |
| LinkGen.CrossNeverSkips | links.js:52-54 | When some host is in Production and every Production host has a host in another zone, a cross-zone round always draws a join. |
| LinkGen.InternalPushesAll | links.js:37-48 | When every host has a same-zone peer, every internal round pushes a link. |
| LinkGen.CrossPushesAll | links.js:51-62 | When every Production host reaches another zone, every cross-zone round pushes a link. |
| LinkGen.DrawnShape | links.js:37-62 | The internal rounds' links followed by the cross-zone rounds' links: at most 1200 internal links come first, then at most 400 cross-zone links. |
| LinkGen.DrawLinks | links.js:33-62 | On a fresh list: the internal rounds' links, then the cross-zone rounds' links. There are exactly 1600 when no round is skipped. Ids are `l_0, l_1, …` and all different. As written, the first cross-zone round throws exactly when there are hosts but none is in Production. |
| LinkGen.GenerateLinks | links.js:26-62 | The hosts are the pre-order host records. The links are exactly the internal rounds' pushed links followed by the cross-zone rounds' pushed links, for the random numbers drawn (1200 and 400 rounds). With no round skipped there are exactly 1600 links. Ids are `l_0, l_1, …`, all different, and the internal links come first, then the cross-zone ones. As written, the first cross-zone round throws exactly when there are hosts but none is in Production. |

## Left out

- The packer: circle packing (`d3.packSiblings` / `d3.packEnclose`) is a
  foreign library over floating point. It is the parameter `pack`, and
  only one thing is required of it: one centre per circle. Nothing is
  proved about overlap or containment; `Layout.ChildOffsetWithin` takes
  the containment of one packed centre as its hypothesis.
- Arithmetic: coordinates and radii are `real`, so floating-point rounding
  is not modelled.
- Layout.PackWithPadding: the `__r0` scratch field is a local sequence of
  saved radii. It is not a property on the node objects.
- Configuration: the layout constants (`rr`, `padding`, `siblingPad`) are
  the parameter `Config`, and `Layout.Defaults` holds the configured
  values. The hover cap is the field `maxHoverLinks`, with
  `HoverLinks.MaxHoverLinks` holding the configured 300. The
  links-only-on-hover switch is taken as true, as configured, so clearing
  always removes the lines.
- Rendering: the D3 data joins, transitions, SVG attributes, zoom and
  event binding of js/render.js and js/main.js are left out. Only the
  click guard and the flip-then-recompute step are modelled, in
  `Ui.ToggleNode`. The redraw after a toggle is also left out.
- Drawing: the SVG line elements of `drawLinks` become the highlighter's
  `lines`, set to the resolved links. Node classes are a map from node id
  to three flags.
- `bindUI`: the DOM handlers for reset, label size and label visibility
  are left out.
- Random picks: `Math.random` in `rand` is a nondeterministic natural `r`.
  The pick is element `r mod length`, or nothing for an empty array.
  `LinkGen.PickReachesAll` shows that every element can be picked. The
  generation loops record the numbers drawn as ghost `draws`, so their
  contracts can name the links that a given run pushes.
- `collectHosts`: its shared `out` array is threaded through the
  recursion as a value.
- Zone inheritance: `collectHosts` takes the innermost zone and
  environment, because it overwrites them on the way down. `toNode`'s
  cache keeps the outermost, because the parent's value wins. Each is
  modelled as written.
- Model.ShortLabel: the `?? d.node.id` fallback is not modelled, because a
  node's name is always a string here.
- LinkGen.LinkList.CrossZoneLinks, LinkGen.DrawLinks, LinkGen.GenerateLinks:
  they run the corrected cross-zone round `CrossDraw`. As written the
  source throws a TypeError on the first cross-zone round when there are
  hosts but none is in Production, so module loading fails and no link
  list exists. For those inputs their link equations describe the
  corrected program; each of them states, through
  `LinkGen.CrossRoundsAsWritten`, exactly when the as-written round throws.
- Model.ShortLabel: lengths and cuts count Unicode scalar values (Dafny
  characters). JavaScript's `length` and `slice` count UTF-16 code units,
  so a name with characters outside the Basic Multilingual Plane is
  measured and cut differently, and JavaScript can split a surrogate pair.
  The default `max = 15` is not modelled: callers pass `max`.
- Layout.RecomputeAll: its contract states the invariants it needs on
  each field group only, not the full well-formedness of `Hierarchy`. The
  frame (`modifies`) keeps the other fields.
- data.js and script.js are not part of this model. data.js is fixture
  data that depends on `Math.random`; script.js is a standalone DOM
  prototype.

## Findings

| source | as written | input that shows it | evidently intended | confidence | as-written member | corrected member |
|---|---|---|---|---|---|---|
| links.js:52-54 | When no host is in Production, `a` is undefined. The other-zone filter then reads `a.zone` for every host, a TypeError thrown before the `!a` guard on the next line. | a host list that is non-empty with no host in the Production environment, e.g. one host `Core/Test/web/h1` in zone `Core`, environment `Test` | the round is skipped, like a round whose second pick finds nothing | not executed | LinkGen.CrossDrawAsWritten | LinkGen.CrossDraw |
