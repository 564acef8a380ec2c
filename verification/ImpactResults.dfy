/** The blast radius: what the search found, and the edges, assets and contracts attached to it. */
module ImpactResults {
  import opened Outcomes
  import opened Sorting
  import opened Graphs
  import opened Walks
  import opened Impact

  const POLICY_RELEVANT_KINDS := {"data_source", "dataset", "table", "column"}

  datatype ImpactResult = ImpactResult(
    changedNodes: seq<NodeId>, directNodes: seq<NodeId>, transitiveNodes: seq<NodeId>,
    affectedEdges: seq<Edge>, paths: seq<ImpactPath>,
    associatedContracts: seq<NodeId>, governanceAssets: seq<NodeId>, policyRelevantNodes: seq<NodeId>)

  function EdgeSortKey(e: Edge): SortKey { EdgeKey(e.id) }

  function TargetKey(p: ImpactPath): SortKey { NodeKey(p.target) }

  /** `n` is `m` or one of its ancestors. */
  predicate AtOrAbove(n: NodeId, m: NodeId) {
    n == m || n in Ancestors(m)
  }

  // ----- what the parts of a result mean

  ghost predicate IsAffectedEdge(g: Graph, roots: set<NodeId>, e: Edge) {
    e in g.edges && HopOf(e).Some? && Reached(g, roots, HopOf(e).value.from)
  }

  ghost predicate IsAsset(g: Graph, roots: set<NodeId>, n: NodeId) {
    n.kind != CONTRACT && exists m :: Reached(g, roots, m) && m.kind != CONTRACT && AtOrAbove(n, m)
  }

  ghost predicate Governs(g: Graph, contract: NodeId, e: Edge) {
    e in g.edges && e.id.kind == GOVERNS && e.id.source == contract && contract.kind == CONTRACT
  }

  ghost predicate IsAssociatedContract(g: Graph, roots: set<NodeId>, n: NodeId) {
    || (n.kind == CONTRACT && Reached(g, roots, n))
    || (exists e, m :: Governs(g, n, e) && Reached(g, roots, m) && AtOrAbove(e.id.target, m))
  }

  /** The affected nodes, direct and transitive, with one canonical path each. */
  ghost predicate AreAffected(g: Graph, roots: set<NodeId>, direct: seq<NodeId>, transitive: seq<NodeId>, paths: seq<ImpactPath>) {
    && StrictlyOrdered(NodeKey, direct) && (forall n :: n in direct <==> AtDistance(g, roots, n, 1))
    && StrictlyOrdered(NodeKey, transitive)
    && (forall n :: n in transitive <==> exists k :: k >= 2 && AtDistance(g, roots, n, k))
    && StrictlyOrdered(TargetKey, paths)
    && (forall p :: p in paths ==> PathAccepted(p) && IsCanonicalPath(g, roots, p))
    && (forall n :: (exists p :: p in paths && p.target == n) <==> n in direct || n in transitive)
  }

  /** The edges that leave the core, and the assets and contracts attached to it. */
  ghost predicate AreAttached(g: Graph, roots: set<NodeId>, edges: seq<Edge>, assets: seq<NodeId>,
      contracts: seq<NodeId>, relevant: seq<NodeId>) {
    && StrictlyOrdered(EdgeSortKey, edges) && (forall e :: e in edges <==> IsAffectedEdge(g, roots, e))
    && StrictlyOrdered(NodeKey, assets) && (forall n :: n in assets <==> IsAsset(g, roots, n))
    && StrictlyOrdered(NodeKey, contracts) && (forall n :: n in contracts <==> IsAssociatedContract(g, roots, n))
    && StrictlyOrdered(NodeKey, relevant)
    && (forall n :: n in relevant <==> n in assets && n.kind in POLICY_RELEVANT_KINDS)
  }

  /** `r` is the blast radius of `roots` in `g`. Nothing here refers to the search. */
  ghost predicate IsImpactOf(g: Graph, roots: set<NodeId>, r: ImpactResult) {
    && StrictlyOrdered(NodeKey, r.changedNodes) && (forall n :: n in r.changedNodes <==> n in roots)
    && AreAffected(g, roots, r.directNodes, r.transitiveNodes, r.paths)
    && AreAttached(g, roots, r.affectedEdges, r.governanceAssets, r.associatedContracts, r.policyRelevantNodes)
  }

  /** The blast radius is determined by the graph and the set of roots: not by their order or repetition. */
  lemma ImpactDetermined(g: Graph, roots: set<NodeId>, r: ImpactResult, s: ImpactResult)
    requires ValidGraph(g) && IsImpactOf(g, roots, r) && IsImpactOf(g, roots, s)
    ensures r == s
  {
    hide NodeKey, EdgeKey, IsCanonicalPath, AtDistance, Reached, IsAffectedEdge, IsAsset, IsAssociatedContract, PathAccepted;
    StrictlyOrderedUnique(NodeKey, r.changedNodes, s.changedNodes);
    StrictlyOrderedUnique(NodeKey, r.directNodes, s.directNodes);
    StrictlyOrderedUnique(NodeKey, r.transitiveNodes, s.transitiveNodes);
    StrictlyOrderedUnique(EdgeSortKey, r.affectedEdges, s.affectedEdges);
    StrictlyOrderedUnique(NodeKey, r.governanceAssets, s.governanceAssets);
    StrictlyOrderedUnique(NodeKey, r.associatedContracts, s.associatedContracts);
    StrictlyOrderedUnique(NodeKey, r.policyRelevantNodes, s.policyRelevantNodes);
    forall p | p in r.paths ensures p in s.paths { SamePath(g, roots, r, s, p); }
    forall p | p in s.paths ensures p in r.paths { SamePath(g, roots, s, r, p); }
    StrictlyOrderedUnique(TargetKey, r.paths, s.paths);
  }

  lemma SamePath(g: Graph, roots: set<NodeId>, r: ImpactResult, s: ImpactResult, p: ImpactPath)
    requires ValidGraph(g) && IsImpactOf(g, roots, r) && IsImpactOf(g, roots, s) && p in r.paths
    ensures p in s.paths
  {
    hide NodeKey, EdgeKey, IsCanonicalPath, PathAccepted, IsAffectedEdge, IsAsset, IsAssociatedContract, AtDistance, ValidGraph;
    assert p.target in r.directNodes || p.target in r.transitiveNodes;
    var q :| q in s.paths && q.target == p.target;
    CanonicalPathUnique(g, roots, p, q);
  }

  // ----- collecting

  /** The inner loop: the hops of one node that stay in the core, by the logical identity of their edges. */
  method CollectHops(hops: seq<Step>, core: set<NodeId>, edges0: map<EdgeId, Edge>) returns (edges: map<EdgeId, Edge>)
    requires forall id :: id in edges0 ==> edges0[id].id == id
    ensures forall id :: id in edges ==> edges[id].id == id
    ensures forall id :: id in edges ==>
      (id in edges0 && edges[id] == edges0[id]) || exists h :: h in hops && h.to in core && h.edge == edges[id]
    ensures forall h :: h in hops && h.to in core ==> h.edge.id in edges
    ensures edges0.Keys <= edges.Keys
  {
    edges := edges0;
    for j := 0 to |hops|
      invariant forall id :: id in edges ==> edges[id].id == id
      invariant forall id :: id in edges ==>
        (id in edges0 && edges[id] == edges0[id]) || exists h :: h in hops[..j] && h.to in core && h.edge == edges[id]
      invariant forall h :: h in hops[..j] && h.to in core ==> h.edge.id in edges
      invariant edges0.Keys <= edges.Keys
    {
      assert hops[..j + 1] == hops[..j] + [hops[j]] && hops[j] in hops[..j + 1];
      assert forall h :: h in hops[..j] ==> h in hops[..j + 1];
      if hops[j].to in core {
        edges := edges[hops[j].edge.id := hops[j].edge];
      }
    }
    assert hops[..|hops|] == hops;
  }

  /** The edges of the hops inside `core`, by logical identity. */
  method CollectAffectedEdges(g: Graph, adj: Adjacency, core: set<NodeId>) returns (r: seq<Edge>)
    requires ValidGraph(g) && AdjacencyOf(g, adj)
    ensures StrictlyOrdered(EdgeSortKey, r)
    ensures forall e :: e in r <==> IsCoreEdge(g, core, core, e)
  {
    hide EdgeKey, NodeKey, ValidGraph, HopOf, HopsFrom, StrictlyOrdered, AdjacencyOf, IsHop;
    var edges: map<EdgeId, Edge> := map[];
    var rest := core;
    while rest != {}
      invariant rest <= core
      invariant forall id :: id in edges ==> edges[id].id == id && IsCoreEdge(g, core, core - rest, edges[id])
      invariant forall e :: IsCoreEdge(g, core, core - rest, e) ==> e.id in edges
    {
      var from :| from in rest;
      HopEdges(g, adj, core, core - rest, from);
      assert core - (rest - {from}) == core - rest + {from};
      edges := CollectHops(HopsFrom(adj, from), core, edges);
      rest := rest - {from};
    }
    assert core - rest == core;
    EdgeKeyInjective();
    r := SortSet(EdgeSortKey, edges.Values);
    forall e ensures e in r <==> IsCoreEdge(g, core, core, e) {
      if IsCoreEdge(g, core, core, e) {
        SameIdSameEdge(g, e, edges[e.id]);
        assert e in edges.Values;
      }
    }
  }

  /** The hops of one more node add exactly its core edges. */
  lemma HopEdges(g: Graph, adj: Adjacency, core: set<NodeId>, visited: set<NodeId>, from: NodeId)
    requires AdjacencyOf(g, adj)
    ensures forall h :: h in HopsFrom(adj, from) && h.to in core ==> IsCoreEdge(g, core, visited + {from}, h.edge)
    ensures forall e :: IsCoreEdge(g, core, visited + {from}, e) ==>
      IsCoreEdge(g, core, visited, e) || exists h :: h in HopsFrom(adj, from) && h.to in core && h.edge == e
  {
    hide HopsFrom;
    forall e | IsCoreEdge(g, core, visited + {from}, e) && !IsCoreEdge(g, core, visited, e)
      ensures exists h :: h in HopsFrom(adj, from) && h.to in core && h.edge == e
    {
      assert IsHop(g, HopOf(e).value);
    }
  }

  lemma SameIdSameEdge(g: Graph, e: Edge, f: Edge)
    requires ValidGraph(g) && e in g.edges && f in g.edges && e.id == f.id
    ensures e == f
  {
    MergedIdsUnique(EdgeKey, g.edges, g.edges);
  }

  /** The hop of `e` leaves one of the nodes visited and stays inside the core. */
  ghost predicate IsCoreEdge(g: Graph, core: set<NodeId>, visited: set<NodeId>, e: Edge) {
    e in g.edges && HopOf(e).Some? && HopOf(e).value.from in visited && HopOf(e).value.to in core
  }

  /** The nodes of the core that are not contracts, with those of their ancestors that are not and are in the graph. */
  method AssociateGovernanceAssets(g: Graph, core: set<NodeId>) returns (r: seq<NodeId>)
    requires ValidGraph(g) && forall n :: n in core ==> HasId(g.nodes, n)
    ensures StrictlyOrdered(NodeKey, r)
    ensures forall n :: n in r <==> AssetOf(core, n)
  {
    hide NodeKey, ValidGraph, AssetOf, Ancestors, StrictlyOrdered;
    var present := set node | node in g.nodes :: node.id;
    var assets, rest := {}, core;
    assert core - rest == {};
    NoAssets();
    while rest != {}
      invariant rest <= core
      invariant forall n :: n in assets <==> AssetOf(core - rest, n)
    {
      var node :| node in rest;
      AssetStep(core - rest, node);
      assert core - (rest - {node}) == core - rest + {node};
      if node.kind != CONTRACT {
        var chain := CollectAncestors(node);
        AncestorsArePresent(g, node);
        assets := assets + {node} + set a | a in chain && a in present && a.kind != CONTRACT;
      }
      rest := rest - {node};
    }
    NodeKeyInjective();
    r := SortSet(NodeKey, assets);
    assert core - rest == core;
  }

  lemma NoAssets()
    ensures forall n :: !AssetOf({}, n)
  {
  }

  /** One more node adds itself and its ancestors, contracts left out. */
  lemma AssetStep(visited: set<NodeId>, node: NodeId)
    ensures forall n :: AssetOf(visited + {node}, n) <==>
      AssetOf(visited, n) || (node.kind != CONTRACT && n.kind != CONTRACT && AtOrAbove(n, node))
  {
    hide AtOrAbove;
  }

  ghost predicate AssetOf(core: set<NodeId>, n: NodeId) {
    n.kind != CONTRACT && exists m :: m in core && m.kind != CONTRACT && AtOrAbove(n, m)
  }

  /** The presence test on ancestors never excludes any: graphs are closed under parents. */
  lemma AncestorsArePresent(g: Graph, node: NodeId)
    requires ValidGraph(g) && HasId(g.nodes, node)
    ensures forall a :: a in Ancestors(node) ==> exists m :: m in g.nodes && m.id == a
  {
    var m :| m in g.nodes && m.id == node;
    forall a | a in Ancestors(node) ensures exists m :: m in g.nodes && m.id == a {
      assert HasId(g.nodes, a);
    }
  }

  /** Contracts in the core, and contracts that govern a node of the core or one of its ancestors. */
  method AssociateContracts(g: Graph, core: set<NodeId>) returns (r: seq<NodeId>)
    requires ValidGraph(g)
    ensures StrictlyOrdered(NodeKey, r)
    ensures forall n :: n in r <==> ContractOf(g, core, n)
  {
    hide NodeKey, EdgeKey, IsNormalForm;
    var present := set node | node in g.nodes :: node.id;
    var contracts := set n | n in core && n.kind == CONTRACT;
    var governing: seq<Edge> := [];
    for i := 0 to |g.edges|
      invariant forall e :: e in governing <==> e in g.edges[..i] && Governs(g, e.id.source, e)
    {
      assert g.edges[..i + 1] == g.edges[..i] + [g.edges[i]];
      var e := g.edges[i];
      assert e in g.edges && HasId(g.nodes, e.id.source);
      if e.id.kind == GOVERNS && e.id.source.kind == CONTRACT && e.id.source in present {
        governing := governing + [e];
      }
    }
    assert g.edges[..|g.edges|] == g.edges;
    var rest := core;
    while rest != {}
      invariant rest <= core
      invariant forall n :: n in contracts <==> (n in core && n.kind == CONTRACT) || GovernsSome(g, core - rest, n)
    {
      var node :| node in rest;
      var chain := CollectAncestors(node);
      GovernsStep(g, core, rest, node, governing, chain);
      contracts := contracts + set e | e in governing && e.id.target in [node] + chain :: e.id.source;
      rest := rest - {node};
    }
    NodeKeyInjective();
    r := SortSet(NodeKey, contracts);
    assert core - rest == core;
  }

  ghost predicate GovernsSome(g: Graph, core: set<NodeId>, n: NodeId) {
    exists e, m :: Governs(g, n, e) && m in core && AtOrAbove(e.id.target, m)
  }

  lemma GovernsStep(g: Graph, core: set<NodeId>, rest: set<NodeId>, node: NodeId, governing: seq<Edge>, chain: seq<NodeId>)
    requires node in rest && rest <= core && chain == Ancestors(node)
    requires forall e :: e in governing <==> Governs(g, e.id.source, e)
    ensures forall n :: GovernsSome(g, core - (rest - {node}), n) <==>
      || GovernsSome(g, core - rest, n)
      || exists e :: e in governing && e.id.target in [node] + chain && e.id.source == n
  {
    forall n ensures GovernsSome(g, core - (rest - {node}), n) <==>
      GovernsSome(g, core - rest, n) || exists e :: e in governing && e.id.target in [node] + chain && e.id.source == n
    {
      if GovernsSome(g, core - (rest - {node}), n) {
        var e, m :| Governs(g, n, e) && m in core - (rest - {node}) && AtOrAbove(e.id.target, m);
        assert e in governing && (m == node ==> e.id.target in [node] + chain);
        assert m != node ==> m in core - rest;
      }
      if GovernsSome(g, core - rest, n) {
        var e, m :| Governs(g, n, e) && m in core - rest && AtOrAbove(e.id.target, m);
        assert m in core - (rest - {node});
      }
      if e :| e in governing && e.id.target in [node] + chain && e.id.source == n {
        assert Governs(g, n, e) && AtOrAbove(e.id.target, node) && node in core - (rest - {node});
      }
    }
  }

  ghost predicate ContractOf(g: Graph, core: set<NodeId>, n: NodeId) {
    (n in core && n.kind == CONTRACT) || GovernsSome(g, core, n)
  }

  // ----- the analysis

  /** The distinct roots, in canonical order; refused when there are none or one is not in the graph. */
  method NormalizeChangedRoots(g: Graph, changed: seq<NodeId>) returns (r: Result<seq<NodeId>>)
    ensures r.Success? <==> changed != [] && forall n :: n in changed ==> HasId(g.nodes, n)
    ensures r.Success? ==> StrictlyOrdered(NodeKey, r.value) && forall n :: n in r.value <==> n in changed
  {
    hide NodeKey;
    if changed == [] {
      return Failure;
    }
    for i := 0 to |changed|
      invariant forall n :: n in changed[..i] ==> HasId(g.nodes, n)
    {
      if !(exists node :: node in g.nodes && node.id == changed[i]) {
        assert changed[i] in changed;
        return Failure;
      }
      assert changed[..i + 1] == changed[..i] + [changed[i]];
    }
    assert changed[..|changed|] == changed;
    NodeKeyInjective();
    var roots := SortDistinct(NodeKey, changed);
    r := Success(roots);
  }

  /** Nodes reached from present roots are present, so their ancestors are. */
  lemma {:induction false} ReachedIsPresent(g: Graph, root: NodeId, steps: seq<Step>, n: NodeId)
    requires ValidGraph(g) && HasId(g.nodes, root) && IsWalk(g, root, steps, n)
    ensures HasId(g.nodes, n)
  {
  }

  method AnalyzeDownstreamImpact(g: Graph, changed: seq<NodeId>) returns (r: Result<ImpactResult>)
    requires ValidGraph(g)
    ensures r.Success? <==> changed != [] && forall n :: n in changed ==> HasId(g.nodes, n)
    ensures r.Success? ==> IsImpactOf(g, (set n | n in changed), r.value)
  {
    hide NodeKey, EdgeKey, ValidGraph, AdjacencyOf, SearchResult, AreAffected, AreAttached, Reached;
    var normalized := NormalizeChangedRoots(g, changed);
    if normalized.Failure? {
      return Failure;
    }
    var rootList := normalized.value;
    var roots := set n | n in rootList;
    assert roots == set n | n in changed;
    var adj := BuildEffectiveAdjacency(g);
    var distance, bestPath := Search(g, adj, rootList);
    var direct, transitive, paths := CollectAffected(g, roots, distance, bestPath);
    var core := roots + (set n | n in direct) + (set n | n in transitive);
    CoreIsReached(g, roots, distance, bestPath, core);
    var edges, assets, contracts, relevant := CollectAttached(g, adj, roots, core);
    r := Success(ImpactResult(rootList, direct, transitive, edges, paths, contracts, assets, relevant));
  }

  method CollectAffected(g: Graph, roots: set<NodeId>, distance: map<NodeId, nat>, bestPath: map<NodeId, ImpactPath>)
      returns (direct: seq<NodeId>, transitive: seq<NodeId>, paths: seq<ImpactPath>)
    requires SearchResult(g, roots, distance, bestPath)
    ensures AreAffected(g, roots, direct, transitive, paths)
    ensures forall n :: n in direct || n in transitive <==> n in distance && n !in roots
  {
    hide NodeKey, TargetKey, SearchResult, AreAffected, StrictlyOrdered;
    NodeKeyInjective();
    TargetsDiffer(g, roots, distance, bestPath);
    direct := SortSet(NodeKey, set n | n in distance && distance[n] == 1);
    transitive := SortSet(NodeKey, set n | n in distance && distance[n] >= 2);
    paths := SortSet(TargetKey, bestPath.Values);
    AffectedListed(g, roots, distance, bestPath, direct, transitive, paths);
  }

  lemma AffectedListed(g: Graph, roots: set<NodeId>, dist: map<NodeId, nat>, best: map<NodeId, ImpactPath>,
      direct: seq<NodeId>, transitive: seq<NodeId>, paths: seq<ImpactPath>)
    requires SearchResult(g, roots, dist, best)
    requires StrictlyOrdered(NodeKey, direct) && forall n :: n in direct <==> n in dist && dist[n] == 1
    requires StrictlyOrdered(NodeKey, transitive) && forall n :: n in transitive <==> n in dist && dist[n] >= 2
    requires StrictlyOrdered(TargetKey, paths) && forall p :: p in paths <==> p in best.Values
    ensures AreAffected(g, roots, direct, transitive, paths)
    ensures forall n :: n in direct || n in transitive <==> n in dist && n !in roots
  {
    hide NodeKey, SearchResult, AtDistance, PathAccepted, IsCanonicalPath, StrictlyOrdered;
    PathsKept(g, roots, dist, best);
    DistancesKept(g, roots, dist, best);
    assert forall n :: n in dist ==> AtDistance(g, roots, n, dist[n]);
    forall n ensures (exists p :: p in paths && p.target == n) <==> n in best {
      if n in best { assert best[n] in best.Values; }
    }
  }

  lemma TargetsDiffer(g: Graph, roots: set<NodeId>, dist: map<NodeId, nat>, best: map<NodeId, ImpactPath>)
    requires SearchResult(g, roots, dist, best)
    ensures forall p, q :: p in best.Values && q in best.Values && TargetKey(p) == TargetKey(q) ==> p == q
  {
    hide NodeKey, SearchResult;
    NodeKeyInjective();
    PathsKept(g, roots, dist, best);
  }

  lemma PathsKept(g: Graph, roots: set<NodeId>, dist: map<NodeId, nat>, best: map<NodeId, ImpactPath>)
    requires SearchResult(g, roots, dist, best)
    ensures forall n :: n in best ==> best[n].target == n && PathAccepted(best[n]) && IsCanonicalPath(g, roots, best[n])
  {
    hide PathAccepted, AtDistance;
  }

  lemma DistancesKept(g: Graph, roots: set<NodeId>, dist: map<NodeId, nat>, best: map<NodeId, ImpactPath>)
    requires SearchResult(g, roots, dist, best)
    ensures forall n, k :: AtDistance(g, roots, n, k) <==> n in dist && dist[n] == k
    ensures forall n :: n in best <==> n in dist && n !in roots
    ensures forall n :: n in dist ==> (n in roots <==> dist[n] == 0)
  {
    hide PathAccepted, IsCanonicalPath, AtDistance;
    RootsAtZero(g, roots, dist, best);
  }

  /** The nodes at distance zero are the roots. */
  lemma RootsAtZero(g: Graph, roots: set<NodeId>, dist: map<NodeId, nat>, best: map<NodeId, ImpactPath>)
    requires SearchResult(g, roots, dist, best)
    ensures forall n :: n in roots <==> n in dist && dist[n] == 0
  {
    hide PathAccepted, IsCanonicalPath;
    forall n ensures n in roots <==> n in dist && dist[n] == 0 {
      if n in roots {
        assert IsWalk(g, n, [], n);
        assert ReachedIn(g, roots, n, 0);
      }
      assert AtDistance(g, roots, n, 0) <==> n in roots;
    }
  }

  method CollectAttached(g: Graph, adj: Adjacency, roots: set<NodeId>, core: set<NodeId>)
      returns (edges: seq<Edge>, assets: seq<NodeId>, contracts: seq<NodeId>, relevant: seq<NodeId>)
    requires ValidGraph(g) && AdjacencyOf(g, adj) && forall n :: n in core ==> HasId(g.nodes, n)
    requires forall n :: n in core <==> Reached(g, roots, n)
    ensures AreAttached(g, roots, edges, assets, contracts, relevant)
  {
    hide NodeKey, EdgeKey, ValidGraph, AdjacencyOf, Reached;
    edges := CollectAffectedEdges(g, adj, core);
    assets := AssociateGovernanceAssets(g, core);
    contracts := AssociateContracts(g, core);
    NodeKeyInjective();
    relevant := SortDistinct(NodeKey, PolicyRelevantNodes(assets));
    PartsMatch(g, roots, core, edges, assets, contracts);
  }

  function PolicyRelevantNodes(assets: seq<NodeId>): (r: seq<NodeId>)
    ensures forall n :: n in r <==> n in assets && n.kind in POLICY_RELEVANT_KINDS
  {
    if assets == [] then []
    else (if assets[0].kind in POLICY_RELEVANT_KINDS then [assets[0]] else []) + PolicyRelevantNodes(assets[1..])
  }

  /** Roots and affected nodes together are the nodes reached, and all of them are in the graph. */
  lemma CoreIsReached(g: Graph, roots: set<NodeId>, dist: map<NodeId, nat>, best: map<NodeId, ImpactPath>, core: set<NodeId>)
    requires ValidGraph(g) && SearchResult(g, roots, dist, best) && forall r :: r in roots ==> HasId(g.nodes, r)
    requires forall n :: n in core <==> n in roots || (n in dist && n !in roots)
    ensures forall n :: n in core <==> Reached(g, roots, n)
    ensures forall n :: n in core ==> HasId(g.nodes, n)
  {
    hide PathAccepted, IsCanonicalPath, ValidGraph, IsWalk;
    RootsAtZero(g, roots, dist, best);
    forall n | n in core ensures HasId(g.nodes, n) {
      assert AtDistance(g, roots, n, dist[n]);
      var root, steps :| root in roots && |steps| == dist[n] && IsWalk(g, root, steps, n);
      ReachedIsPresent(g, root, steps, n);
    }
  }

  /** The collections over the core, restated over what is reached. The core is closed under hops. */
  lemma PartsMatch(g: Graph, roots: set<NodeId>, core: set<NodeId>, edges: seq<Edge>, assets: seq<NodeId>, contracts: seq<NodeId>)
    requires forall n :: n in core <==> Reached(g, roots, n)
    requires forall e :: e in edges <==> IsCoreEdge(g, core, core, e)
    requires forall n :: n in assets <==> AssetOf(core, n)
    requires forall n :: n in contracts <==> ContractOf(g, core, n)
    ensures forall e :: e in edges <==> IsAffectedEdge(g, roots, e)
    ensures forall n :: n in assets <==> IsAsset(g, roots, n)
    ensures forall n :: n in contracts <==> IsAssociatedContract(g, roots, n)
  {
    hide Reached;
    forall e | IsAffectedEdge(g, roots, e) ensures e in edges {
      CoreClosed(g, roots, HopOf(e).value);
    }
  }
}
