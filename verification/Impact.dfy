/**
 The downstream impact analysis: a layer-by-layer search from several roots that records a
 distance and a canonical path for every affected node, and the collections built on it.
 */
module Impact {
  import opened Outcomes
  import opened Texts
  import opened Sorting
  import opened Graphs
  import opened Walks

  const CONTRACT := "contract"

  type Adjacency = map<NodeId, seq<Step>>

  function HopsFrom(adj: Adjacency, n: NodeId): seq<Step> {
    if n in adj then adj[n] else []
  }

  function Lookup(best: map<NodeId, ImpactPath>, n: NodeId): Option<ImpactPath> {
    if n in best then Some(best[n]) else None
  }

  /** `adj` lists exactly the effective hops that leave each node. */
  ghost predicate AdjacencyOf(g: Graph, adj: Adjacency) {
    && (forall n, h :: h in HopsFrom(adj, n) ==> IsHop(g, h) && h.from == n)
    && (forall h :: IsHop(g, h) ==> h in HopsFrom(adj, h.from))
  }

  function HopKey(h: Step): SortKey {
    NodeKey(h.to) + EdgeKey(h.edge.id) + [TraversalText(h.traversal)]
  }

  function HopSource(h: Step): NodeId { h.from }

  method CollectEffectiveHops(g: Graph) returns (hops: seq<Step>)
    ensures forall h :: h in hops <==> IsHop(g, h)
  {
    hops := [];
    for i := 0 to |g.edges|
      invariant forall h :: h in hops ==> IsHop(g, h)
      invariant forall j :: 0 <= j < i ==> HopOf(g.edges[j]).Some? ==> HopOf(g.edges[j]).value in hops
    {
      match HopOf(g.edges[i]) {
        case None =>
        case Some(h) => hops := hops + [h];
      }
    }
    forall h | IsHop(g, h) ensures h in hops {
      var j :| 0 <= j < |g.edges| && g.edges[j] == h.edge;
    }
  }

  method BuildEffectiveAdjacency(g: Graph) returns (adj: Adjacency)
    ensures AdjacencyOf(g, adj)
    ensures forall n :: n in adj ==> adj[n] != [] && Ordered(HopKey, adj[n])
  {
    hide HopKey, IsHop, HopsFrom, Grouped, Ordered;
    var hops := CollectEffectiveHops(g);
    var buckets := GroupBy(HopSource, hops);
    adj := map n | n in buckets :: SortBy(HopKey, buckets[n]);
    SortedBuckets(hops, buckets, adj);
  }

  /** Grouping and sorting lose no hop and move none to another node; each bucket is in hop order. */
  lemma SortedBuckets(hops: seq<Step>, buckets: map<NodeId, seq<Step>>, adj: Adjacency)
    requires Grouped(HopSource, hops, buckets)
    requires adj.Keys == buckets.Keys && forall n :: n in buckets ==> adj[n] == SortBy(HopKey, buckets[n])
    ensures forall n, h :: h in HopsFrom(adj, n) <==> h in hops && h.from == n
    ensures forall n :: n in adj ==> adj[n] != [] && Ordered(HopKey, adj[n])
  {
    hide HopKey;
    forall n | n in adj ensures adj[n] != [] && Ordered(HopKey, adj[n]) {
      SortByOrdered(HopKey, buckets[n]);
    }
    forall n, h ensures h in HopsFrom(adj, n) <==> h in hops && h.from == n {
      if n in buckets { SortByOrdered(HopKey, buckets[n]); }
    }
  }

  // ----- one layer

  /**
   The state inside a layer. `dist0` and `best0` are the maps at its start, `seen` the
   candidates scanned so far: every target met is known, and each newly found node holds the
   least of its candidates.
   */
  ghost predicate LayerState(roots: set<NodeId>, d: nat, dist0: map<NodeId, nat>, best0: map<NodeId, ImpactPath>,
      seen: seq<ImpactPath>, dist: map<NodeId, nat>, best: map<NodeId, ImpactPath>, next: map<NodeId, ImpactPath>) {
    && dist.Keys == dist0.Keys + next.Keys && dist0.Keys !! next.Keys
    && best.Keys == best0.Keys + next.Keys && best0.Keys !! next.Keys
    && roots !! next.Keys
    && (forall n :: n in dist0 ==> dist[n] == dist0[n])
    && (forall n :: n in best0 ==> best[n] == best0[n])
    && (forall n :: n in next ==> dist[n] == d + 1 && best[n] in seen && best[n].target == n)
    && (forall c :: c in seen ==> c.target in roots || c.target in dist)
    && (forall c :: c in seen && c.target in next ==> !PathLess(c, best[c.target]))
  }

  /** A candidate with a smaller key replaces the path kept for a node found in this layer. */
  lemma ImproveKeepsState(roots: set<NodeId>, d: nat, dist0: map<NodeId, nat>, best0: map<NodeId, ImpactPath>,
      seen: seq<ImpactPath>, dist: map<NodeId, nat>, best: map<NodeId, ImpactPath>, next: map<NodeId, ImpactPath>,
      candidate: ImpactPath)
    requires LayerState(roots, d, dist0, best0, seen, dist, best, next)
    requires candidate.target in next && PathLess(candidate, best[candidate.target])
    ensures LayerState(roots, d, dist0, best0, seen + [candidate], dist, best[candidate.target := candidate], next)
  {
    hide PathLess;
    PathLessIrreflexive(candidate);
    forall c | c in seen && c.target == candidate.target ensures !PathLess(c, candidate) {
      PathLessChain(c, best[c.target], candidate);
    }
  }

  lemma DiscoverKeepsState(roots: set<NodeId>, d: nat, dist0: map<NodeId, nat>, best0: map<NodeId, ImpactPath>,
      seen: seq<ImpactPath>, dist: map<NodeId, nat>, best: map<NodeId, ImpactPath>, next: map<NodeId, ImpactPath>,
      candidate: ImpactPath)
    requires LayerState(roots, d, dist0, best0, seen, dist, best, next)
    requires candidate.target !in dist && candidate.target !in roots && best0.Keys == dist0.Keys - roots
    ensures var t := candidate.target;
      LayerState(roots, d, dist0, best0, seen + [candidate], dist[t := d + 1], best[t := candidate], next[t := candidate])
  {
    hide PathLess;
    PathLessIrreflexive(candidate);
  }

  lemma PathLessIrreflexive(p: ImpactPath)
    ensures !PathLess(p, p)
  {
    LessTotal(PathKey(p.root, p.steps), PathKey(p.root, p.steps));
  }

  /** A path not below `b` is not below anything that is below `b`. */
  lemma PathLessChain(a: ImpactPath, b: ImpactPath, c: ImpactPath)
    requires !PathLess(a, b) && PathLess(c, b)
    ensures !PathLess(a, c)
  {
    LessTotal(PathKey(c.root, c.steps), PathKey(b.root, b.steps));
    KeyChain(PathKey(a.root, a.steps), PathKey(b.root, b.steps), PathKey(c.root, c.steps));
  }

  lemma KeyChain(a: string, b: string, c: string)
    requires !Less(a, b) && !Less(b, c)
    ensures !Less(a, c)
  {
    LessTotal(a, b);
    LessTotal(b, c);
    if Less(a, c) {
      if b != c { LessTransitive(a, c, b); }
    }
  }

  /** The body of the first scan: one candidate is compared with what is known of its target. */
  method Relax(roots: set<NodeId>, d: nat, candidate: ImpactPath,
      distance: map<NodeId, nat>, bestPath: map<NodeId, ImpactPath>, nextCandidates: map<NodeId, ImpactPath>,
      ghost dist0: map<NodeId, nat>, ghost best0: map<NodeId, ImpactPath>, ghost seen: seq<ImpactPath>)
      returns (distance': map<NodeId, nat>, best': map<NodeId, ImpactPath>, next': map<NodeId, ImpactPath>)
    requires LayerState(roots, d, dist0, best0, seen, distance, bestPath, nextCandidates)
    requires forall n :: n in dist0 ==> dist0[n] <= d
    requires best0.Keys == dist0.Keys - roots
    ensures LayerState(roots, d, dist0, best0, seen + [candidate], distance', best', next')
  {
    hide PathLess;
    var target, newDistance := candidate.target, d + 1;
    distance', best', next' := distance, bestPath, nextCandidates;
    if target in roots {
      return;
    }
    if target in distance && newDistance > distance[target] {
      return;
    }
    if target in distance && newDistance == distance[target] {
      if !PathLess(candidate, bestPath[target]) {
        return;
      }
      ImproveKeepsState(roots, d, dist0, best0, seen, distance, bestPath, nextCandidates, candidate);
      best' := bestPath[target := candidate];
      return;
    }
    DiscoverKeepsState(roots, d, dist0, best0, seen, distance, bestPath, nextCandidates, candidate);
    distance' := distance[target := newDistance];
    best' := bestPath[target := candidate];
    next' := nextCandidates[target := candidate];
  }

  /** `c` is the candidate for some hop that leaves a node of the frontier. */
  ghost predicate IsCandidate(adj: Adjacency, frontier: seq<NodeId>, best: map<NodeId, ImpactPath>, c: ImpactPath) {
    exists n, h :: n in frontier && h in HopsFrom(adj, n) && c == ExtendPath(n, Lookup(best, n), h)
  }

  /** The first scan of a layer, over the frontier in node order and the hops of each node. */
  method ScanLayer(adj: Adjacency, roots: set<NodeId>, d: nat, frontier: seq<NodeId>,
      dist0: map<NodeId, nat>, best0: map<NodeId, ImpactPath>)
      returns (distance: map<NodeId, nat>, bestPath: map<NodeId, ImpactPath>, nextCandidates: map<NodeId, ImpactPath>,
               ghost seen: seq<ImpactPath>)
    requires forall n :: n in dist0 ==> dist0[n] <= d
    requires best0.Keys == dist0.Keys - roots
    requires forall n :: n in frontier ==> n in dist0 && dist0[n] == d
    ensures LayerState(roots, d, dist0, best0, seen, distance, bestPath, nextCandidates)
    ensures forall c :: c in seen <==> IsCandidate(adj, frontier, best0, c)
  {
    hide LayerState, ExtendPath;
    distance, bestPath, nextCandidates := dist0, best0, map[];
    seen := [];
    LayerStart(roots, d, dist0, best0);
    for i := 0 to |frontier|
      invariant LayerState(roots, d, dist0, best0, seen, distance, bestPath, nextCandidates)
      invariant forall c :: c in seen <==> IsCandidate(adj, frontier[..i], best0, c)
    {
      var node := frontier[i];
      var parentPath := Lookup(bestPath, node);
      FrontierUntouched(roots, d, dist0, best0, seen, distance, bestPath, nextCandidates, node);
      var hops := HopsFrom(adj, node);
      ghost var seen0 := seen;
      for j := 0 to |hops|
        invariant LayerState(roots, d, dist0, best0, seen, distance, bestPath, nextCandidates)
        invariant forall c :: c in seen <==> c in seen0 || IsCandidateOf(node, parentPath, hops[..j], c)
      {
        CandidatesSnoc(node, parentPath, hops, j);
        var candidate := ExtendPath(node, parentPath, hops[j]);
        distance, bestPath, nextCandidates :=
          Relax(roots, d, candidate, distance, bestPath, nextCandidates, dist0, best0, seen);
        seen := seen + [candidate];
      }
      assert hops[..|hops|] == hops;
      FrontierSnoc(adj, frontier, best0, i);
    }
    assert frontier[..|frontier|] == frontier;
  }

  lemma LayerStart(roots: set<NodeId>, d: nat, dist0: map<NodeId, nat>, best0: map<NodeId, ImpactPath>)
    ensures LayerState(roots, d, dist0, best0, [], dist0, best0, map[])
  {
  }

  /** No scan of a layer touches the path of a node that was known before the layer. */
  lemma FrontierUntouched(roots: set<NodeId>, d: nat, dist0: map<NodeId, nat>, best0: map<NodeId, ImpactPath>,
      seen: seq<ImpactPath>, dist: map<NodeId, nat>, best: map<NodeId, ImpactPath>, next: map<NodeId, ImpactPath>, n: NodeId)
    requires LayerState(roots, d, dist0, best0, seen, dist, best, next) && n in dist0
    ensures Lookup(best, n) == Lookup(best0, n)
  {
  }

  ghost predicate IsCandidateOf(node: NodeId, parentPath: Option<ImpactPath>, hops: seq<Step>, c: ImpactPath) {
    exists h :: h in hops && c == ExtendPath(node, parentPath, h)
  }

  lemma CandidatesSnoc(node: NodeId, parentPath: Option<ImpactPath>, hops: seq<Step>, j: nat)
    requires j < |hops|
    ensures forall c :: IsCandidateOf(node, parentPath, hops[..j + 1], c) <==>
      IsCandidateOf(node, parentPath, hops[..j], c) || c == ExtendPath(node, parentPath, hops[j])
  {
    hide ExtendPath;
    assert hops[..j + 1] == hops[..j] + [hops[j]];
    forall c ensures IsCandidateOf(node, parentPath, hops[..j + 1], c) <==>
      IsCandidateOf(node, parentPath, hops[..j], c) || c == ExtendPath(node, parentPath, hops[j])
    {
      if IsCandidateOf(node, parentPath, hops[..j], c) {
        var h :| h in hops[..j] && c == ExtendPath(node, parentPath, h);
        assert h in hops[..j + 1];
      }
      assert hops[j] in hops[..j + 1];
    }
  }

  lemma FrontierSnoc(adj: Adjacency, frontier: seq<NodeId>, best: map<NodeId, ImpactPath>, i: nat)
    requires i < |frontier|
    ensures forall c :: IsCandidate(adj, frontier[..i + 1], best, c) <==>
      || IsCandidate(adj, frontier[..i], best, c)
      || IsCandidateOf(frontier[i], Lookup(best, frontier[i]), HopsFrom(adj, frontier[i]), c)
  {
    hide ExtendPath, Lookup, HopsFrom;
    assert frontier[..i + 1] == frontier[..i] + [frontier[i]];
  }

  /** The second scan of a layer. It changes no path: the first scan already kept the least candidates. */
  method RescanLayer(adj: Adjacency, d: nat, frontier: seq<NodeId>, distance: map<NodeId, nat>,
      best0: map<NodeId, ImpactPath>, next0: map<NodeId, ImpactPath>)
      returns (bestPath: map<NodeId, ImpactPath>, nextCandidates: map<NodeId, ImpactPath>)
    requires next0.Keys <= best0.Keys
    requires forall c :: IsCandidate(adj, frontier, best0, c) && c.target in next0 ==> !PathLess(c, best0[c.target])
    ensures bestPath == best0 && nextCandidates == next0
  {
    bestPath, nextCandidates := best0, next0;
    for i := 0 to |frontier|
      invariant bestPath == best0 && nextCandidates == next0
    {
      var node := frontier[i];
      var parentPath := Lookup(bestPath, node);
      var hops := HopsFrom(adj, node);
      for j := 0 to |hops|
        invariant bestPath == best0 && nextCandidates == next0
      {
        var target := hops[j].to;
        if target in nextCandidates {
          var candidate := ExtendPath(node, parentPath, hops[j]);
          assert IsCandidate(adj, frontier, best0, candidate);
          if target in distance && node in distance && distance[target] == distance[node] + 1
             && PathLess(candidate, bestPath[target]) {
            bestPath := bestPath[target := candidate];
            nextCandidates := nextCandidates[target := candidate];
          }
        }
      }
    }
  }

  // ----- the search

  /** What holds of the maps when every layer up to `d` is finished. */
  ghost predicate SearchState(g: Graph, roots: set<NodeId>, d: nat, dist: map<NodeId, nat>, best: map<NodeId, ImpactPath>) {
    && (forall r :: r in roots ==> r in dist && dist[r] == 0)
    && best.Keys == dist.Keys - roots
    && (forall n :: n in dist ==> dist[n] <= d)
    && (forall n :: n in best ==> Recorded(g, roots, n, dist[n], best[n]))
    && Covers(g, roots, d, dist)
    && (forall n :: n in best ==> IsLeast(g, roots, best[n]))
  }

  /** Every walk of at most `d` steps ends at a known node, no further away than the walk is long. */
  ghost predicate Covers(g: Graph, roots: set<NodeId>, d: nat, dist: map<NodeId, nat>) {
    forall root, steps, n :: root in roots && |steps| <= d && IsWalk(g, root, steps, n) ==> n in dist && dist[n] <= |steps|
  }

  /** `p` is a walk of length `k` to `n` that both constructors accept. */
  ghost predicate Recorded(g: Graph, roots: set<NodeId>, n: NodeId, k: nat, p: ImpactPath) {
    p.root in roots && p.target == n && |p.steps| == k && k >= 1 && IsWalk(g, p.root, p.steps, n) && PathAccepted(p)
  }

  /** A node at a recorded distance is reached by a walk of that length. */
  lemma WalkTo(g: Graph, roots: set<NodeId>, d: nat, dist: map<NodeId, nat>, best: map<NodeId, ImpactPath>, n: NodeId)
      returns (root: NodeId, steps: seq<Step>)
    requires SearchState(g, roots, d, dist, best) && n in dist
    ensures root in roots && |steps| == dist[n] && IsWalk(g, root, steps, n)
  {
    if n in roots {
      root, steps := n, [];
    } else {
      root, steps := best[n].root, best[n].steps;
    }
  }

  /** One hop after a known node leads to a known node, no more than one hop further away. */
  lemma HopFromKnown(g: Graph, roots: set<NodeId>, d: nat, dist: map<NodeId, nat>, best: map<NodeId, ImpactPath>, hop: Step)
    requires SearchState(g, roots, d, dist, best)
    requires IsHop(g, hop) && hop.from in dist && dist[hop.from] < d
    ensures hop.to in dist && dist[hop.to] <= dist[hop.from] + 1
  {
    hide IsLeast, PathAccepted, IsHop, IsWalk;
    var root, steps := WalkTo(g, roots, d, dist, best, hop.from);
    WalkSnoc(g, root, steps, hop);
  }

  /** The candidate of a frontier node along a hop is a recorded walk, one step longer. */
  lemma CandidateRecorded(g: Graph, roots: set<NodeId>, d: nat, dist: map<NodeId, nat>, best: map<NodeId, ImpactPath>,
      n: NodeId, h: Step)
    requires SearchState(g, roots, d, dist, best) && n in dist && dist[n] == d && IsHop(g, h) && h.from == n
    ensures Recorded(g, roots, h.to, d + 1, ExtendPath(n, Lookup(best, n), h))
  {
    ExtendAccepted(n, Lookup(best, n), h);
    match Lookup(best, n) {
      case None => WalkSnoc(g, n, [], h); assert [] + [h] == [h];
      case Some(p) => WalkSnoc(g, p.root, p.steps, h);
    }
  }

  /** Optimal substructure: no walk that ends with hop `h` from `n` has a smaller key than the candidate. */
  lemma CandidateLeast(g: Graph, roots: set<NodeId>, d: nat, dist: map<NodeId, nat>, best: map<NodeId, ImpactPath>,
      n: NodeId, h: Step, root: NodeId, steps: seq<Step>)
    requires SearchState(g, roots, d, dist, best) && n in dist && dist[n] == d
    requires root in roots && |steps| == d && IsWalk(g, root, steps, n) && IsHop(g, h) && h.from == n
    ensures var c := ExtendPath(n, Lookup(best, n), h);
      !Less(PathKey(root, steps + [h]), PathKey(c.root, c.steps))
  {
    hide PathKey;
    if n in roots {
      assert steps == [] && [] + [h] == [h];
      LessTotal(PathKey(n, [h]), PathKey(n, [h]));
    } else {
      ExtensionKeepsOrder(root, steps, best[n].root, best[n].steps, h);
    }
  }

  /** A walk one step longer than the finished layers: its last hop leaves a known node. */
  lemma LastHop(g: Graph, roots: set<NodeId>, d: nat, dist: map<NodeId, nat>, best: map<NodeId, ImpactPath>,
      root: NodeId, steps: seq<Step>, n: NodeId)
    requires SearchState(g, roots, d, dist, best) && root in roots && |steps| == d + 1 && IsWalk(g, root, steps, n)
    ensures var h := steps[d];
      && IsHop(g, h) && h.to == n && steps == steps[..d] + [h] && IsWalk(g, root, steps[..d], h.from)
      && h.from in dist && (dist[h.from] == d || (n in dist && dist[n] <= d))
  {
    var h := steps[d];
    if dist[h.from] < d {
      HopFromKnown(g, roots, d, dist, best, h);
    }
  }

  /** A layer ends with every walk of up to `d + 1` steps at a known node. */
  lemma LayerCovers(g: Graph, roots: set<NodeId>, adj: Adjacency, d: nat, frontier: seq<NodeId>,
      dist0: map<NodeId, nat>, best0: map<NodeId, ImpactPath>, seen: seq<ImpactPath>,
      dist: map<NodeId, nat>, best: map<NodeId, ImpactPath>, next: map<NodeId, ImpactPath>)
    requires AdjacencyOf(g, adj) && SearchState(g, roots, d, dist0, best0)
    requires forall n :: n in frontier <==> n in dist0 && dist0[n] == d
    requires LayerState(roots, d, dist0, best0, seen, dist, best, next)
    requires forall c :: c in seen <==> IsCandidate(adj, frontier, best0, c)
    ensures Covers(g, roots, d + 1, dist)
  {
    hide PathKey, IsWalk, IsHop, PathAccepted;
    forall root, steps: seq<Step>, n | root in roots && |steps| <= d + 1 && IsWalk(g, root, steps, n)
      ensures n in dist && dist[n] <= |steps|
    {
      if |steps| == d + 1 {
        LastHop(g, roots, d, dist0, best0, root, steps, n);
        var h := steps[d];
        if dist0[h.from] == d {
          assert IsCandidate(adj, frontier, best0, ExtendPath(h.from, Lookup(best0, h.from), h));
        }
      }
    }
  }

  /** A node found in a finished layer holds a recorded walk, least among all walks to it. */
  lemma FoundLeast(g: Graph, roots: set<NodeId>, adj: Adjacency, d: nat, frontier: seq<NodeId>,
      dist0: map<NodeId, nat>, best0: map<NodeId, ImpactPath>, seen: seq<ImpactPath>,
      dist: map<NodeId, nat>, best: map<NodeId, ImpactPath>, next: map<NodeId, ImpactPath>, n: NodeId)
    requires AdjacencyOf(g, adj) && SearchState(g, roots, d, dist0, best0)
    requires forall n :: n in frontier <==> n in dist0 && dist0[n] == d
    requires LayerState(roots, d, dist0, best0, seen, dist, best, next)
    requires forall c :: c in seen <==> IsCandidate(adj, frontier, best0, c)
    requires n in next
    ensures n in best && Recorded(g, roots, n, d + 1, best[n]) && IsLeast(g, roots, best[n])
  {
    hide IsLeast, ExtendPath, PathLess, SearchState, Recorded, HopsFrom;
    var m, h :| m in frontier && h in HopsFrom(adj, m) && best[n] == ExtendPath(m, Lookup(best0, m), h);
    CandidateRecorded(g, roots, d, dist0, best0, m, h);
    ExtensionTarget(m, Lookup(best0, m), h);
    NewPathLeast(g, roots, adj, d, frontier, dist0, best0, seen, dist, best, next, n);
  }

  lemma ExtensionTarget(n: NodeId, p: Option<ImpactPath>, h: Step)
    ensures ExtendPath(n, p, h).target == h.to
  {
  }

  /** A finished layer extends the search state by one. */
  lemma LayerAdvances(g: Graph, roots: set<NodeId>, adj: Adjacency, d: nat, frontier: seq<NodeId>,
      dist0: map<NodeId, nat>, best0: map<NodeId, ImpactPath>, seen: seq<ImpactPath>,
      dist: map<NodeId, nat>, best: map<NodeId, ImpactPath>, next: map<NodeId, ImpactPath>)
    requires AdjacencyOf(g, adj) && SearchState(g, roots, d, dist0, best0)
    requires forall n :: n in frontier <==> n in dist0 && dist0[n] == d
    requires LayerState(roots, d, dist0, best0, seen, dist, best, next)
    requires forall c :: c in seen <==> IsCandidate(adj, frontier, best0, c)
    ensures SearchState(g, roots, d + 1, dist, best)
    ensures forall n :: n in next <==> n in dist && dist[n] == d + 1
  {
    hide IsLeast, IsCandidate, PathLess, Covers, Recorded, AdjacencyOf;
    LayerCovers(g, roots, adj, d, frontier, dist0, best0, seen, dist, best, next);
    forall n | n in next ensures Recorded(g, roots, n, d + 1, best[n]) && IsLeast(g, roots, best[n]) {
      FoundLeast(g, roots, adj, d, frontier, dist0, best0, seen, dist, best, next, n);
    }
  }

  /** A newly found node was unknown before, and holds a path that no candidate for it is below. */
  lemma KeptPath(roots: set<NodeId>, d: nat, dist0: map<NodeId, nat>, best0: map<NodeId, ImpactPath>,
      seen: seq<ImpactPath>, dist: map<NodeId, nat>, best: map<NodeId, ImpactPath>, next: map<NodeId, ImpactPath>, n: NodeId)
    requires LayerState(roots, d, dist0, best0, seen, dist, best, next) && n in next
    ensures n !in dist0 && n in best
    ensures forall c :: c in seen && c.target == n ==> !PathLess(c, best[n])
  {
    hide PathLess;
  }

  /** A hop from a frontier node is among the candidates scanned. */
  lemma HopScanned(g: Graph, adj: Adjacency, frontier: seq<NodeId>, best0: map<NodeId, ImpactPath>, seen: seq<ImpactPath>, h: Step)
    requires AdjacencyOf(g, adj) && IsHop(g, h) && h.from in frontier
    requires forall c :: c in seen <==> IsCandidate(adj, frontier, best0, c)
    ensures ExtendPath(h.from, Lookup(best0, h.from), h) in seen
  {
    hide ExtendPath, Lookup, IsHop;
    assert IsCandidate(adj, frontier, best0, ExtendPath(h.from, Lookup(best0, h.from), h));
  }

  lemma NewPathLeast(g: Graph, roots: set<NodeId>, adj: Adjacency, d: nat, frontier: seq<NodeId>,
      dist0: map<NodeId, nat>, best0: map<NodeId, ImpactPath>, seen: seq<ImpactPath>,
      dist: map<NodeId, nat>, best: map<NodeId, ImpactPath>, next: map<NodeId, ImpactPath>, n: NodeId)
    requires AdjacencyOf(g, adj) && SearchState(g, roots, d, dist0, best0)
    requires forall n :: n in frontier <==> n in dist0 && dist0[n] == d
    requires LayerState(roots, d, dist0, best0, seen, dist, best, next)
    requires forall c :: c in seen <==> IsCandidate(adj, frontier, best0, c)
    requires n in next && Recorded(g, roots, n, d + 1, best[n])
    ensures IsLeast(g, roots, best[n])
  {
    hide PathKey, IsWalk, IsHop, PathAccepted, LayerState, SearchState, AdjacencyOf, IsCandidate;
    KeptPath(roots, d, dist0, best0, seen, dist, best, next, n);
    forall root, steps: seq<Step> | root in roots && |steps| == d + 1 && IsWalk(g, root, steps, n)
      ensures !Less(PathKey(root, steps), PathKey(best[n].root, best[n].steps))
    {
      LastHop(g, roots, d, dist0, best0, root, steps, n);
      var h := steps[d];
      var c := ExtendPath(h.from, Lookup(best0, h.from), h);
      HopScanned(g, adj, frontier, best0, seen, h);
      CandidateLeast(g, roots, d, dist0, best0, h.from, h, root, steps[..d]);
      KeyChain(PathKey(root, steps), PathKey(c.root, c.steps), PathKey(best[n].root, best[n].steps));
    }
  }

  /** With an empty frontier the maps are complete: every walk of any length ends at a known node. */
  lemma {:induction false} SearchComplete(g: Graph, roots: set<NodeId>, d: nat, dist: map<NodeId, nat>,
      best: map<NodeId, ImpactPath>, root: NodeId, steps: seq<Step>, n: NodeId)
    requires SearchState(g, roots, d, dist, best) && forall m :: m in dist ==> dist[m] != d
    requires root in roots && IsWalk(g, root, steps, n)
    ensures n in dist && dist[n] <= |steps|
    decreases |steps|
  {
    if |steps| > d {
      var last := steps[|steps| - 1];
      SearchComplete(g, roots, d, dist, best, root, steps[..|steps| - 1], last.from);
      HopFromKnown(g, roots, d, dist, best, last);
    }
  }

  /** The maps hold exactly the reached nodes, each with its least number of hops. */
  ghost predicate SearchResult(g: Graph, roots: set<NodeId>, dist: map<NodeId, nat>, best: map<NodeId, ImpactPath>) {
    && (forall n, k :: AtDistance(g, roots, n, k) <==> n in dist && dist[n] == k)
    && (forall n :: Reached(g, roots, n) <==> n in dist)
    && best.Keys == dist.Keys - roots
    && (forall n :: n in best ==>
          best[n].target == n && PathAccepted(best[n]) && IsCanonicalPath(g, roots, best[n]))
  }

  lemma SearchFinished(g: Graph, roots: set<NodeId>, d: nat, dist: map<NodeId, nat>, best: map<NodeId, ImpactPath>)
    requires SearchState(g, roots, d, dist, best) && forall m :: m in dist ==> dist[m] != d
    ensures SearchResult(g, roots, dist, best)
  {
    hide PathKey, PathAccepted;
    forall n, k | ReachedIn(g, roots, n, k) ensures n in dist && dist[n] <= k {
      var root, steps :| root in roots && |steps| == k && IsWalk(g, root, steps, n);
      SearchComplete(g, roots, d, dist, best, root, steps, n);
    }
    forall n | n in dist ensures ReachedIn(g, roots, n, dist[n]) {
      var root, steps := WalkTo(g, roots, d, dist, best, n);
    }
  }

  /** The nodes a search can ever meet. */
  ghost function Universe(g: Graph, roots: set<NodeId>): set<NodeId> {
    roots + (set e | e in g.edges :: e.id.source) + (set e | e in g.edges :: e.id.target)
  }

  lemma WalkInUniverse(g: Graph, roots: set<NodeId>, root: NodeId, steps: seq<Step>, n: NodeId)
    requires root in roots && IsWalk(g, root, steps, n)
    ensures n in Universe(g, roots)
  {
  }

  lemma SearchStart(g: Graph, roots: set<NodeId>)
    ensures SearchState(g, roots, 0, (map r | r in roots :: 0), map[])
  {
  }

  /** What the second scan relies on: after the first, no candidate is below the path kept for its target. */
  lemma RescanReady(adj: Adjacency, roots: set<NodeId>, d: nat, frontier: seq<NodeId>,
      dist0: map<NodeId, nat>, best0: map<NodeId, ImpactPath>, seen: seq<ImpactPath>,
      dist: map<NodeId, nat>, best: map<NodeId, ImpactPath>, next: map<NodeId, ImpactPath>)
    requires LayerState(roots, d, dist0, best0, seen, dist, best, next)
    requires forall c :: c in seen <==> IsCandidate(adj, frontier, best0, c)
    requires forall n :: n in frontier ==> n in dist0
    ensures next.Keys <= best.Keys && dist.Keys == dist0.Keys + next.Keys && dist0.Keys !! next.Keys
    ensures forall c :: IsCandidate(adj, frontier, best, c) && c.target in next ==> !PathLess(c, best[c.target])
  {
    hide PathLess, ExtendPath;
    forall c | IsCandidate(adj, frontier, best, c) ensures c in seen {
      var n, h :| n in frontier && h in HopsFrom(adj, n) && c == ExtendPath(n, Lookup(best, n), h);
      FrontierUntouched(roots, d, dist0, best0, seen, dist, best, next, n);
      assert IsCandidate(adj, frontier, best0, c);
    }
  }

  lemma KnownInUniverse(g: Graph, roots: set<NodeId>, d: nat, dist: map<NodeId, nat>, best: map<NodeId, ImpactPath>)
    requires SearchState(g, roots, d, dist, best)
    ensures dist.Keys <= Universe(g, roots)
  {
    forall n | n in dist ensures n in Universe(g, roots) {
      var root, steps := WalkTo(g, roots, d, dist, best, n);
      WalkInUniverse(g, roots, root, steps, n);
    }
  }

  lemma KnownSoFar(g: Graph, roots: set<NodeId>, d: nat, dist: map<NodeId, nat>, best: map<NodeId, ImpactPath>)
    requires SearchState(g, roots, d, dist, best)
    ensures (forall n :: n in dist ==> dist[n] <= d) && best.Keys == dist.Keys - roots
  {
  }

  method Search(g: Graph, adj: Adjacency, rootList: seq<NodeId>)
      returns (distance: map<NodeId, nat>, bestPath: map<NodeId, ImpactPath>)
    requires AdjacencyOf(g, adj)
    ensures SearchResult(g, (set r | r in rootList), distance, bestPath)
  {
    hide NodeKey, LayerState, SearchResult, SearchState, AdjacencyOf, IsCandidate, Universe;
    var roots := set r | r in rootList;
    distance, bestPath := map r | r in roots :: 0, map[];
    SearchStart(g, roots);
    NodeKeyInjective();
    var frontier := SortSet(NodeKey, roots);
    ghost var d := 0;
    while frontier != []
      invariant SearchState(g, roots, d, distance, bestPath)
      invariant forall n :: n in frontier <==> n in distance && distance[n] == d
      decreases Universe(g, roots) - distance.Keys, |frontier|
    {
      assert frontier[0] in frontier;
      var depth := distance[frontier[0]];
      ghost var dist0, best0 := distance, bestPath;
      var next: map<NodeId, ImpactPath>;
      ghost var seen;
      KnownSoFar(g, roots, d, distance, bestPath);
      distance, bestPath, next, seen := ScanLayer(adj, roots, depth, frontier, distance, bestPath);
      LayerAdvances(g, roots, adj, d, frontier, dist0, best0, seen, distance, bestPath, next);
      RescanReady(adj, roots, d, frontier, dist0, best0, seen, distance, bestPath, next);
      bestPath, next := RescanLayer(adj, depth, frontier, distance, bestPath, next);
      KnownInUniverse(g, roots, d + 1, distance, bestPath);
      frontier := SortSet(NodeKey, next.Keys);
      d := d + 1;
      assert frontier != [] ==> frontier[0] in frontier;
    }
    SearchFinished(g, roots, d, distance, bestPath);
  }
}
