/**
 The blast radius in terms of stored edges: containment and governance carry impact from source to
 target, a dependency carries it from target to source, and no other edge carries any.
 */
module ImpactFacts {
  import opened Sorting
  import opened Graphs
  import opened Walks
  import opened ImpactResults

  /** The edge carries impact from `m` to `n`. */
  predicate Carries(e: Edge, m: NodeId, n: NodeId) {
    || ((e.id.kind == "contains" || e.id.kind == "governs") && m == e.id.source && n == e.id.target)
    || (e.id.kind == "depends_on" && m == e.id.target && n == e.id.source)
  }

  /** A root or an affected node. */
  predicate Touched(r: ImpactResult, n: NodeId) {
    n in r.changedNodes || n in r.directNodes || n in r.transitiveNodes
  }

  /** The hops of a graph are exactly the steps over its edges that the step constructor accepts. */
  lemma HopsExactly(g: Graph, s: Step)
    ensures IsHop(g, s) <==> s.edge in g.edges && StepAccepted(s)
  {
  }

  lemma HopCarries(g: Graph, s: Step)
    ensures IsHop(g, s) ==> Carries(s.edge, s.from, s.to) && (s.traversal == Reverse <==> s.edge.id.kind == "depends_on")
  {
  }

  lemma CarriesHop(g: Graph, e: Edge, m: NodeId, n: NodeId)
    requires e in g.edges && Carries(e, m, n)
    ensures IsHop(g, Step(m, n, e, if e.id.kind == "depends_on" then Reverse else Forward))
  {
  }

  // ----- roots and affected nodes are what is reached

  /** What is reached is reached by a least number of hops. */
  lemma {:induction false} LeastDistance(g: Graph, roots: set<NodeId>, n: NodeId, k: nat) returns (least: nat)
    requires ReachedIn(g, roots, n, k)
    ensures AtDistance(g, roots, n, least)
    decreases k
  {
    hide ReachedIn;
    if j: nat :| j < k && ReachedIn(g, roots, n, j) {
      least := LeastDistance(g, roots, n, j);
    } else {
      least := k;
    }
  }

  lemma RootReached(g: Graph, roots: set<NodeId>, n: NodeId)
    ensures ReachedIn(g, roots, n, 0) <==> n in roots
  {
    if n in roots {
      assert IsWalk(g, n, [], n);
    }
  }

  lemma TouchedReached(g: Graph, roots: set<NodeId>, r: ImpactResult, n: NodeId)
    requires IsImpactOf(g, roots, r)
    ensures Touched(r, n) <==> Reached(g, roots, n)
  {
    hide ReachedIn, StrictlyOrdered, AreAttached, IsCanonicalPath, PathAccepted;
    RootReached(g, roots, n);
    if Reached(g, roots, n) {
      var k :| ReachedIn(g, roots, n, k);
      var least := LeastDistance(g, roots, n, k);
    }
  }

  // ----- edges

  /** An edge that carries impact onward from a touched node is listed, and touches the node it leads to. */
  lemma EdgesExactly(g: Graph, roots: set<NodeId>, r: ImpactResult, e: Edge)
    requires IsImpactOf(g, roots, r)
    ensures e in r.affectedEdges <==> e in g.edges && exists m, n :: Carries(e, m, n) && Touched(r, m)
    ensures forall m, n :: e in g.edges && Carries(e, m, n) && Touched(r, m) ==> Touched(r, n) && e in r.affectedEdges
  {
    hide Reached, Touched, StrictlyOrdered, AreAffected;
    forall n ensures Touched(r, n) <==> Reached(g, roots, n) { TouchedReached(g, roots, r, n); }
    if e in r.affectedEdges {
      var h := HopOf(e).value;
      assert IsHop(g, h);
      HopCarries(g, h);
    }
    forall m, n | e in g.edges && Carries(e, m, n) && Touched(r, m) ensures Touched(r, n) && e in r.affectedEdges {
      var s := Step(m, n, e, if e.id.kind == "depends_on" then Reverse else Forward);
      CarriesHop(g, e, m, n);
      CoreClosed(g, roots, s);
    }
  }

  /** The same, kind by kind. */
  lemma EdgesByKind(g: Graph, roots: set<NodeId>, r: ImpactResult, e: Edge)
    requires IsImpactOf(g, roots, r) && e in g.edges
    ensures e.id.kind == "contains" || e.id.kind == "governs" ==>
      (e in r.affectedEdges <==> Touched(r, e.id.source)) && (Touched(r, e.id.source) ==> Touched(r, e.id.target))
    ensures e.id.kind == "depends_on" ==>
      (e in r.affectedEdges <==> Touched(r, e.id.target)) && (Touched(r, e.id.target) ==> Touched(r, e.id.source))
    ensures e.id.kind !in {"contains", "governs", "depends_on"} ==> e !in r.affectedEdges
  {
    hide IsImpactOf, Touched;
    EdgesExactly(g, roots, r, e);
    assert e.id.kind == "contains" || e.id.kind == "governs" ==> Carries(e, e.id.source, e.id.target);
    assert e.id.kind == "depends_on" ==> Carries(e, e.id.target, e.id.source);
  }

  /** No more is touched than must be: any set with the roots that impact cannot leave has all of it. */
  lemma TouchedLeast(g: Graph, roots: set<NodeId>, r: ImpactResult, closed: set<NodeId>)
    requires IsImpactOf(g, roots, r) && roots <= closed
    requires forall e, m, n :: e in g.edges && Carries(e, m, n) && m in closed ==> n in closed
    ensures forall n :: Touched(r, n) ==> n in closed
  {
    hide IsImpactOf, Touched;
    forall n | Touched(r, n) ensures n in closed {
      TouchedReached(g, roots, r, n);
      var k :| ReachedIn(g, roots, n, k);
      var root, steps :| root in roots && |steps| == k && IsWalk(g, root, steps, n);
      WalkStaysIn(g, root, steps, n, closed);
    }
  }

  lemma {:induction false} WalkStaysIn(g: Graph, root: NodeId, steps: seq<Step>, n: NodeId, closed: set<NodeId>)
    requires IsWalk(g, root, steps, n) && root in closed
    requires forall e, m, n :: e in g.edges && Carries(e, m, n) && m in closed ==> n in closed
    ensures n in closed
  {
    if steps != [] {
      var last := steps[|steps| - 1];
      WalkStaysIn(g, root, steps[..|steps| - 1], last.from, closed);
      HopCarries(g, last);
    }
  }

  /** A node is direct exactly if it is no root and one edge carries impact to it from a root. */
  lemma DirectExactly(g: Graph, roots: set<NodeId>, r: ImpactResult, n: NodeId)
    requires IsImpactOf(g, roots, r)
    ensures n in r.directNodes <==> n !in roots && exists e, m :: e in g.edges && Carries(e, m, n) && m in roots
    ensures n in r.transitiveNodes <==> Touched(r, n) && n !in roots && n !in r.directNodes
  {
    hide StrictlyOrdered, AreAttached, IsCanonicalPath, PathAccepted, ReachedIn;
    RootReached(g, roots, n);
    OneHop(g, roots, n);
  }

  lemma OneHop(g: Graph, roots: set<NodeId>, n: NodeId)
    ensures ReachedIn(g, roots, n, 1) <==> exists e, m :: e in g.edges && Carries(e, m, n) && m in roots
  {
    if ReachedIn(g, roots, n, 1) {
      var root, steps: seq<Step> :| root in roots && |steps| == 1 && IsWalk(g, root, steps, n);
      assert IsWalk(g, root, steps[..0], steps[0].from);
      HopCarries(g, steps[0]);
    }
    if e, m :| e in g.edges && Carries(e, m, n) && m in roots {
      var s := Step(m, n, e, if e.id.kind == "depends_on" then Reverse else Forward);
      CarriesHop(g, e, m, n);
      assert IsWalk(g, m, [], m);
      WalkSnoc(g, m, [], s);
      assert [] + [s] == [s] && |[s]| == 1;
    }
  }

  /** A recorded path starts at a root, follows stored edges in the direction they carry impact, and ends at its target. */
  lemma PathsFollowEdges(g: Graph, roots: set<NodeId>, r: ImpactResult, p: ImpactPath)
    requires IsImpactOf(g, roots, r) && p in r.paths
    ensures p.root in roots && p.steps != [] && p.steps[0].from == p.root && p.steps[|p.steps| - 1].to == p.target
    ensures forall i :: 0 <= i < |p.steps| - 1 ==> p.steps[i].to == p.steps[i + 1].from
    ensures forall i :: 0 <= i < |p.steps| ==>
      && p.steps[i].edge in g.edges && Carries(p.steps[i].edge, p.steps[i].from, p.steps[i].to)
      && (p.steps[i].traversal == Reverse <==> p.steps[i].edge.id.kind == "depends_on")
    ensures p.target in r.directNodes <==> |p.steps| == 1
  {
    hide StrictlyOrdered, AreAttached, IsWalk, Carries, IsLeast;
    forall i | 0 <= i < |p.steps|
      ensures p.steps[i].edge in g.edges && Carries(p.steps[i].edge, p.steps[i].from, p.steps[i].to)
      ensures p.steps[i].traversal == Reverse <==> p.steps[i].edge.id.kind == "depends_on"
    {
      WalkStepsAreHops(g, p.root, p.steps, p.target, i);
      HopCarries(g, p.steps[i]);
    }
  }

  // ----- assets and contracts

  /** Assets, contracts and policy-relevant nodes, read off the touched nodes and the stored edges. */
  lemma AttachedExactly(g: Graph, roots: set<NodeId>, r: ImpactResult, n: NodeId)
    requires IsImpactOf(g, roots, r)
    ensures n in r.governanceAssets <==>
      n.kind != "contract" && exists m :: Touched(r, m) && m.kind != "contract" && (n == m || n in Ancestors(m))
    ensures n in r.associatedContracts <==> n.kind == "contract" && (Touched(r, n) || exists e, m ::
      e in g.edges && e.id.kind == "governs" && e.id.source == n && Touched(r, m) && (e.id.target == m || e.id.target in Ancestors(m)))
    ensures n in r.policyRelevantNodes <==>
      n in r.governanceAssets && n.kind in {"data_source", "dataset", "table", "column"}
  {
    hide StrictlyOrdered, AreAffected, Touched, Reached, IsAffectedEdge, Ancestors;
    forall m ensures Touched(r, m) <==> Reached(g, roots, m) { TouchedReached(g, roots, r, m); }
    if n in r.associatedContracts && !(n.kind == "contract" && Touched(r, n)) {
      var e, m :| Governs(g, n, e) && Reached(g, roots, m) && AtOrAbove(e.id.target, m);
      assert e.id.target == m || e.id.target in Ancestors(m);
    }
    if e, m :| e in g.edges && e.id.kind == "governs" && e.id.source == n && Touched(r, m) && (e.id.target == m || e.id.target in Ancestors(m)) {
      assert AtOrAbove(e.id.target, m);
    }
  }
}
