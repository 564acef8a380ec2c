/**
 Effective hops, the paths the impact analysis records, and the walks they are measured
 against: every chain of effective hops in the graph, not only those a search builds.
 */
module Walks {
  import opened Outcomes
  import opened Texts
  import opened JsonText
  import opened JsonOrder
  import opened Graphs

  const DEPENDS_ON := "depends_on"
  const CONTAINS := "contains"
  const GOVERNS := "governs"

  datatype Traversal = Forward | Reverse

  datatype Step = Step(from: NodeId, to: NodeId, edge: Edge, traversal: Traversal)

  /** The effective hop of a stored edge: dependencies reversed, containment and governance forward. */
  function HopOf(e: Edge): Option<Step> {
    if e.id.kind == DEPENDS_ON then Some(Step(e.id.target, e.id.source, e, Reverse))
    else if e.id.kind == CONTAINS || e.id.kind == GOVERNS then Some(Step(e.id.source, e.id.target, e, Forward))
    else None
  }

  /** The direction check of the step constructor. */
  predicate StepAccepted(s: Step) {
    if s.edge.id.kind == DEPENDS_ON then
      s.traversal == Reverse && s.from == s.edge.id.target && s.to == s.edge.id.source
    else if s.edge.id.kind == CONTAINS || s.edge.id.kind == GOVERNS then
      s.traversal == Forward && s.from == s.edge.id.source && s.to == s.edge.id.target
    else false
  }

  datatype ImpactPath = ImpactPath(root: NodeId, target: NodeId, steps: seq<Step>)

  /** The checks of the path constructor. */
  predicate PathAccepted(p: ImpactPath) {
    && p.steps != []
    && (forall i :: 0 <= i < |p.steps| ==> StepAccepted(p.steps[i]))
    && p.steps[0].from == p.root
    && p.steps[|p.steps| - 1].to == p.target
    && forall i :: 0 <= i < |p.steps| - 1 ==> p.steps[i].to == p.steps[i + 1].from
  }

  /** The path that goes on from `parent` along `hop`; a root has no path of its own. */
  function ExtendPath(parent: NodeId, parentPath: Option<ImpactPath>, hop: Step): ImpactPath {
    match parentPath
    case None => ImpactPath(parent, hop.to, [hop])
    case Some(p) => ImpactPath(p.root, hop.to, p.steps + [hop])
  }

  /** Extending along a hop that leaves the parent never trips a constructor check. */
  lemma ExtendAccepted(parent: NodeId, parentPath: Option<ImpactPath>, hop: Step)
    requires HopOf(hop.edge) == Some(hop) && hop.from == parent
    requires parentPath.Some? ==> PathAccepted(parentPath.value) && parentPath.value.target == parent
    ensures PathAccepted(ExtendPath(parent, parentPath, hop))
  {
  }

  // ----- walks

  ghost predicate IsHop(g: Graph, s: Step) {
    s.edge in g.edges && HopOf(s.edge) == Some(s)
  }

  /** `steps` leads from `root` to `target` along effective hops of `g`. */
  ghost predicate IsWalk(g: Graph, root: NodeId, steps: seq<Step>, target: NodeId) {
    if steps == [] then root == target
    else
      var last := steps[|steps| - 1];
      IsHop(g, last) && last.to == target && IsWalk(g, root, steps[..|steps| - 1], last.from)
  }

  lemma WalkSnoc(g: Graph, root: NodeId, steps: seq<Step>, hop: Step)
    requires IsWalk(g, root, steps, hop.from) && IsHop(g, hop)
    ensures IsWalk(g, root, steps + [hop], hop.to)
  {
    assert (steps + [hop])[..|steps|] == steps;
  }

  /** Some walk of `k` steps leads from one of `roots` to `n`. */
  ghost predicate ReachedIn(g: Graph, roots: set<NodeId>, n: NodeId, k: nat) {
    exists root, steps :: root in roots && |steps| == k && IsWalk(g, root, steps, n)
  }

  ghost predicate Reached(g: Graph, roots: set<NodeId>, n: NodeId) {
    exists k :: ReachedIn(g, roots, n, k)
  }

  /** `k` is the least number of hops from any root to `n`. */
  ghost predicate AtDistance(g: Graph, roots: set<NodeId>, n: NodeId, k: nat) {
    ReachedIn(g, roots, n, k) && forall j :: ReachedIn(g, roots, n, j) ==> k <= j
  }

  // ----- path keys

  function TraversalText(t: Traversal): string {
    match t case Forward => "forward" case Reverse => "reverse"
  }

  function StepJson(s: Step): Json {
    Arr([NodeJson(s.from), NodeJson(s.to), NodeJson(s.edge.id.source), Str(s.edge.id.kind),
         NodeJson(s.edge.id.target), Str(TraversalText(s.traversal))])
  }

  function StepJsons(steps: seq<Step>): (r: seq<Json>)
    ensures |r| == |steps|
    ensures forall i :: 0 <= i < |r| ==> r[i] == StepJson(steps[i])
  {
    if steps == [] then [] else StepJsons(steps[..|steps| - 1]) + [StepJson(steps[|steps| - 1])]
  }

  /** The canonical sort key of a path. */
  function PathKey(root: NodeId, steps: seq<Step>): string {
    KeyText(NodeJson(root), StepJsons(steps))
  }

  predicate PathLess(p: ImpactPath, q: ImpactPath) {
    Less(PathKey(p.root, p.steps), PathKey(q.root, q.steps))
  }

  /** Among paths of the same length, appending the same hop keeps the order of the keys, both ways. */
  lemma ExtensionKeepsOrder(r: NodeId, u: seq<Step>, s: NodeId, v: seq<Step>, hop: Step)
    requires |u| == |v| > 0
    ensures Less(PathKey(r, u + [hop]), PathKey(s, v + [hop])) <==> Less(PathKey(r, u), PathKey(s, v))
  {
    assert (u + [hop])[..|u|] == u && (v + [hop])[..|v|] == v;
    AppendKeepsOrder(NodeJson(r), StepJsons(u), NodeJson(s), StepJsons(v), StepJson(hop));
  }

  /** No walk of the same length to the same target has a smaller key. */
  ghost predicate IsLeast(g: Graph, roots: set<NodeId>, p: ImpactPath) {
    forall root, steps :: root in roots && |steps| == |p.steps| && IsWalk(g, root, steps, p.target) ==>
      !Less(PathKey(root, steps), PathKey(p.root, p.steps))
  }

  /** `p` is the canonical explanation of its target: a shortest walk, and the least among them. */
  ghost predicate IsCanonicalPath(g: Graph, roots: set<NodeId>, p: ImpactPath) {
    && p.root in roots
    && IsWalk(g, p.root, p.steps, p.target)
    && AtDistance(g, roots, p.target, |p.steps|)
    && IsLeast(g, roots, p)
  }

  lemma WalkStepsAreHops(g: Graph, root: NodeId, steps: seq<Step>, target: NodeId, i: nat)
    requires IsWalk(g, root, steps, target) && i < |steps|
    ensures IsHop(g, steps[i])
  {
    if i < |steps| - 1 {
      WalkStepsAreHops(g, root, steps[..|steps| - 1], steps[|steps| - 1].from, i);
    }
  }

  lemma StepJsonInjective(g: Graph, s: Step, t: Step)
    requires ValidGraph(g) && IsHop(g, s) && IsHop(g, t) && StepJson(s) == StepJson(t)
    ensures s == t
  {
    var u, v := StepJson(s).items, StepJson(t).items;
    assert u[2] == v[2] && u[3] == v[3] && u[4] == v[4];
    NodeJsonInjective(s.edge.id.source, t.edge.id.source);
    NodeJsonInjective(s.edge.id.target, t.edge.id.target);
    MergedIdsUnique(EdgeKey, g.edges, g.edges);
  }

  /** Only one path can be the canonical explanation of a node. */
  lemma CanonicalPathUnique(g: Graph, roots: set<NodeId>, p: ImpactPath, q: ImpactPath)
    requires ValidGraph(g) && IsCanonicalPath(g, roots, p) && IsCanonicalPath(g, roots, q)
    requires p.target == q.target
    ensures p == q
  {
    LessTotal(PathKey(p.root, p.steps), PathKey(q.root, q.steps));
    var a, b := [NodeJson(p.root), Arr(StepJsons(p.steps))], [NodeJson(q.root), Arr(StepJsons(q.steps))];
    RenderInjective(Arr(a), Arr(b));
    assert a[0] == b[0] && a[1] == b[1];
    NodeJsonInjective(p.root, q.root);
    forall i | 0 <= i < |p.steps| ensures p.steps[i] == q.steps[i] {
      assert StepJsons(p.steps)[i] == StepJsons(q.steps)[i];
      WalkStepsAreHops(g, p.root, p.steps, p.target, i);
      WalkStepsAreHops(g, q.root, q.steps, q.target, i);
      StepJsonInjective(g, p.steps[i], q.steps[i]);
    }
  }

  // ----- the impact core

  lemma CoreClosed(g: Graph, roots: set<NodeId>, hop: Step)
    requires Reached(g, roots, hop.from) && IsHop(g, hop)
    ensures Reached(g, roots, hop.to)
  {
    var k :| ReachedIn(g, roots, hop.from, k);
    var root, steps :| root in roots && |steps| == k && IsWalk(g, root, steps, hop.from);
    WalkSnoc(g, root, steps, hop);
    assert ReachedIn(g, roots, hop.to, |steps + [hop]|);
  }

  /** The nodes reached from the union of two sets of roots are those reached from either. */
  lemma CoreAdditive(g: Graph, a: set<NodeId>, b: set<NodeId>, n: NodeId)
    ensures Reached(g, a + b, n) <==> Reached(g, a, n) || Reached(g, b, n)
  {
    if Reached(g, a + b, n) {
      var k :| ReachedIn(g, a + b, n, k);
      var root, steps :| root in a + b && |steps| == k && IsWalk(g, root, steps, n);
      assert root in a ==> ReachedIn(g, a, n, k);
      assert root in b ==> ReachedIn(g, b, n, k);
    }
    if Reached(g, a, n) {
      var k :| ReachedIn(g, a, n, k);
      assert ReachedIn(g, a + b, n, k);
    }
    if Reached(g, b, n) {
      var k :| ReachedIn(g, b, n, k);
      assert ReachedIn(g, a + b, n, k);
    }
  }
}
