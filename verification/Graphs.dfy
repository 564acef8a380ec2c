/**
 The governance graph: identities, provenance, and the normalization that merges and orders
 nodes and edges. Nodes and edges are both parts with an identity, a payload that duplicates
 must agree on, and provenance that duplicates pool.
 */
module Graphs {
  import opened Outcomes
  import opened Sorting
  import opened JsonText
  import opened JsonOrder

  // ----- identities and provenance

  datatype NodeId = NodeId(namespace: string, kind: string, logicalId: string, parent: Option<NodeId>)

  datatype EdgeId = EdgeId(source: NodeId, kind: string, target: NodeId)

  datatype Provenance =
    Provenance(providerType: string, sourceRef: string, sourceVersion: Option<string>, mode: string)

  function OptionalText(t: Option<string>): Json {
    match t case None => Null case Some(s) => Str(s)
  }

  function NodeJson(n: NodeId): Json {
    Arr([Str(n.namespace), Str(n.kind), Str(n.logicalId),
         match n.parent case None => Null case Some(p) => NodeJson(p)])
  }

  function EdgeJson(e: EdgeId): Json {
    Arr([NodeJson(e.source), Str(e.kind), NodeJson(e.target)])
  }

  function ProvenanceJson(r: Provenance): Json {
    Arr([Str(r.providerType), Str(r.sourceRef), OptionalText(r.sourceVersion), Str(r.mode)])
  }

  function NodeKey(n: NodeId): SortKey { [Render(NodeJson(n))] }

  function EdgeKey(e: EdgeId): SortKey { [Render(EdgeJson(e))] }

  function ProvenanceKey(r: Provenance): SortKey { [Render(ProvenanceJson(r))] }

  ghost predicate InjectiveKey<T(!new)>(key: T -> SortKey) {
    forall a, b :: key(a) == key(b) ==> a == b
  }

  lemma {:induction false} NodeJsonInjective(a: NodeId, b: NodeId)
    requires NodeJson(a) == NodeJson(b)
    ensures a == b
  {
    var u, v := NodeJson(a).items, NodeJson(b).items;
    assert u[0] == v[0] && u[1] == v[1] && u[2] == v[2] && u[3] == v[3];
    if a.parent.Some? && b.parent.Some? {
      NodeJsonInjective(a.parent.value, b.parent.value);
    }
  }

  lemma NodeKeyInjective()
    ensures InjectiveKey(NodeKey)
  {
    forall a, b | NodeKey(a) == NodeKey(b) ensures a == b {
      assert NodeKey(a)[0] == NodeKey(b)[0];
      RenderInjective(NodeJson(a), NodeJson(b));
      NodeJsonInjective(a, b);
    }
  }

  lemma EdgeKeyInjective()
    ensures InjectiveKey(EdgeKey)
  {
    forall a, b | EdgeKey(a) == EdgeKey(b) ensures a == b {
      assert EdgeKey(a)[0] == EdgeKey(b)[0];
      RenderInjective(EdgeJson(a), EdgeJson(b));
      var u, v := EdgeJson(a).items, EdgeJson(b).items;
      assert u[0] == v[0] && u[1] == v[1] && u[2] == v[2];
      NodeJsonInjective(a.source, b.source);
      NodeJsonInjective(a.target, b.target);
    }
  }

  lemma ProvenanceKeyInjective()
    ensures InjectiveKey(ProvenanceKey)
  {
    forall a, b | ProvenanceKey(a) == ProvenanceKey(b) ensures a == b {
      assert ProvenanceKey(a)[0] == ProvenanceKey(b)[0];
      RenderInjective(ProvenanceJson(a), ProvenanceJson(b));
      var u, v := ProvenanceJson(a).items, ProvenanceJson(b).items;
      assert u[0] == v[0] && u[1] == v[1] && u[2] == v[2] && u[3] == v[3];
    }
  }

  // ----- ancestors

  /** The parents of an identity, nearest first. */
  function Ancestors(n: NodeId): seq<NodeId> {
    match n.parent
    case None => []
    case Some(p) => [p] + Ancestors(p)
  }

  function Depth(n: NodeId): nat {
    match n.parent case None => 0 case Some(p) => Depth(p) + 1
  }

  /** The walk up the parents. An identity is a finite value, so the cycle guard never stops it early. */
  method CollectAncestors(n: NodeId) returns (chain: seq<NodeId>)
    ensures chain == Ancestors(n)
  {
    chain := [];
    var current, seen := n.parent, {};
    while current.Some?
      invariant current.Some? ==> Ancestors(n) == chain + ([current.value] + Ancestors(current.value))
      invariant current.None? ==> Ancestors(n) == chain
      invariant current.Some? ==> forall s :: s in seen ==> Depth(s) > Depth(current.value)
      decreases if current.Some? then Depth(current.value) + 1 else 0
    {
      if current.value in seen {
        break;
      }
      seen := seen + {current.value};
      chain := chain + [current.value];
      current := current.value.parent;
    }
  }

  // ----- parts and their merge

  datatype Part<I, P> = Part(id: I, payload: P, provenance: seq<Provenance>)

  datatype NodePayload = NodePayload(name: string, description: Option<string>, attributes: Json)

  type Node = Part<NodeId, NodePayload>

  /** The payload of an edge is its attributes. */
  type Edge = Part<EdgeId, Json>

  ghost predicate HasId<I, P>(parts: seq<Part<I, P>>, id: I) {
    exists p :: p in parts && p.id == id
  }

  /** Duplicates of one identity agree on their payload. */
  ghost predicate Consistent<I, P>(parts: seq<Part<I, P>>) {
    forall p, q :: p in parts && q in parts && p.id == q.id ==> p.payload == q.payload
  }

  ghost predicate RecordedFor<I, P>(parts: seq<Part<I, P>>, id: I, r: Provenance) {
    exists p :: p in parts && p.id == id && r in p.provenance
  }

  /** `m` stands for all the parts with its identity and pools exactly their provenance, in order. */
  ghost predicate StandsFor<I, P>(parts: seq<Part<I, P>>, m: Part<I, P>) {
    && HasId(parts, m.id)
    && (forall p :: p in parts && p.id == m.id ==> p.payload == m.payload)
    && StrictlyOrdered(ProvenanceKey, m.provenance)
    && (forall r :: r in m.provenance <==> RecordedFor(parts, m.id, r))
  }

  ghost predicate OrderedById<I, P>(idKey: I -> SortKey, parts: seq<Part<I, P>>) {
    forall i, j :: 0 <= i < j < |parts| ==> KeyLess(idKey(parts[i].id), idKey(parts[j].id))
  }

  /** `out` is the merge of `parts`: one part for each identity, in identity order. */
  ghost predicate Merged<I(!new), P(!new)>(idKey: I -> SortKey, parts: seq<Part<I, P>>, out: seq<Part<I, P>>) {
    && OrderedById(idKey, out)
    && (forall p :: p in parts ==> HasId(out, p.id))
    && (forall m :: m in out ==> StandsFor(parts, m))
  }

  /** The distinct records of `records` in canonical order. */
  method MergeProvenance(records: seq<Provenance>) returns (r: seq<Provenance>)
    ensures StrictlyOrdered(ProvenanceKey, r)
    ensures forall x :: x in r <==> x in records
  {
    ProvenanceKeyInjective();
    r := SortDistinct(ProvenanceKey, records);
  }

  /** One group of duplicates becomes one part, unless two payloads disagree. */
  method MergeGroup<I(==,!new), P(==,!new)>(group: seq<Part<I, P>>) returns (r: Result<Part<I, P>>)
    requires group != [] && forall p :: p in group ==> p.id == group[0].id
    ensures r.Success? <==> Consistent(group)
    ensures r.Success? ==> r.value.id == group[0].id && StandsFor(group, r.value)
  {
    var base := group[0];
    var records := base.provenance;
    for i := 1 to |group|
      invariant forall p :: p in group[..i] ==> p.payload == base.payload
      invariant forall x :: x in records <==> RecordedFor(group[..i], base.id, x)
    {
      if group[i].payload != base.payload {
        assert group[i] in group && base in group;
        return Failure;
      }
      forall x ensures x in records + group[i].provenance <==> RecordedFor(group[..i + 1], base.id, x) {
        assert group[..i + 1] == group[..i] + [group[i]];
        RecordedSnoc(group[..i], group[i], base.id, x);
      }
      records := records + group[i].provenance;
    }
    assert group[..|group|] == group;
    var provenance := MergeProvenance(records);
    r := Success(Part(base.id, base.payload, provenance));
    assert base in group;
  }

  lemma RecordedSnoc<I, P>(parts: seq<Part<I, P>>, p: Part<I, P>, id: I, r: Provenance)
    requires p.id == id
    ensures RecordedFor(parts + [p], id, r) <==> RecordedFor(parts, id, r) || r in p.provenance
  {
    if RecordedFor(parts, id, r) {
      var q :| q in parts && q.id == id && r in q.provenance;
      assert q in parts + [p];
    }
    if r in p.provenance { assert p in parts + [p]; }
  }

  /** The merge of one group stands for every part of the whole sequence with that identity. */
  lemma GroupStandsForAll<I(!new), P(!new)>(parts: seq<Part<I, P>>, group: seq<Part<I, P>>, m: Part<I, P>)
    requires forall p :: p in group <==> p in parts && p.id == m.id
    requires StandsFor(group, m)
    ensures StandsFor(parts, m)
  {
    var q :| q in group && q.id == m.id;
    assert q in parts;
    forall r ensures RecordedFor(group, m.id, r) <==> RecordedFor(parts, m.id, r) {
      if RecordedFor(group, m.id, r) {
        var p :| p in group && p.id == m.id && r in p.provenance;
        assert p in parts;
      }
      if RecordedFor(parts, m.id, r) {
        var p :| p in parts && p.id == m.id && r in p.provenance;
        assert p in group;
      }
    }
  }

  /** The groups visited so far are merged, one part for each of them. */
  ghost predicate MergedSoFar<I, P>(parts: seq<Part<I, P>>, groups: map<I, seq<Part<I, P>>>, rest: set<I>, merged: seq<Part<I, P>>) {
    && (forall id :: id in groups && id !in rest ==> Consistent(groups[id]) && HasId(merged, id))
    && (forall m :: m in merged ==> StandsFor(parts, m) && m.id in groups && m.id !in rest)
    && (forall i, j :: 0 <= i < j < |merged| ==> merged[i].id != merged[j].id)
  }

  lemma MergeStep<I(!new), P(!new)>(parts: seq<Part<I, P>>, groups: map<I, seq<Part<I, P>>>, rest: set<I>,
      merged: seq<Part<I, P>>, one: Part<I, P>)
    requires MergedSoFar(parts, groups, rest, merged)
    requires one.id in groups && one.id in rest && Consistent(groups[one.id]) && StandsFor(parts, one)
    ensures MergedSoFar(parts, groups, rest - {one.id}, merged + [one])
  {
    HasIdJoin(merged, [one]);
    assert one in [one];
  }

  /** `out` pools `parts`: one part for each identity, in any order. */
  ghost predicate Pooled<I(!new), P(!new)>(parts: seq<Part<I, P>>, out: seq<Part<I, P>>) {
    && (forall i, j :: 0 <= i < j < |out| ==> out[i].id != out[j].id)
    && (forall p :: p in parts ==> HasId(out, p.id))
    && (forall m :: m in out ==> StandsFor(parts, m))
  }

  /** Group by identity and merge each group, whatever order the groups are visited in. */
  method MergeGroups<I(==,!new), P(==,!new)>(parts: seq<Part<I, P>>) returns (r: Result<seq<Part<I, P>>>)
    ensures r.Success? <==> Consistent(parts)
    ensures r.Success? ==> Pooled(parts, r.value)
  {
    var groups := GroupBy((p: Part<I, P>) => p.id, parts);
    var rest, merged: seq<Part<I, P>> := groups.Keys, [];
    while rest != {}
      invariant rest <= groups.Keys
      invariant MergedSoFar(parts, groups, rest, merged)
    {
      var id :| id in rest;
      assert groups[id][0] in groups[id];
      var one := MergeGroup(groups[id]);
      if one.Failure? {
        assert forall p :: p in groups[id] ==> p in parts;
        return Failure;
      }
      GroupStandsForAll(parts, groups[id], one.value);
      MergeStep(parts, groups, rest, merged, one.value);
      merged, rest := merged + [one.value], rest - {id};
    }
    assert Consistent(parts) by {
      forall p, q | p in parts && q in parts && p.id == q.id ensures p.payload == q.payload {
        assert Consistent(groups[p.id]) && p in groups[p.id] && q in groups[p.id];
      }
    }
    r := Success(merged);
  }

  /** Merge, then sort by identity. */
  method MergeParts<I(==,!new), P(==,!new)>(idKey: I -> SortKey, parts: seq<Part<I, P>>)
      returns (r: Result<seq<Part<I, P>>>)
    requires InjectiveKey(idKey)
    ensures r.Success? <==> Consistent(parts)
    ensures r.Success? ==> Merged(idKey, parts, r.value)
  {
    var merged := MergeGroups(parts);
    if merged.Failure? {
      return Failure;
    }
    SortMerged(idKey, merged.value);
    r := Success(SortBy((p: Part<I, P>) => idKey(p.id), merged.value));
    assert Merged(idKey, parts, r.value);
  }

  lemma SortMerged<I(!new), P(!new)>(idKey: I -> SortKey, merged: seq<Part<I, P>>)
    requires InjectiveKey(idKey)
    requires forall i, j :: 0 <= i < j < |merged| ==> merged[i].id != merged[j].id
    ensures var sorted := SortBy((p: Part<I, P>) => idKey(p.id), merged);
      && OrderedById(idKey, sorted)
      && (forall m :: m in sorted <==> m in merged)
      && (forall id :: HasId(merged, id) ==> HasId(sorted, id))
  {
    var partKey := (p: Part<I, P>) => idKey(p.id);
    SortByStrict(partKey, merged);
    SortByOrdered(partKey, merged);
    var sorted := SortBy(partKey, merged);
    assert forall i :: 0 <= i < |sorted| ==> partKey(sorted[i]) == idKey(sorted[i].id);
    forall id | HasId(merged, id) ensures HasId(sorted, id) {
      var m :| m in merged && m.id == id;
      assert m in sorted;
    }
  }

  // ----- what the merge does not depend on

  lemma StandsForUnique<I(!new), P(!new)>(a: seq<Part<I, P>>, b: seq<Part<I, P>>, m: Part<I, P>, n: Part<I, P>)
    requires forall p :: p in a <==> p in b
    requires StandsFor(a, m) && StandsFor(b, n) && m.id == n.id
    ensures m == n
  {
    var p :| p in a && p.id == m.id;
    assert p in b;
    forall r ensures r in m.provenance <==> r in n.provenance {
      if RecordedFor(a, m.id, r) {
        var q :| q in a && q.id == m.id && r in q.provenance;
        assert q in b;
      }
      if RecordedFor(b, m.id, r) {
        var q :| q in b && q.id == m.id && r in q.provenance;
        assert q in a;
      }
    }
    StrictlyOrderedUnique(ProvenanceKey, m.provenance, n.provenance);
  }

  /** The merge depends only on which parts there are: not on their order, nor on repetition. */
  lemma MergeIgnoresOrder<I(!new), P(!new)>(idKey: I -> SortKey,
      a: seq<Part<I, P>>, b: seq<Part<I, P>>, out: seq<Part<I, P>>, out': seq<Part<I, P>>)
    requires forall p :: p in a <==> p in b
    requires Merged(idKey, a, out) && Merged(idKey, b, out')
    ensures out == out'
  {
    forall m ensures m in out <==> m in out' {
      if m in out {
        var p :| p in a && p.id == m.id;
        var n :| n in out' && n.id == p.id;
        StandsForUnique(a, b, m, n);
      }
      if m in out' {
        var p :| p in b && p.id == m.id;
        var n :| n in out && n.id == p.id;
        StandsForUnique(a, b, n, m);
      }
    }
    var partKey := (p: Part<I, P>) => idKey(p.id);
    assert StrictlyOrdered(partKey, out) && StrictlyOrdered(partKey, out');
    StrictlyOrderedUnique(partKey, out, out');
  }

  /** One part for each identity. */
  lemma MergedIdsUnique<I(!new), P(!new)>(idKey: I -> SortKey, parts: seq<Part<I, P>>, out: seq<Part<I, P>>)
    requires Merged(idKey, parts, out)
    ensures forall m, n :: m in out && n in out && m.id == n.id ==> m == n
  {
    forall m, n | m in out && n in out && m.id == n.id ensures m == n {
      var i :| 0 <= i < |out| && out[i] == m;
      var j :| 0 <= j < |out| && out[j] == n;
      KeyLessTotal(idKey(m.id), idKey(n.id));
    }
  }

  /** A merge is its own merge. */
  lemma MergeIdempotent<I(!new), P(!new)>(idKey: I -> SortKey, parts: seq<Part<I, P>>, out: seq<Part<I, P>>)
    requires Merged(idKey, parts, out)
    ensures Consistent(out) && Merged(idKey, out, out)
  {
    MergedIdsUnique(idKey, parts, out);
    forall m | m in out ensures StandsFor(out, m) {
      assert HasId(out, m.id);
      forall r ensures r in m.provenance <==> RecordedFor(out, m.id, r) {}
    }
  }

  /** No identity occurs in both with different payloads. */
  ghost predicate Agree<I, P>(a: seq<Part<I, P>>, b: seq<Part<I, P>>) {
    forall p, q :: p in a && q in b && p.id == q.id ==> p.payload == q.payload
  }

  /**
   Merging two merges is merging everything at once; it is possible exactly when no
   identity has two payloads.
   */
  lemma MergeOfMerges<I(!new), P(!new)>(idKey: I -> SortKey,
      a: seq<Part<I, P>>, b: seq<Part<I, P>>, x: seq<Part<I, P>>, y: seq<Part<I, P>>)
    requires Merged(idKey, a, x) && Merged(idKey, b, y)
    ensures Consistent(x + y) <==> Agree(x, y)
    ensures forall out :: Consistent(x + y) && Merged(idKey, x + y, out) ==> Merged(idKey, a + b, out)
  {
    MergedIdsUnique(idKey, a, x);
    MergedIdsUnique(idKey, b, y);
    assert Consistent(x + y) ==> Agree(x, y) by {
      assert forall p :: p in x ==> p in x + y;
      assert forall q :: q in y ==> q in x + y;
    }
    forall out | Consistent(x + y) && Merged(idKey, x + y, out) ensures Merged(idKey, a + b, out) {
      forall p | p in a + b ensures HasId(out, p.id) {
        assert HasId(x, p.id) || HasId(y, p.id);
        var m :| m in x + y && m.id == p.id;
      }
      forall m | m in out ensures StandsFor(a + b, m) {
        StandsForMerges(a, b, x, y, m);
      }
    }
  }

  lemma StandsForMerges<I(!new), P(!new)>(
      a: seq<Part<I, P>>, b: seq<Part<I, P>>, x: seq<Part<I, P>>, y: seq<Part<I, P>>, m: Part<I, P>)
    requires forall p :: p in a ==> HasId(x, p.id)
    requires forall p :: p in b ==> HasId(y, p.id)
    requires forall n :: n in x ==> StandsFor(a, n)
    requires forall n :: n in y ==> StandsFor(b, n)
    requires StandsFor(x + y, m)
    ensures StandsFor(a + b, m)
  {
    var n :| n in x + y && n.id == m.id;
    if n in x {
      var p :| p in a && p.id == n.id;
      assert p in a + b;
    } else {
      var p :| p in b && p.id == n.id;
      assert p in a + b;
    }
    forall p | p in a + b && p.id == m.id ensures p.payload == m.payload {
      if p in a {
        var k :| k in x && k.id == p.id;
        assert k in x + y;
      } else {
        var k :| k in y && k.id == p.id;
        assert k in x + y;
      }
    }
    forall r ensures r in m.provenance <==> RecordedFor(a + b, m.id, r) {
      if r in m.provenance {
        var k :| k in x + y && k.id == m.id && r in k.provenance;
        if k in x {
          var p :| p in a && p.id == k.id && r in p.provenance;
          assert p in a + b;
        } else {
          var p :| p in b && p.id == k.id && r in p.provenance;
          assert p in a + b;
        }
      }
      if RecordedFor(a + b, m.id, r) {
        var p :| p in a + b && p.id == m.id && r in p.provenance;
        if p in a {
          var k :| k in x && k.id == p.id;
          assert RecordedFor(a, k.id, r) && k in x + y;
        } else {
          var k :| k in y && k.id == p.id;
          assert RecordedFor(b, k.id, r) && k in x + y;
        }
        assert RecordedFor(x + y, m.id, r);
      }
    }
  }

  // ----- graphs

  datatype Graph = Graph(nodes: seq<Node>, edges: seq<Edge>)

  ghost predicate AncestorsPresent(nodes: seq<Node>) {
    forall n, a :: n in nodes && a in Ancestors(n.id) ==> HasId(nodes, a)
  }

  ghost predicate EndpointsPresent(nodes: seq<Node>, edges: seq<Edge>) {
    forall e :: e in edges ==> HasId(nodes, e.id.source) && HasId(nodes, e.id.target)
  }

  /** When the graph constructor accepts its parts. */
  ghost predicate Acceptable(nodes: seq<Node>, edges: seq<Edge>) {
    Consistent(nodes) && AncestorsPresent(nodes) && Consistent(edges) && EndpointsPresent(nodes, edges)
  }

  ghost predicate IsNormalForm(nodes: seq<Node>, edges: seq<Edge>, g: Graph) {
    Merged(NodeKey, nodes, g.nodes) && Merged(EdgeKey, edges, g.edges)
  }

  /** What every constructed graph satisfies. */
  ghost predicate ValidGraph(g: Graph) {
    Acceptable(g.nodes, g.edges) && IsNormalForm(g.nodes, g.edges, g)
  }

  /** The check that every ancestor of a merged node is a merged node. */
  method CheckAncestors(nodes: seq<Node>, index: set<NodeId>) returns (ok: bool)
    ensures ok <==> forall n, a :: n in nodes && a in Ancestors(n.id) ==> a in index
  {
    for i := 0 to |nodes|
      invariant forall j, a :: 0 <= j < i && a in Ancestors(nodes[j].id) ==> a in index
    {
      var chain := CollectAncestors(nodes[i].id);
      if exists a :: a in chain && a !in index {
        assert nodes[i] in nodes;
        return false;
      }
    }
    ok := true;
  }

  method CheckEndpoints(edges: seq<Edge>, index: set<NodeId>) returns (ok: bool)
    ensures ok <==> forall e :: e in edges ==> e.id.source in index && e.id.target in index
  {
    for i := 0 to |edges|
      invariant forall j :: 0 <= j < i ==> edges[j].id.source in index && edges[j].id.target in index
    {
      if edges[i].id.source !in index || edges[i].id.target !in index {
        assert edges[i] in edges;
        return false;
      }
    }
    ok := true;
  }

  /** The index of merged nodes knows exactly the identities of the nodes. */
  lemma IndexOfMerged(nodes: seq<Node>, merged: seq<Node>)
    requires Merged(NodeKey, nodes, merged)
    ensures forall id :: HasId(merged, id) <==> HasId(nodes, id)
    ensures AncestorsPresent(nodes) <==> forall n, a :: n in merged && a in Ancestors(n.id) ==> HasId(nodes, a)
  {
    hide NodeKey;
    forall n, a | AncestorsPresent(nodes) && n in merged && a in Ancestors(n.id) ensures HasId(nodes, a) {
      var p :| p in nodes && p.id == n.id;
    }
    forall n, a | (forall n, a :: n in merged && a in Ancestors(n.id) ==> HasId(nodes, a)) && n in nodes && a in Ancestors(n.id)
      ensures HasId(nodes, a)
    {
      var m :| m in merged && m.id == n.id;
    }
  }

  /** The constructor: merge, check closure under parents and endpoints, order. */
  method NormalizeGraph(nodes: seq<Node>, edges: seq<Edge>) returns (r: Result<Graph>)
    ensures r.Success? <==> Acceptable(nodes, edges)
    ensures r.Success? ==> IsNormalForm(nodes, edges, r.value) && ValidGraph(r.value)
  {
    hide NodeKey, EdgeKey, Merged, AncestorsPresent, ValidGraph, Consistent;
    NodeKeyInjective();
    EdgeKeyInjective();
    var mergedNodes := MergeParts(NodeKey, nodes);
    if mergedNodes.Failure? {
      return Failure;
    }
    var index := set n | n in mergedNodes.value :: n.id;
    IndexOfMerged(nodes, mergedNodes.value);
    assert forall id :: id in index <==> HasId(mergedNodes.value, id);
    var closed := CheckAncestors(mergedNodes.value, index);
    var joined := CheckEndpoints(edges, index);
    if !closed || !joined {
      return Failure;
    }
    var mergedEdges := MergeParts(EdgeKey, edges);
    if mergedEdges.Failure? {
      return Failure;
    }
    r := Success(Graph(mergedNodes.value, mergedEdges.value));
    NormalFormIsValid(nodes, edges, r.value);
  }

  /** Normalizing a second time changes nothing, and is never refused. */
  lemma NormalFormIsValid(nodes: seq<Node>, edges: seq<Edge>, g: Graph)
    requires Acceptable(nodes, edges) && IsNormalForm(nodes, edges, g)
    ensures ValidGraph(g)
  {
    MergeIdempotent(NodeKey, nodes, g.nodes);
    MergeIdempotent(EdgeKey, edges, g.edges);
    forall n, a | n in g.nodes && a in Ancestors(n.id) ensures HasId(g.nodes, a) {
      var p :| p in nodes && p.id == n.id;
      assert p in nodes && a in Ancestors(p.id);
      assert HasId(nodes, a);
      var q :| q in nodes && q.id == a;
    }
    forall e | e in g.edges ensures HasId(g.nodes, e.id.source) && HasId(g.nodes, e.id.target) {
      var p :| p in edges && p.id == e.id;
      var q :| q in nodes && q.id == p.id.source;
      var t :| t in nodes && t.id == p.id.target;
    }
  }

  /** The same parts in any order and with any repetition are accepted alike and give the same graph. */
  lemma NormalizationIgnoresOrder(n1: seq<Node>, e1: seq<Edge>, g1: Graph, n2: seq<Node>, e2: seq<Edge>, g2: Graph)
    requires forall n :: n in n1 <==> n in n2
    requires forall e :: e in e1 <==> e in e2
    ensures Acceptable(n1, e1) ==> Acceptable(n2, e2)
    ensures IsNormalForm(n1, e1, g1) && IsNormalForm(n2, e2, g2) ==> g1 == g2
  {
    if IsNormalForm(n1, e1, g1) && IsNormalForm(n2, e2, g2) {
      MergeIgnoresOrder(NodeKey, n1, n2, g1.nodes, g2.nodes);
      MergeIgnoresOrder(EdgeKey, e1, e2, g1.edges, g2.edges);
    }
    forall id ensures HasId(n1, id) ==> HasId(n2, id) {
      if HasId(n1, id) {
        var p :| p in n1 && p.id == id;
        assert p in n2;
      }
    }
  }

  /**
   Joining two graphs is refused exactly on a node payload conflict or an edge attribute
   conflict. Otherwise the join is the normal form of everything the two came from, so
   joining does not depend on how the parts were first split.
   */
  lemma JoinGraphs(n1: seq<Node>, e1: seq<Edge>, g1: Graph, n2: seq<Node>, e2: seq<Edge>, g2: Graph)
    requires Acceptable(n1, e1) && IsNormalForm(n1, e1, g1)
    requires Acceptable(n2, e2) && IsNormalForm(n2, e2, g2)
    ensures Acceptable(g1.nodes + g2.nodes, g1.edges + g2.edges)
      <==> Agree(g1.nodes, g2.nodes) && Agree(g1.edges, g2.edges)
    ensures Acceptable(g1.nodes + g2.nodes, g1.edges + g2.edges) ==>
      forall g :: IsNormalForm(g1.nodes + g2.nodes, g1.edges + g2.edges, g) ==> IsNormalForm(n1 + n2, e1 + e2, g)
  {
    NormalFormIsValid(n1, e1, g1);
    NormalFormIsValid(n2, e2, g2);
    MergeOfMerges(NodeKey, n1, n2, g1.nodes, g2.nodes);
    MergeOfMerges(EdgeKey, e1, e2, g1.edges, g2.edges);
    HasIdJoin(g1.nodes, g2.nodes);
    forall n, a | n in g1.nodes + g2.nodes && a in Ancestors(n.id) ensures HasId(g1.nodes + g2.nodes, a) {
      assert n in g1.nodes || n in g2.nodes;
    }
    forall e | e in g1.edges + g2.edges
      ensures HasId(g1.nodes + g2.nodes, e.id.source) && HasId(g1.nodes + g2.nodes, e.id.target)
    {
      assert e in g1.edges || e in g2.edges;
    }
  }

  lemma HasIdJoin<I(!new), P(!new)>(a: seq<Part<I, P>>, b: seq<Part<I, P>>)
    ensures forall id :: HasId(a + b, id) <==> HasId(a, id) || HasId(b, id)
  {
    forall id ensures HasId(a + b, id) <==> HasId(a, id) || HasId(b, id) {
      if HasId(a, id) {
        var p :| p in a && p.id == id;
        assert p in a + b;
      }
      if HasId(b, id) {
        var p :| p in b && p.id == id;
        assert p in a + b;
      }
    }
  }

  /** A join loses no provenance record of either graph and invents none. */
  lemma JoinKeepsProvenance<I(!new), P(!new)>(
      idKey: I -> SortKey, x: seq<Part<I, P>>, y: seq<Part<I, P>>, out: seq<Part<I, P>>, m: Part<I, P>, r: Provenance)
    requires Merged(idKey, x + y, out) && m in out
    ensures r in m.provenance <==> RecordedFor(x, m.id, r) || RecordedFor(y, m.id, r)
  {
    assert RecordedFor(x + y, m.id, r) <==> RecordedFor(x, m.id, r) || RecordedFor(y, m.id, r) by {
      if RecordedFor(x, m.id, r) {
        var p :| p in x && p.id == m.id && r in p.provenance;
        assert p in x + y;
      }
      if RecordedFor(y, m.id, r) {
        var p :| p in y && p.id == m.id && r in p.provenance;
        assert p in x + y;
      }
    }
  }
}
