/**
 What order the canonical texts put things in, field by field: the first field that differs decides,
 by the text it is printed as.
 */
module CanonicalOrders {
  import opened Outcomes
  import opened Texts
  import opened Sorting
  import opened JsonText
  import opened JsonOrder
  import opened Pointers
  import opened Graphs
  import opened Walks
  import opened Observations
  import opened Authority
  import opened Conflicts
  import opened Impact

  // ----- arrays and objects

  lemma OpenItems(u: seq<Json>)
    requires u != []
    ensures Open(u) == "," + Items(u)
  {
    Regroup(",", Render(u[0]), Open(u[1..]), "");
  }

  lemma {:induction false} OpenOrder(u: seq<Json>, v: seq<Json>, k: nat, x: string, y: string)
    requires k < |u| && k < |v| && u[..k] == v[..k] && u[k] != v[k] && !IsNumber(u[k]) && !IsNumber(v[k])
    ensures Less(Open(u) + x, Open(v) + y) == Less(Render(u[k]), Render(v[k]))
  {
    var s, t := Render(u[0]), Render(v[0]);
    Regroup(",", s, Open(u[1..]), x);
    Regroup(",", t, Open(v[1..]), y);
    Regroup(s, Open(u[1..]), x, "");
    Regroup(t, Open(v[1..]), y, "");
    SharedPrefix(",", s + (Open(u[1..]) + x), t + (Open(v[1..]) + y));
    if k == 0 {
      RenderApart(u[0], v[0]);
      ApartDecides(s, t, Open(u[1..]) + x, Open(v[1..]) + y);
    } else {
      assert u[0] == u[..k][0] == v[..k][0] == v[0];
      assert u[1..][..k - 1] == u[..k][1..] && v[1..][..k - 1] == v[..k][1..];
      OpenOrder(u[1..], v[1..], k - 1, x, y);
      SharedPrefix(s, Open(u[1..]) + x, Open(v[1..]) + y);
    }
  }

  /** Arrays compare by the first item that differs. */
  lemma ArrayOrder(u: seq<Json>, v: seq<Json>, k: nat)
    requires k < |u| && k < |v| && u[..k] == v[..k] && u[k] != v[k] && !IsNumber(u[k]) && !IsNumber(v[k])
    ensures Less(Render(Arr(u)), Render(Arr(v))) == Less(Render(u[k]), Render(v[k]))
  {
    OpenItems(u);
    OpenItems(v);
    OpenOrder(u, v, k, "]", "]");
    Regroup(",", Items(u), "]", "");
    Regroup(",", Items(v), "]", "");
    SharedPrefix(",", Items(u) + "]", Items(v) + "]");
    Regroup("[", Items(u), "]", "");
    Regroup("[", Items(v), "]", "");
    SharedPrefix("[", Items(u) + "]", Items(v) + "]");
    hide Items, Open;
    assert Render(Arr(u)) == "[" + Items(u) + "]" && Render(Arr(v)) == "[" + Items(v) + "]" by { ArrayText(u); ArrayText(v); }
  }

  lemma ArrayOrderAt(u: seq<Json>, v: seq<Json>, k: nat)
    requires k < |u| == |v| && (forall i :: 0 <= i < k ==> u[i] == v[i]) && u[k] != v[k] && !IsNumber(u[k]) && !IsNumber(v[k])
    ensures Less(Render(Arr(u)), Render(Arr(v))) == Less(Render(u[k]), Render(v[k]))
  {
    assert u[..k] == v[..k];
    ArrayOrder(u, v, k);
  }

  /** The text of a member, and of those that follow it. */
  function Tail(members: seq<Member>): string { OpenMembersWith(Quote, members) + "}" }

  lemma TailShape(u: seq<Member>)
    ensures u == [] ==> Tail(u) == "}"
    ensures u != [] ==> Tail(u) == "," + (Quote(u[0].name) + (":" + (Render(u[0].value) + Tail(u[1..]))))
  {
    if u != [] {
      var q, r, o := Quote(u[0].name), Render(u[0].value), OpenMembersWith(Quote, u[1..]);
      assert OpenMembersWith(Quote, u) == "," + (q + ":" + r) + o;
      Regroup(",", q + ":" + r, o, "}");
      Regroup(q, ":", r, o + "}");
      Regroup(":", r, o + "}", "");
      Regroup(q + ":" + r, o, "}", "");
      Regroup(r, o, "}", "");
    }
  }

  lemma ObjectText(u: seq<Member>)
    requires u != []
    ensures "," + Render(Obj(u))[1..] == Tail(u) && Render(Obj(u)) == "{" + Render(Obj(u))[1..]
  {
    var m, o := MemberWith(Quote, u[0]), OpenMembersWith(Quote, u[1..]);
    assert MembersWith(Quote, u) == m + o;
    assert Render(Obj(u)) == "{" + (m + o) + "}";
    Regroup("{", m + o, "}", "");
    Cut("{", m + o + "}");
    assert OpenMembersWith(Quote, u) == "," + m + o;
    Regroup(",", m, o, "}");
  }

  lemma {:induction false} TailOrder(u: seq<Member>, v: seq<Member>, k: nat)
    requires k < |u| && k < |v| && u[..k] == v[..k] && u[k].name == v[k].name && u[k].value != v[k].value
    requires !IsNumber(u[k].value) && !IsNumber(v[k].value)
    ensures Less(Tail(u), Tail(v)) == Less(Render(u[k].value), Render(v[k].value))
  {
    TailShape(u);
    TailShape(v);
    var q, s, t := Quote(u[0].name), Render(u[0].value), Render(v[0].value);
    if k > 0 {
      assert u[0] == u[..k][0] == v[..k][0] == v[0];
      assert u[1..][..k - 1] == u[..k][1..] && v[1..][..k - 1] == v[..k][1..];
      TailOrder(u[1..], v[1..], k - 1);
      hide Tail;
      SharedPrefix(s, Tail(u[1..]), Tail(v[1..]));
    } else {
      hide Tail;
      RenderApart(u[0].value, v[0].value);
      ApartDecides(s, t, Tail(u[1..]), Tail(v[1..]));
    }
    SharedPrefix(":", s + Tail(u[1..]), t + Tail(v[1..]));
    SharedPrefix(q, ":" + (s + Tail(u[1..])), ":" + (t + Tail(v[1..])));
    SharedPrefix(",", q + (":" + (s + Tail(u[1..]))), q + (":" + (t + Tail(v[1..]))));
  }

  /** Objects with the same names so far compare by the first value that differs. */
  lemma ObjectOrder(u: seq<Member>, v: seq<Member>, k: nat)
    requires k < |u| && k < |v| && u[..k] == v[..k] && u[k].name == v[k].name && u[k].value != v[k].value
    requires !IsNumber(u[k].value) && !IsNumber(v[k].value)
    ensures Less(Render(Obj(u)), Render(Obj(v))) == Less(Render(u[k].value), Render(v[k].value))
  {
    TailOrder(u, v, k);
    ObjectText(u);
    ObjectText(v);
    hide Tail, Render;
    SharedPrefix("{", Render(Obj(u))[1..], Render(Obj(v))[1..]);
    SharedPrefix(",", Render(Obj(u))[1..], Render(Obj(v))[1..]);
  }

  // ----- texts, nodes, edges, records

  /** Texts compare as they are printed. */
  predicate TextBefore(s: string, t: string) { Less(Quote(s), Quote(t)) }

  /** An absent text comes after every text. */
  predicate OptionalBefore(s: Option<string>, t: Option<string>) {
    s.Some? && (t.None? || TextBefore(s.value, t.value))
  }

  lemma OptionalOrder(s: Option<string>, t: Option<string>)
    requires s != t
    ensures Less(Render(OptionalText(s)), Render(OptionalText(t))) <==> OptionalBefore(s, t)
  {
  }

  lemma OneText(s: string, t: string)
    ensures KeyLess([s], [t]) <==> Less(s, t)
  {
    LessTotal(s, t);
  }

  /** By namespace, kind, logical id and parent; a node without parent comes after those with one. */
  predicate NodeBefore(a: NodeId, b: NodeId) {
    if a.namespace != b.namespace then TextBefore(a.namespace, b.namespace)
    else if a.kind != b.kind then TextBefore(a.kind, b.kind)
    else if a.logicalId != b.logicalId then TextBefore(a.logicalId, b.logicalId)
    else a.parent.Some? && (b.parent.None? || NodeBefore(a.parent.value, b.parent.value))
  }

  lemma {:induction false} NodeTextOrder(a: NodeId, b: NodeId)
    ensures Less(Render(NodeJson(a)), Render(NodeJson(b))) <==> NodeBefore(a, b)
  {
    var u, v := NodeJson(a).items, NodeJson(b).items;
    if a.namespace != b.namespace {
      ArrayOrder(u, v, 0);
    } else if a.kind != b.kind {
      ArrayOrder(u, v, 1);
    } else if a.logicalId != b.logicalId {
      ArrayOrder(u, v, 2);
    } else if a.parent.Some? && b.parent.Some? {
      NodeTextOrder(a.parent.value, b.parent.value);
      if a.parent.value != b.parent.value {
        ParentsDiffer(a.parent.value, b.parent.value);
        ArrayOrder(u, v, 3);
      } else {
        LessTotal(Render(NodeJson(a)), Render(NodeJson(b)));
        LessTotal(Render(NodeJson(a.parent.value)), Render(NodeJson(a.parent.value)));
      }
    } else if a.parent != b.parent {
      assert a.parent.Some? ==> Render(NodeJson(a.parent.value))[0] == '[';
      assert b.parent.Some? ==> Render(NodeJson(b.parent.value))[0] == '[';
      ArrayOrder(u, v, 3);
    } else {
      LessTotal(Render(NodeJson(a)), Render(NodeJson(b)));
    }
  }

  lemma ParentsDiffer(a: NodeId, b: NodeId)
    requires a != b
    ensures NodeJson(a) != NodeJson(b)
  {
    if NodeJson(a) == NodeJson(b) { NodeJsonInjective(a, b); }
  }

  /** The canonical order of nodes. */
  lemma NodeOrderExactly(a: NodeId, b: NodeId)
    ensures KeyLess(NodeKey(a), NodeKey(b)) <==> NodeBefore(a, b)
  {
    hide NodeJson;
    NodeTextOrder(a, b);
    OneText(Render(NodeJson(a)), Render(NodeJson(b)));
  }

  /** By source, kind and target. */
  predicate EdgeBefore(a: EdgeId, b: EdgeId) {
    if a.source != b.source then NodeBefore(a.source, b.source)
    else if a.kind != b.kind then TextBefore(a.kind, b.kind)
    else NodeBefore(a.target, b.target)
  }

  /** The canonical order of edges. */
  lemma EdgeOrderExactly(a: EdgeId, b: EdgeId)
    ensures KeyLess(EdgeKey(a), EdgeKey(b)) <==> EdgeBefore(a, b)
  {
    hide NodeJson, NodeBefore;
    var u, v := EdgeJson(a).items, EdgeJson(b).items;
    OneText(Render(EdgeJson(a)), Render(EdgeJson(b)));
    if a.source != b.source {
      ParentsDiffer(a.source, b.source);
      NodeIsArray(a.source);
      NodeIsArray(b.source);
      ArrayOrder(u, v, 0);
      NodeTextOrder(a.source, b.source);
    } else if a.kind != b.kind {
      ArrayOrder(u, v, 1);
    } else {
      NodeTextOrder(a.target, b.target);
      if a.target != b.target {
        ParentsDiffer(a.target, b.target);
        NodeIsArray(a.target);
        NodeIsArray(b.target);
        ArrayOrder(u, v, 2);
      } else {
        LessTotal(Render(EdgeJson(a)), Render(EdgeJson(b)));
        LessTotal(Render(NodeJson(a.target)), Render(NodeJson(a.target)));
      }
    }
  }

  lemma NodeIsArray(a: NodeId)
    ensures NodeJson(a).Arr?
  {
  }

  /** By provider, source, version and mode; a record without version comes after those with one. */
  predicate RecordBefore(a: Provenance, b: Provenance) {
    if a.providerType != b.providerType then TextBefore(a.providerType, b.providerType)
    else if a.sourceRef != b.sourceRef then TextBefore(a.sourceRef, b.sourceRef)
    else if a.sourceVersion != b.sourceVersion then OptionalBefore(a.sourceVersion, b.sourceVersion)
    else TextBefore(a.mode, b.mode)
  }

  /** The canonical order of provenance records. */
  lemma RecordOrderExactly(a: Provenance, b: Provenance)
    ensures KeyLess(ProvenanceKey(a), ProvenanceKey(b)) <==> RecordBefore(a, b)
  {
    var u, v := ProvenanceJson(a).items, ProvenanceJson(b).items;
    OneText(Render(ProvenanceJson(a)), Render(ProvenanceJson(b)));
    if a.providerType != b.providerType {
      ArrayOrder(u, v, 0);
    } else if a.sourceRef != b.sourceRef {
      ArrayOrder(u, v, 1);
    } else if a.sourceVersion != b.sourceVersion {
      OptionalOrder(a.sourceVersion, b.sourceVersion);
      ArrayOrder(u, v, 2);
    } else if a.mode != b.mode {
      ArrayOrder(u, v, 3);
    } else {
      LessTotal(Render(ProvenanceJson(a)), Render(ProvenanceJson(b)));
      LessTotal(Quote(a.mode), Quote(a.mode));
    }
  }

  // ----- hops and paths

  /** By target, edge and traversal. */
  predicate HopBefore(g: Step, h: Step) {
    if g.to != h.to then NodeBefore(g.to, h.to)
    else if g.edge.id != h.edge.id then EdgeBefore(g.edge.id, h.edge.id)
    else g.traversal == Forward && h.traversal == Reverse
  }

  /** The order of the hops that leave one node. */
  lemma HopOrderExactly(g: Step, h: Step)
    ensures KeyLess(HopKey(g), HopKey(h)) <==> HopBefore(g, h)
  {
    hide NodeBefore, EdgeBefore, NodeJson, EdgeJson;
    NodeOrderExactly(g.to, h.to);
    EdgeOrderExactly(g.edge.id, h.edge.id);
    NodeKeyInjective();
    EdgeKeyInjective();
    var a, b := Render(NodeJson(g.to)), Render(NodeJson(h.to));
    var c, d := Render(EdgeJson(g.edge.id)), Render(EdgeJson(h.edge.id));
    ThreeTexts(a, c, TraversalText(g.traversal), b, d, TraversalText(h.traversal));
    OneText(a, b);
    OneText(c, d);
    TraversalOrder(g.traversal, h.traversal);
    assert g.to != h.to ==> a != b;
    assert g.edge.id != h.edge.id ==> c != d;
    assert HopKey(g) == [a, c, TraversalText(g.traversal)] && HopKey(h) == [b, d, TraversalText(h.traversal)];
  }

  lemma TraversalOrder(t: Traversal, u: Traversal)
    ensures Less(TraversalText(t), TraversalText(u)) <==> t == Forward && u == Reverse
  {
    assert TraversalText(Forward)[0] == 'f' && TraversalText(Reverse)[0] == 'r';
    LessTotal(TraversalText(t), TraversalText(t));
  }

  lemma ThreeTexts(a: string, b: string, c: string, x: string, y: string, z: string)
    ensures KeyLess([a, b, c], [x, y, z]) <==>
      if a != x then Less(a, x) else if b != y then Less(b, y) else Less(c, z)
  {
    assert [a, b, c][1..] == [b, c] && [x, y, z][1..] == [y, z];
    assert [b, c][1..] == [c] && [y, z][1..] == [z];
    OneText(c, z);
  }

  /** By both ends, then the edge, then the traversal. */
  predicate StepBefore(s: Step, t: Step) {
    if s.from != t.from then NodeBefore(s.from, t.from)
    else if s.to != t.to then NodeBefore(s.to, t.to)
    else if s.edge.id != t.edge.id then EdgeBefore(s.edge.id, t.edge.id)
    else s.traversal == Forward && t.traversal == Reverse
  }

  lemma StepOrder(s: Step, t: Step)
    requires StepJson(s) != StepJson(t)
    ensures Less(Render(StepJson(s)), Render(StepJson(t))) <==> StepBefore(s, t)
  {
    hide NodeBefore, NodeJson;
    var u, v := StepJson(s).items, StepJson(t).items;
    NodesAre(s);
    NodesAre(t);
    if s.from != t.from {
      NodeItem(u, v, 0, s.from, t.from);
    } else if s.to != t.to {
      NodeItem(u, v, 1, s.to, t.to);
    } else {
      EdgeStepOrder(s, t, u, v);
    }
  }

  lemma EdgeStepOrder(s: Step, t: Step, u: seq<Json>, v: seq<Json>)
    requires u == StepJson(s).items && v == StepJson(t).items && u != v && s.from == t.from && s.to == t.to
    ensures Less(Render(Arr(u)), Render(Arr(v))) <==> StepBefore(s, t)
  {
    hide NodeBefore, NodeJson, Render, Quote, TraversalText;
    var a, b := s.edge.id, t.edge.id;
    if a.source != b.source {
      NodeItem(u, v, 2, a.source, b.source);
    } else if a.kind != b.kind {
      TextItem(u, v, 3, a.kind, b.kind);
    } else if a.target != b.target {
      NodeItem(u, v, 4, a.target, b.target);
    } else {
      TraversalsDiffer(s.traversal, t.traversal);
      TextItem(u, v, 5, TraversalText(s.traversal), TraversalText(t.traversal));
    }
  }

  lemma TextItem(u: seq<Json>, v: seq<Json>, k: nat, a: string, b: string)
    requires k < |u| == |v| && (forall i :: 0 <= i < k ==> u[i] == v[i]) && u[k] == Str(a) && v[k] == Str(b) && a != b
    ensures Less(Render(Arr(u)), Render(Arr(v))) <==> TextBefore(a, b)
  {
    TextIs(a);
    TextIs(b);
    hide Quote, Render;
    ArrayOrderAt(u, v, k);
  }

  lemma TextIs(s: string)
    ensures Render(Str(s)) == Quote(s)
  {
  }

  lemma TraversalsDiffer(t: Traversal, u: Traversal)
    ensures t != u ==> TraversalText(t) != TraversalText(u)
    ensures TextBefore(TraversalText(t), TraversalText(u)) <==> t == Forward && u == Reverse
  {
    assert TraversalText(Forward)[0] == 'f' && TraversalText(Reverse)[0] == 'r';
    ForwardFirst();
    hide Quote;
    LessTotal(Quote("forward"), Quote("reverse"));
    LessTotal(Quote(TraversalText(t)), Quote(TraversalText(t)));
  }

  lemma NodesAre(s: Step)
    ensures NodeJson(s.from).Arr? && NodeJson(s.to).Arr? && NodeJson(s.edge.id.source).Arr? && NodeJson(s.edge.id.target).Arr?
  {
  }

  lemma ForwardFirst()
    ensures Less(Quote("forward"), Quote("reverse"))
  {
    FirstLetters("forward", "reverse");
  }

  lemma NodeItem(u: seq<Json>, v: seq<Json>, k: nat, a: NodeId, b: NodeId)
    requires k < |u| == |v| && (forall i :: 0 <= i < k ==> u[i] == v[i]) && u[k] == NodeJson(a) && v[k] == NodeJson(b) && a != b
    ensures Less(Render(Arr(u)), Render(Arr(v))) <==> NodeBefore(a, b)
  {
    hide NodeBefore;
    ParentsDiffer(a, b);
    NodeIsArray(a);
    NodeIsArray(b);
    hide Render, NodeJson;
    ArrayOrderAt(u, v, k);
    NodeTextOrder(a, b);
  }

  /** Paths of one length compare by their roots. */
  lemma PathOrderByRoot(p: ImpactPath, q: ImpactPath)
    requires p.root != q.root
    ensures PathLess(p, q) <==> NodeBefore(p.root, q.root)
  {
    hide NodeBefore, NodeJson, StepJsons;
    NodeItem([NodeJson(p.root), Arr(StepJsons(p.steps))], [NodeJson(q.root), Arr(StepJsons(q.steps))], 0, p.root, q.root);
  }

  /** Paths from one root compare by the first step that differs. */
  lemma PathOrderByStep(p: ImpactPath, q: ImpactPath, i: nat)
    requires p.root == q.root && i < |p.steps| && i < |q.steps| && p.steps[..i] == q.steps[..i]
    requires StepJson(p.steps[i]) != StepJson(q.steps[i])
    ensures PathLess(p, q) <==> StepBefore(p.steps[i], q.steps[i])
  {
    hide NodeBefore, NodeJson, StepJson, StepBefore, Render;
    var u, v := StepJsons(p.steps), StepJsons(q.steps);
    assert forall k :: 0 <= k < i ==> u[k] == StepJson(p.steps[..i][k]) && v[k] == StepJson(q.steps[..i][k]);
    assert u[..i] == v[..i];
    StepIsArray(p.steps[i]);
    StepIsArray(q.steps[i]);
    ArrayOrder(u, v, i);
    StepOrder(p.steps[i], q.steps[i]);
    var x, y := [NodeJson(p.root), Arr(u)], [NodeJson(q.root), Arr(v)];
    assert x[..1] == y[..1];
    ArrayOrder(x, y, 1);
    KeyTextIs(NodeJson(p.root), u);
    KeyTextIs(NodeJson(q.root), v);
  }

  lemma StepIsArray(s: Step)
    ensures StepJson(s).Arr?
  {
  }

  lemma KeyTextIs(head: Json, list: seq<Json>)
    ensures JsonOrder.KeyText(head, list) == Render(Arr([head, Arr(list)]))
  {
  }

  // ----- conflict results, rules, declarations, observations

  /** By the object, then by the pointer of the property. */
  predicate PropertyBefore(a: NodeId, p: PropertyPath, b: NodeId, q: PropertyPath) {
    if a != b then NodeBefore(a, b) else Less(Print(p), Print(q))
  }

  /** The order of conflict results. */
  lemma ResultOrderExactly(r: ConflictResult, s: ConflictResult)
    ensures KeyLess(ResultKey(r), ResultKey(s)) <==> PropertyBefore(r.subject, r.path, s.subject, s.path)
  {
    hide NodeBefore, NodeJson, Print;
    var a, b := Render(NodeJson(r.subject)), Render(NodeJson(s.subject));
    NodeOrderExactly(r.subject, s.subject);
    NodeKeyInjective();
    OneText(a, b);
    assert r.subject != s.subject ==> NodeKey(r.subject) != NodeKey(s.subject);
    assert [a, Print(r.path)][1..] == [Print(r.path)] && [b, Print(s.path)][1..] == [Print(s.path)];
    OneText(Print(r.path), Print(s.path));
  }

  /** By id, then by description, where an absent one counts as empty. */
  lemma DeclarationOrderExactly(d: Declaration, e: Declaration)
    ensures KeyLess(DeclarationKey(d), DeclarationKey(e)) <==>
      if d.configId != e.configId then Less(d.configId, e.configId)
      else Less(if d.description.Some? then d.description.value else "", if e.description.Some? then e.description.value else "")
  {
    var a, b := DeclarationKey(d), DeclarationKey(e);
    assert a[1..] == [a[1]] && b[1..] == [b[1]];
    OneText(a[1], b[1]);
  }

  /** By provider, then by source; a rule for every source of a provider comes after those for one. */
  predicate TargetBefore(a: Target, b: Target) {
    if a.providerType != b.providerType then TextBefore(a.providerType, b.providerType)
    else OptionalBefore(a.sourceRef, b.sourceRef)
  }

  /** By kind, namespace and pointer; a rule for every namespace comes after those for one. */
  predicate SelectorBefore(a: Selector, b: Selector) {
    if a.kind != b.kind then TextBefore(a.kind, b.kind)
    else if a.namespace != b.namespace then OptionalBefore(a.namespace, b.namespace)
    else TextBefore(Print(a.path), Print(b.path))
  }

  /** An object goes on with a member of an earlier name, or goes on where the other one ends: then it comes first. */
  lemma {:induction false} EarlierMember(u: seq<Member>, v: seq<Member>, k: nat)
    requires k < |u| && k <= |v| && u[..k] == v[..k]
    requires k < |v| ==> Apart(Quote(u[k].name), Quote(v[k].name)) && Less(Quote(u[k].name), Quote(v[k].name))
    ensures Less(Tail(u), Tail(v)) && !Less(Tail(v), Tail(u))
  {
    TailShape(u);
    TailShape(v);
    if k > 0 {
      assert u[0] == u[..k][0] == v[..k][0] == v[0];
      assert u[1..][..k - 1] == u[..k][1..] && v[1..][..k - 1] == v[..k][1..];
      EarlierMember(u[1..], v[1..], k - 1);
      hide Tail;
      var q, s := Quote(u[0].name), Render(u[0].value);
      SharedPrefix(s, Tail(u[1..]), Tail(v[1..]));
      SharedPrefix(":", s + Tail(u[1..]), s + Tail(v[1..]));
      SharedPrefix(q, ":" + (s + Tail(u[1..])), ":" + (s + Tail(v[1..])));
      SharedPrefix(",", q + (":" + (s + Tail(u[1..]))), q + (":" + (s + Tail(v[1..]))));
    } else if v != [] {
      hide Tail;
      var x, y := ":" + (Render(u[0].value) + Tail(u[1..])), ":" + (Render(v[0].value) + Tail(v[1..]));
      ApartDecides(Quote(u[0].name), Quote(v[0].name), x, y);
      SharedPrefix(",", Quote(u[0].name) + x, Quote(v[0].name) + y);
    }
    LessTotal(Tail(u), Tail(v));
  }

  lemma EarlierObject(u: seq<Member>, v: seq<Member>, k: nat)
    requires k < |u| && k <= |v| && v != [] && u[..k] == v[..k]
    requires k < |v| ==> Apart(Quote(u[k].name), Quote(v[k].name)) && Less(Quote(u[k].name), Quote(v[k].name))
    ensures Less(Render(Obj(u)), Render(Obj(v))) && !Less(Render(Obj(v)), Render(Obj(u)))
  {
    EarlierMember(u, v, k);
    ObjectText(u);
    ObjectText(v);
    hide Tail, Render;
    SharedPrefix("{", Render(Obj(u))[1..], Render(Obj(v))[1..]);
    SharedPrefix(",", Render(Obj(u))[1..], Render(Obj(v))[1..]);
    LessTotal(Render(Obj(u)), Render(Obj(v)));
  }

  lemma TargetOrder(a: Target, b: Target)
    ensures Less(Render(TargetJson(a)), Render(TargetJson(b))) <==> TargetBefore(a, b)
  {
    var u, v := TargetJson(a).members, TargetJson(b).members;
    if a.providerType != b.providerType {
      ObjectOrder(u, v, 0);
    } else if a.sourceRef.Some? && b.sourceRef.Some? && a != b {
      ObjectOrder(u, v, 1);
    } else if a.sourceRef.Some? && b.sourceRef.None? {
      EarlierObject(u, v, 1);
    } else if a.sourceRef.None? && b.sourceRef.Some? {
      EarlierObject(v, u, 1);
    } else {
      LessTotal(Render(TargetJson(a)), Render(TargetJson(b)));
      if a.sourceRef.Some? { LessTotal(Quote(a.sourceRef.value), Quote(a.sourceRef.value)); }
    }
  }

  /** A letter is printed as itself. */
  lemma QuoteFirst(s: string)
    requires s != "" && 'a' <= s[0] <= 'z'
    ensures |Quote(s)| >= 2 && Quote(s)[0] == '\"' && Quote(s)[1] == s[0]
  {
    var points := Points(s);
    assert points[0] == s[0] as int;
    assert Escape(points[0]) == [s[0]];
    assert Body(points) == [s[0]] + Body(points[1..]);
  }

  lemma FirstLetters(s: string, t: string)
    requires s != "" && t != "" && 'a' <= s[0] < t[0] <= 'z'
    ensures Apart(Quote(s), Quote(t)) && Less(Quote(s), Quote(t))
  {
    QuoteFirst(s);
    QuoteFirst(t);
    hide Quote;
    assert Quote(s)[1..][0] == s[0] && Quote(t)[1..][0] == t[0];
  }

  lemma SelectorNamespaces(a: Selector, b: Selector)
    requires a.kind == b.kind && a.namespace.Some? && b.namespace.None?
    ensures Less(Render(SelectorJson(a)), Render(SelectorJson(b))) && !Less(Render(SelectorJson(b)), Render(SelectorJson(a)))
  {
    hide Print, Quote, Render;
    FirstLetters("namespace", "property");
    EarlierObject(SelectorJson(a).members, SelectorJson(b).members, 1);
  }

  lemma SelectorOrder(a: Selector, b: Selector)
    ensures Less(Render(SelectorJson(a)), Render(SelectorJson(b))) <==> SelectorBefore(a, b)
  {
    hide Print, Quote;
    var u, v := SelectorJson(a).members, SelectorJson(b).members;
    if a.kind != b.kind {
      ObjectOrder(u, v, 0);
    } else if a.namespace != b.namespace {
      if a.namespace.Some? && b.namespace.Some? {
        ObjectOrder(u, v, 1);
      } else if a.namespace.Some? {
        SelectorNamespaces(a, b);
      } else {
        SelectorNamespaces(b, a);
      }
    } else if Print(a.path) != Print(b.path) {
      ObjectOrder(u, v, |u| - 1);
    } else {
      hide Render;
      LessTotal(Render(SelectorJson(a)), Render(SelectorJson(b)));
      LessTotal(Quote(Print(a.path)), Quote(Print(a.path)));
    }
  }

  /** The canonical order of authority rules: by target, then by selector. */
  lemma AuthorityOrderExactly(k: RuleKey, l: RuleKey)
    ensures KeyLess(Authority.KeyText(k), Authority.KeyText(l)) <==>
      if k.authority != l.authority then TargetBefore(k.authority, l.authority) else SelectorBefore(k.selector, l.selector)
  {
    hide TargetBefore, SelectorBefore, TargetJson, SelectorJson;
    TargetOrder(k.authority, l.authority);
    SelectorOrder(k.selector, l.selector);
    OneText(Render(RuleKeyJson(k)), Render(RuleKeyJson(l)));
    var u, v := RuleKeyJson(k).members, RuleKeyJson(l).members;
    RuleParts(k);
    RuleParts(l);
    if k.authority != l.authority {
      if TargetJson(k.authority) == TargetJson(l.authority) { TargetJsonInjective(k.authority, l.authority); }
      ObjectOrder(u, v, 0);
    } else if k.selector != l.selector {
      if SelectorJson(k.selector) == SelectorJson(l.selector) { SelectorJsonInjective(k.selector, l.selector); }
      ObjectOrder(u, v, 1);
    } else {
      LessTotal(Render(RuleKeyJson(k)), Render(RuleKeyJson(l)));
      LessTotal(Render(SelectorJson(k.selector)), Render(SelectorJson(l.selector)));
    }
  }

  lemma RuleParts(k: RuleKey)
    ensures SelectorJson(k.selector).Obj? && TargetJson(k.authority).Obj?
  {
  }

  /** In the identity of an observation set: by kind, logical id, namespace and parent; objects without parent come first. */
  predicate ObjectBefore(a: NodeId, b: NodeId) {
    if a.kind != b.kind then TextBefore(a.kind, b.kind)
    else if a.logicalId != b.logicalId then TextBefore(a.logicalId, b.logicalId)
    else if a.namespace != b.namespace then TextBefore(a.namespace, b.namespace)
    else b.parent.Some? && (a.parent.None? || ObjectBefore(a.parent.value, b.parent.value))
  }

  lemma {:induction false} ObjectTextOrder(a: NodeId, b: NodeId)
    ensures Less(Render(NodeDict(a)), Render(NodeDict(b))) <==> ObjectBefore(a, b)
  {
    var u, v := NodeDict(a).members, NodeDict(b).members;
    if a.kind != b.kind {
      ObjectOrder(u, v, 0);
    } else if a.logicalId != b.logicalId {
      ObjectOrder(u, v, 1);
    } else if a.namespace != b.namespace {
      ObjectOrder(u, v, 2);
    } else if a.parent.Some? && b.parent.Some? && a.parent != b.parent {
      ObjectTextOrder(a.parent.value, b.parent.value);
      ObjectsDiffer(a.parent.value, b.parent.value);
      ObjectOrder(u, v, 3);
    } else if a.parent != b.parent {
      assert a.parent.Some? ==> Render(NodeDict(a.parent.value))[0] == '{';
      assert b.parent.Some? ==> Render(NodeDict(b.parent.value))[0] == '{';
      ObjectOrder(u, v, 3);
    } else {
      LessTotal(Render(NodeDict(a)), Render(NodeDict(b)));
      if a.parent.Some? {
        ObjectTextOrder(a.parent.value, b.parent.value);
        LessTotal(Render(NodeDict(a.parent.value)), Render(NodeDict(a.parent.value)));
      }
    }
  }

  lemma ObjectsDiffer(a: NodeId, b: NodeId)
    requires a != b
    ensures NodeDict(a) != NodeDict(b)
  {
    if NodeDict(a) == NodeDict(b) { NodeDictInjective(a, b); }
  }

  /** The canonical order of observations about different properties: by object, then by pointer. */
  lemma ObservationOrder(o: Observation, p: Observation)
    requires o.id.subject != p.id.subject || o.id.path != p.id.path
    ensures KeyLess(EntryKey(o), EntryKey(p)) <==>
      if o.id.subject != p.id.subject then ObjectBefore(o.id.subject, p.id.subject) else TextBefore(Print(o.id.path), Print(p.id.path))
  {
    hide ObjectBefore, NodeDict, Print;
    var u, v := EntryJson(o).members, EntryJson(p).members;
    OneText(Render(EntryJson(o)), Render(EntryJson(p)));
    if o.id.subject != p.id.subject {
      ObjectsDiffer(o.id.subject, p.id.subject);
      DictIsObject(o.id.subject);
      DictIsObject(p.id.subject);
      ObjectOrder(u, v, 0);
      ObjectTextOrder(o.id.subject, p.id.subject);
    } else {
      if Print(o.id.path) == Print(p.id.path) { PrintInjective(o.id.path, p.id.path); }
      ObjectOrder(u, v, 1);
    }
  }

  lemma DictIsObject(a: NodeId)
    ensures NodeDict(a).Obj?
  {
  }

  /** By mode, provider, source and version; here a record without version comes last too. */
  predicate ListedRecordBefore(a: Provenance, b: Provenance) {
    if a.mode != b.mode then TextBefore(a.mode, b.mode)
    else if a.providerType != b.providerType then TextBefore(a.providerType, b.providerType)
    else if a.sourceRef != b.sourceRef then TextBefore(a.sourceRef, b.sourceRef)
    else OptionalBefore(a.sourceVersion, b.sourceVersion)
  }

  lemma ListedRecordOrder(a: Provenance, b: Provenance)
    requires a != b
    ensures ProvenanceDict(a) != ProvenanceDict(b)
    ensures Less(Render(ProvenanceDict(a)), Render(ProvenanceDict(b))) <==> ListedRecordBefore(a, b)
  {
    var u, v := ProvenanceDict(a).members, ProvenanceDict(b).members;
    if a.mode != b.mode {
      assert u[0] != v[0];
      ObjectOrder(u, v, 0);
    } else if a.providerType != b.providerType {
      assert u[1] != v[1];
      ObjectOrder(u, v, 1);
    } else if a.sourceRef != b.sourceRef {
      assert u[2] != v[2];
      ObjectOrder(u, v, 2);
    } else {
      assert u[3] != v[3];
      OptionalOrder(a.sourceVersion, b.sourceVersion);
      ObjectOrder(u, v, 3);
    }
  }

  lemma {:induction false} RecordDicts(records: seq<Provenance>)
    ensures |ProvenanceDicts(records)| == |records|
    ensures forall i :: 0 <= i < |records| ==> ProvenanceDicts(records)[i] == ProvenanceDict(records[i])
  {
    if records != [] { RecordDicts(records[1..]); }
  }

  /** Observations of one property compare by the first of their records that differs. */
  lemma ObservationOrderByRecord(o: Observation, p: Observation, i: nat)
    requires o.id.subject == p.id.subject && o.id.path == p.id.path
    requires i < |o.provenance| && i < |p.provenance| && o.provenance[..i] == p.provenance[..i] && o.provenance[i] != p.provenance[i]
    ensures KeyLess(EntryKey(o), EntryKey(p)) <==> ListedRecordBefore(o.provenance[i], p.provenance[i])
  {
    hide NodeDict, Print, ProvenanceDict, ListedRecordBefore, ProvenanceDicts;
    var u, v := EntryJson(o).members, EntryJson(p).members;
    OneText(Render(EntryJson(o)), Render(EntryJson(p)));
    RecordDicts(o.provenance);
    RecordDicts(p.provenance);
    var x, y := ProvenanceDicts(o.provenance), ProvenanceDicts(p.provenance);
    assert forall k :: 0 <= k < i ==> o.provenance[k] == o.provenance[..i][k] == p.provenance[..i][k] == p.provenance[k];
    assert x[..i] == y[..i];
    ListedRecordOrder(o.provenance[i], p.provenance[i]);
    RecordIsObject(o.provenance[i]);
    RecordIsObject(p.provenance[i]);
    ArrayOrder(x, y, i);
    assert u[..2] == v[..2] && u[2].value == Arr(x) && v[2].value == Arr(y);
    assert Arr(x) != Arr(y) by { assert x[i] != y[i]; }
    ObjectOrder(u, v, 2);
  }

  lemma RecordIsObject(r: Provenance)
    ensures ProvenanceDict(r).Obj?
  {
  }

  /** Observations of one property with the same records compare by their values, unless those are numbers. */
  lemma ObservationOrderByValue(o: Observation, p: Observation)
    requires o.id.subject == p.id.subject && o.id.path == p.id.path && o.provenance == p.provenance
    requires o.id.value != p.id.value && !IsNumber(o.id.value) && !IsNumber(p.id.value)
    ensures KeyLess(EntryKey(o), EntryKey(p)) <==> Less(Render(o.id.value), Render(p.id.value))
  {
    hide NodeDict, Print, ProvenanceDicts;
    var u, v := EntryJson(o).members, EntryJson(p).members;
    OneText(Render(EntryJson(o)), Render(EntryJson(p)));
    ObjectOrder(u, v, 3);
  }
}
