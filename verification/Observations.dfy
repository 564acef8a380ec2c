/**
 Property observations: what was observed of which property, by whom. Observations of one value are
 pooled; the normalized set does not depend on how they arrive.
 */
module Observations {
  import opened Sorting
  import opened JsonText
  import opened JsonOrder
  import opened Pointers
  import opened Graphs

  type PropertyPath = p: Path | p != [] witness [""]

  /** One value of one property of one object. */
  datatype Observed = Observed(subject: NodeId, path: PropertyPath, value: Json)

  /** Nothing besides the value and its provenance. */
  datatype Nothing = Nothing

  /** An observation is a part: its provenance is pooled with that of equal observations. */
  type Observation = Part<Observed, Nothing>

  // ----- the order of a normalized set

  function NodeDict(n: NodeId): Json {
    Obj([Member("kind", Str(n.kind)), Member("logical_id", Str(n.logicalId)), Member("namespace", Str(n.namespace)),
         Member("parent", match n.parent case None => Null case Some(p) => NodeDict(p))])
  }

  function ProvenanceDict(r: Provenance): Json {
    Obj([Member("observation_mode", Str(r.mode)), Member("provider_type", Str(r.providerType)),
         Member("source_ref", Str(r.sourceRef)), Member("source_version", OptionalText(r.sourceVersion))])
  }

  function ProvenanceDicts(records: seq<Provenance>): seq<Json> {
    if records == [] then [] else [ProvenanceDict(records[0])] + ProvenanceDicts(records[1..])
  }

  /** The entry of an observation in the identity of its set. */
  function EntryJson(o: Observation): Json {
    Obj([Member("object", NodeDict(o.id.subject)), Member("property", Str(Print(o.id.path))),
         Member("provenance", Arr(ProvenanceDicts(o.provenance))), Member("value", o.id.value)])
  }

  function EntryKey(o: Observation): SortKey { [Render(EntryJson(o))] }

  lemma {:induction false} NodeDictInjective(a: NodeId, b: NodeId)
    requires NodeDict(a) == NodeDict(b)
    ensures a == b
  {
    var u, v := NodeDict(a).members, NodeDict(b).members;
    assert u[0] == v[0] && u[1] == v[1] && u[2] == v[2] && u[3] == v[3];
    if a.parent.Some? && b.parent.Some? {
      NodeDictInjective(a.parent.value, b.parent.value);
    }
  }

  lemma EntryKeyTellsObserved(a: Observation, b: Observation)
    requires EntryKey(a) == EntryKey(b)
    ensures a.id == b.id
  {
    hide NodeDict, ProvenanceDicts, Render, Print;
    assert EntryKey(a)[0] == EntryKey(b)[0];
    RenderInjective(EntryJson(a), EntryJson(b));
    var u, v := EntryJson(a).members, EntryJson(b).members;
    assert u[0] == v[0] && u[1] == v[1] && u[3] == v[3];
    NodeDictInjective(a.id.subject, b.id.subject);
    PrintInjective(a.id.path, b.id.path);
  }

  // ----- normalization

  /** `out` holds one observation for each observed value, with all its provenance, in canonical order. */
  ghost predicate Normalized(observations: seq<Observation>, out: seq<Observation>) {
    StrictlyOrdered(EntryKey, out) && Pooled(observations, out)
  }

  /** Group by object, path and value; pool provenance; sort. */
  method NormalizeObservations(observations: seq<Observation>) returns (out: seq<Observation>)
    ensures Normalized(observations, out)
  {
    hide Pooled, EntryKey;
    var merged := MergeGroups(observations);
    assert Consistent(observations) by { NoDisagreement(observations); }
    PooledDistinct(observations, merged.value);
    out := SortBy(EntryKey, merged.value);
    SortedPooled(observations, merged.value);
  }

  /** Observations of one value have nothing to disagree on. */
  lemma NoDisagreement(observations: seq<Observation>)
    ensures Consistent(observations)
  {
    forall p, q | p in observations && q in observations && p.id == q.id ensures p.payload == q.payload {
      assert p.payload.Nothing? && q.payload.Nothing?;
    }
  }

  lemma PooledDistinct(observations: seq<Observation>, merged: seq<Observation>)
    requires Pooled(observations, merged)
    ensures StrictlyOrdered(EntryKey, SortBy(EntryKey, merged))
  {
    hide EntryKey;
    forall a, b | a in merged && b in merged && EntryKey(a) == EntryKey(b) ensures a == b {
      EntryKeyTellsObserved(a, b);
    }
    SortByStrict(EntryKey, merged);
  }

  lemma SortedPooled(observations: seq<Observation>, merged: seq<Observation>)
    requires Pooled(observations, merged) && StrictlyOrdered(EntryKey, SortBy(EntryKey, merged))
    ensures Pooled(observations, SortBy(EntryKey, merged))
  {
    hide EntryKey, StandsFor, Insert, SortBy, KeyLess;
    var out := SortBy(EntryKey, merged);
    SortByOrdered(EntryKey, merged);
    StrictlyOrderedNoRepeats(EntryKey, out);
    forall i, j | 0 <= i < j < |out| ensures out[i].id != out[j].id {
      assert out[i] in merged && out[j] in merged && out[i] != out[j];
    }
    forall p | p in observations ensures HasId(out, p.id) {
      assert HasId(merged, p.id);
      var m :| m in merged && m.id == p.id;
      assert m in out;
    }
  }

  /** The normalized set depends only on which observations there are: not on order, not on repetition. */
  lemma NormalizedUnique(a: seq<Observation>, b: seq<Observation>, x: seq<Observation>, y: seq<Observation>)
    requires forall o :: o in a <==> o in b
    requires Normalized(a, x) && Normalized(b, y)
    ensures x == y
  {
    hide EntryKey;
    forall o ensures o in x <==> o in y {
      if o in x { PooledIn(a, b, x, y, o); }
      if o in y { PooledIn(b, a, y, x, o); }
    }
    StrictlyOrderedUnique(EntryKey, x, y);
  }

  lemma PooledIn(a: seq<Observation>, b: seq<Observation>, x: seq<Observation>, y: seq<Observation>, m: Observation)
    requires forall o :: o in a <==> o in b
    requires Pooled(a, x) && Pooled(b, y) && m in x
    ensures m in y
  {
    assert HasId(a, m.id);
    var p :| p in a && p.id == m.id;
    var n :| n in y && n.id == p.id;
    StandsForUnique(a, b, m, n);
  }

  lemma PooledIdsUnique(a: seq<Observation>, x: seq<Observation>)
    requires Pooled(a, x)
    ensures forall m, n :: m in x && n in x && m.id == n.id ==> m == n
  {
    hide StandsFor;
  }

  /** Normalizing a normalized set changes nothing. */
  lemma NormalizedFixed(a: seq<Observation>, x: seq<Observation>, y: seq<Observation>)
    requires Normalized(a, x) && Normalized(x, y)
    ensures y == x
  {
    hide EntryKey, StrictlyOrdered;
    PooledIdsUnique(a, x);
    forall m | m in x ensures StandsFor(x, m) {
      assert HasId(x, m.id);
      forall r ensures r in m.provenance <==> RecordedFor(x, m.id, r) {}
      assert StandsFor(a, m);
    }
    assert Normalized(x, x);
    NormalizedUnique(x, x, x, y);
  }

  /** Every observation that goes in keeps its records; nothing else is recorded. */
  lemma NothingLost(a: seq<Observation>, x: seq<Observation>, o: Observation)
    requires Normalized(a, x) && o in a
    ensures exists m :: m in x && m.id == o.id && forall r :: r in o.provenance ==> r in m.provenance
  {
  }

  function Concat(sets: seq<seq<Observation>>): (r: seq<Observation>)
    ensures forall o :: o in r <==> exists k :: 0 <= k < |sets| && o in sets[k]
  {
    if sets == [] then []
    else
      var n := |sets| - 1;
      assert sets == sets[..n] + [sets[n]];
      Concat(sets[..n]) + sets[n]
  }

  /** The union of normalized sets, collected in a loop and normalized again. */
  method MergeSets(sets: seq<seq<Observation>>) returns (out: seq<Observation>)
    ensures Normalized(Concat(sets), out)
  {
    hide Normalized;
    if |sets| == 0 {
      out := NormalizeObservations([]);
      return;
    }
    var collected: seq<Observation> := [];
    for k := 0 to |sets|
      invariant collected == Concat(sets[..k])
    {
      assert sets[..k + 1][..k] == sets[..k];
      collected := collected + sets[k];
    }
    assert sets[..|sets|] == sets;
    out := NormalizeObservations(collected);
  }

  /** Merging two normalized sets is normalizing all their observations at once. */
  lemma MergeOfSets(a: seq<Observation>, b: seq<Observation>, x: seq<Observation>, y: seq<Observation>, out: seq<Observation>, all: seq<Observation>)
    requires Normalized(a, x) && Normalized(b, y) && Normalized(x + y, out) && Normalized(a + b, all)
    ensures out == all
  {
    hide EntryKey, StrictlyOrdered;
    forall p | p in a + b ensures HasId(out, p.id) {
      assert HasId(x, p.id) || HasId(y, p.id);
      var m :| m in x + y && m.id == p.id;
    }
    forall m | m in out ensures StandsFor(a + b, m) {
      StandsForMerges(a, b, x, y, m);
    }
    assert Normalized(a + b, out);
    NormalizedUnique(a + b, a + b, out, all);
  }

  // ----- the builder

  datatype Pending = Pending(subject: NodeId, path: PropertyPath, value: Json, record: Provenance)

  function Single(p: Pending): Observation {
    Part(Observed(p.subject, p.path, p.value), Nothing, [p.record])
  }

  function Singles(pending: seq<Pending>): (r: seq<Observation>)
    ensures |r| == |pending| && forall i :: 0 <= i < |r| ==> r[i] == Single(pending[i])
  {
    if pending == [] then [] else Singles(pending[..|pending| - 1]) + [Single(pending[|pending| - 1])]
  }

  /** Collects observations one provenance record at a time. */
  class Builder {
    var pending: seq<Pending>

    constructor ()
      ensures pending == []
    {
      pending := [];
    }

    method Observe(subject: NodeId, path: PropertyPath, value: Json, record: Provenance)
      modifies this
      ensures pending == old(pending) + [Pending(subject, path, value, record)]
    {
      pending := pending + [Pending(subject, path, value, record)];
    }

    method Build() returns (out: seq<Observation>)
      ensures Normalized(Singles(pending), out)
    {
      hide Normalized;
      var observations: seq<Observation> := [];
      for k := 0 to |pending|
        invariant observations == Singles(pending[..k])
      {
        assert pending[..k + 1][..k] == pending[..k];
        var p := pending[k];
        observations := observations + [Part(Observed(p.subject, p.path, p.value), Nothing, [p.record])];
      }
      assert pending[..|pending|] == pending;
      out := NormalizeObservations(observations);
    }
  }

  ghost predicate WasObserved(pending: seq<Pending>, id: Observed, r: Provenance) {
    exists p :: p in pending && id == Observed(p.subject, p.path, p.value) && r == p.record
  }

  /** What is built holds exactly the records that were observed, each under its value. */
  lemma BuiltRecords(pending: seq<Pending>, out: seq<Observation>, id: Observed, r: Provenance)
    requires Normalized(Singles(pending), out)
    ensures RecordedFor(out, id, r) <==> WasObserved(pending, id, r)
  {
  }
}
