/** The two directions of one comparison. */
module Directions {
  import opened Outcomes
  import opened Sorting
  import opened Identities
  import opened Snapshots
  import opened Projection
  import opened ProjectionProofs
  import opened Comparisons
  import opened Inversion
  import opened Artifacts
  import opened ComparisonCheck
  import opened Build
  import opened ProducerSoundness

  function SwapPair(pair: Option<NamePair>): Option<NamePair> {
    match pair
    case None => None
    case Some(p) => Some(NamePair(p.candidate, p.baseline))
  }

  /** Everything swapped: sides, added and removed, both values of every property change. */
  function InverseOf(x: Comparison): Comparison {
    Comparison(x.candidate, x.baseline, x.direction, SortBy(ChangeKey, InvertAll(x.objectChanges)),
      RootAlignment(SwapPair(x.rootAlignment.source), SwapPair(x.rootAlignment.database)), x.status,
      Summary(x.summary.removed, x.summary.added, x.summary.changed, x.summary.unchangedObjects, x.summary.propertyChanges),
      x.writesPerformed)
  }

  /** The result of the other direction is exactly the inverse. */
  lemma BuiltInverse(base: Snapshot, cand: Snapshot, x: Comparison, y: Comparison)
    requires ModelOk(base.model) && ModelOk(cand.model)
    requires IsBuilt(base, cand, x) && IsBuilt(cand, base, y)
    ensures y == InverseOf(x)
  {
    hide ModelOk, IsProjection, WellProjected, IsListing, SummaryOf, SummaryCounts;
    var pb, pc :| BuiltFrom(base, cand, pb, pc, x);
    var qc, qb :| BuiltFrom(cand, base, qc, qb, y);
    ProjectionUnique(base, pb, qb);
    ProjectionUnique(cand, pc, qc);
    ProjectionSound(base, pb);
    ProjectionSound(cand, pc);
    ParentsAgree(pb.objects, pc.objects, base, cand);
    ComparisonInverts(pb.objects, pc.objects, x.objectChanges, x.summary, y.objectChanges, y.summary);
    SortedNothing(x.objectChanges);
  }

  lemma SortedNothing(changes: seq<ObjectChange>)
    ensures SortBy(ChangeKey, InvertAll(changes)) == [] <==> changes == []
  {
  }

  /** Both directions can be built, or neither. */
  lemma ComparableSymmetric(base: Snapshot, cand: Snapshot, ack: RootAlignmentAck)
    ensures Comparable(base, cand, ack) <==> Comparable(cand, base, ack)
  {
  }

  /** One entry answers another: added for removed, swapped sides for changed. */
  predicate Answers(c: ObjectChange, d: ObjectChange) {
    && d.objectIdentity == c.objectIdentity && d.change == Flip(c.change)
    && if OneSided(c) then d.propertyChanges == [] else d.propertyChanges == SwapChanges(c.propertyChanges)
  }

  /** What the repository's own inversion assertion demands of two results. */
  ghost predicate AreInverse(left: Comparison, right: Comparison) {
    && left.baseline == right.candidate && left.candidate == right.baseline
    && left.summary.added == right.summary.removed && left.summary.removed == right.summary.added
    && left.summary.changed == right.summary.changed
    && left.summary.unchangedObjects == right.summary.unchangedObjects
    && left.summary.propertyChanges == right.summary.propertyChanges
    && left.rootAlignment.source == SwapPair(right.rootAlignment.source)
    && left.rootAlignment.database == SwapPair(right.rootAlignment.database)
    && |left.objectChanges| == |right.objectChanges|
    && forall c :: c in left.objectChanges ==> exists d :: d in right.objectChanges && Answers(c, d)
  }

  lemma InverseAnswers(x: Comparison)
    requires forall c :: c in x.objectChanges && OneSided(c) ==> c.propertyChanges == []
    ensures AreInverse(x, InverseOf(x))
  {
    var inverted := InvertAll(x.objectChanges);
    SortByOrdered(ChangeKey, inverted);
    forall c | c in x.objectChanges ensures exists d :: d in InverseOf(x).objectChanges && Answers(c, d) {
      var k :| 0 <= k < |x.objectChanges| && x.objectChanges[k] == c;
      assert inverted[k] in inverted;
      assert Answers(c, inverted[k]);
    }
  }

  /** The results of the two directions pass the inversion assertion, both ways round. */
  lemma BuiltAreInverse(base: Snapshot, cand: Snapshot, x: Comparison, y: Comparison)
    requires ModelOk(base.model) && ModelOk(cand.model)
    requires IsBuilt(base, cand, x) && IsBuilt(cand, base, y)
    ensures AreInverse(x, y) && AreInverse(y, x)
  {
    hide ModelOk, IsBuilt, AreInverse, InverseOf, EntryAccepted;
    BuiltInverse(base, cand, x, y);
    BuiltInverse(cand, base, y, x);
    BuiltOneSided(base, cand, x);
    BuiltOneSided(cand, base, y);
    InverseAnswers(x);
    InverseAnswers(y);
  }

  lemma BuiltOneSided(base: Snapshot, cand: Snapshot, x: Comparison)
    requires ModelOk(base.model) && ModelOk(cand.model) && IsBuilt(base, cand, x)
    ensures forall c :: c in x.objectChanges && OneSided(c) ==> c.propertyChanges == []
  {
    hide ModelOk, IsBuilt, ParseIdentity, ParentMatches, PropertiesAccepted;
    BuiltIsAccepted(base, cand, x);
    forall c | c in x.objectChanges && OneSided(c) ensures c.propertyChanges == [] {
      assert EntryAccepted(c);
    }
  }

  /** A comparison accounts for every object of both snapshots, and rebuilds the candidate's properties. */
  lemma BuiltConserves(base: Snapshot, cand: Snapshot, pb: Projected, pc: Projected, x: Comparison, i: Identity)
    requires ModelOk(base.model) && ModelOk(cand.model) && BuiltFrom(base, cand, pb, pc, x)
    ensures x.summary.unchangedObjects + x.summary.changed + x.summary.removed == |pb.objects|
    ensures x.summary.unchangedObjects + x.summary.changed + x.summary.added == |pc.objects|
    ensures i in pb.objects && i in pc.objects && !ListsIdentity(x.objectChanges, i) ==>
      pb.objects[i] == pc.objects[i]
    ensures i in pb.objects && i in pc.objects ==> forall c :: c in x.objectChanges && c.objectIdentity == IdentityJson(i) ==>
      Applied(pb.objects[i].properties, c.propertyChanges) == pc.objects[i].properties
  {
    hide ModelOk, IsProjection, WellProjected, IsListing, SummaryOf, SummaryCounts, IdentityJson, ValuesOk, ValidIdentity, ExpectedParent;
    Conservation(pb.objects, pc.objects, x.summary);
    if i in pb.objects && i in pc.objects {
      ProjectionSound(base, pb);
      ProjectionSound(cand, pc);
      ObjectFacts(pb.objects, base, i);
      ObjectFacts(pc.objects, cand, i);
      ObjectNamed(pb.objects, base, i);
      ObjectNamed(pc.objects, cand, i);
      ListedChangesApply(pb.objects, pc.objects, x.objectChanges, i);
    }
  }

  lemma ObjectNamed(objects: Objects, snap: Snapshot, i: Identity)
    requires WellProjected(objects, snap) && i in objects
    ensures objects[i].objectIdentity == i
  {
    hide PropertiesOk, ValuesOk, ValidIdentity;
    assert ObjectOk(i, objects[i], snap);
  }
}
