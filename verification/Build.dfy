/** Building a comparison result: projection of both sides, acknowledged roots, the diff, the status. */
module Build {
  import opened Outcomes
  import opened Identities
  import opened Snapshots
  import opened Projection
  import opened Comparisons
  import opened ComparisonCheck
  import opened Artifacts
  import opened Sorting

  /** Which differing roots may be matched. */
  datatype RootAlignmentAck = RootAlignmentAck(alignSourceRoots: bool, alignDatabaseRoots: bool)

  function MetadataOf(snap: Snapshot): Metadata {
    Metadata(ContentIdentity(snap), snap.databaseName, snap.scanner, snap.contractVersion, snap.sourceName, snap.systemType)
  }

  /** Roots whose names differ are matched only when that was acknowledged. */
  predicate Acknowledged(baseline: Snapshot, candidate: Snapshot, ack: RootAlignmentAck) {
    && (baseline.sourceName == candidate.sourceName || ack.alignSourceRoots)
    && (baseline.databaseName == candidate.databaseName || ack.alignDatabaseRoots)
  }

  function AlignmentOf(baseline: Snapshot, candidate: Snapshot): RootAlignment {
    RootAlignment(ExpectedAlignment(baseline.sourceName, candidate.sourceName), ExpectedAlignment(baseline.databaseName, candidate.databaseName))
  }

  method ResolveRootAlignment(baseline: Snapshot, candidate: Snapshot, ack: RootAlignmentAck) returns (r: Result<RootAlignment>)
    ensures r.Success? <==> Acknowledged(baseline, candidate, ack)
    ensures r.Success? ==> r.value == AlignmentOf(baseline, candidate)
  {
    var errors := 0;
    var sourceDiffers := baseline.sourceName != candidate.sourceName;
    var databaseDiffers := baseline.databaseName != candidate.databaseName;
    if sourceDiffers && !ack.alignSourceRoots {
      errors := errors + 1;
    }
    if databaseDiffers && !ack.alignDatabaseRoots {
      errors := errors + 1;
    }
    if errors > 0 {
      return Failure;
    }
    var sourceBlock: Option<NamePair> := None;
    if sourceDiffers {
      sourceBlock := Some(NamePair(baseline.sourceName, candidate.sourceName));
    }
    var databaseBlock: Option<NamePair> := None;
    if databaseDiffers {
      databaseBlock := Some(NamePair(baseline.databaseName, candidate.databaseName));
    }
    r := Success(RootAlignment(sourceBlock, databaseBlock));
  }

  /** Both snapshots come from the same scanner and the same kind of system. */
  predicate SameScanner(baseline: Snapshot, candidate: Snapshot) {
    baseline.systemType == candidate.systemType && baseline.scanner == candidate.scanner
  }

  method ValidatePairwiseScanner(baseline: Snapshot, candidate: Snapshot) returns (ok: bool)
    ensures ok <==> SameScanner(baseline, candidate)
  {
    var errors := 0;
    if baseline.systemType != candidate.systemType {
      errors := errors + 1;
    }
    if baseline.scanner != candidate.scanner {
      errors := errors + 1;
    }
    ok := errors == 0;
  }

  /** `x` is the comparison of the projections `pb` and `pc`. */
  ghost predicate BuiltFrom(baseline: Snapshot, candidate: Snapshot, pb: Projected, pc: Projected, x: Comparison) {
    && IsProjection(baseline, pb) && IsProjection(candidate, pc) && SameScanner(baseline, candidate)
    && x.baseline == MetadataOf(baseline) && x.candidate == MetadataOf(candidate)
    && x.direction == DIRECTION && x.writesPerformed == 0
    && x.rootAlignment == AlignmentOf(baseline, candidate)
    && IsListing(pb.objects, pc.objects, x.objectChanges)
    && SummaryOf(pb.objects, pc.objects, x.summary) && SummaryCounts(x.objectChanges, x.summary)
    && x.status == (if x.objectChanges == [] then "identical" else "different")
  }

  ghost predicate IsBuilt(baseline: Snapshot, candidate: Snapshot, x: Comparison) {
    exists pb, pc :: BuiltFrom(baseline, candidate, pb, pc, x)
  }

  /** Exactly the pairs of snapshots that can be compared. */
  ghost predicate Comparable(baseline: Snapshot, candidate: Snapshot, ack: RootAlignmentAck) {
    && Projectable(baseline) && Projectable(candidate)
    && SameScanner(baseline, candidate) && Acknowledged(baseline, candidate, ack)
  }

  method BuildComparisonResult(baseline: Snapshot, candidate: Snapshot, ack: RootAlignmentAck) returns (r: Result<Artifact>)
    requires ModelOk(baseline.model) && ModelOk(candidate.model)
    ensures r.Success? <==> Comparable(baseline, candidate, ack)
    ensures r.Success? ==> r.value.contentIdentity.content == r.value.payload && IsBuilt(baseline, candidate, r.value.payload)
  {
    hide ModelOk, Projectable, IsProjection, IsListing, SummaryOf, SummaryCounts, Total;
    var pb := ProjectSnapshot(baseline);
    if pb.Failure? { return Failure; }
    var pc := ProjectSnapshot(candidate);
    if pc.Failure? { return Failure; }
    var agree := ValidatePairwiseScanner(baseline, candidate);
    if !agree { return Failure; }
    var alignment := ResolveRootAlignment(baseline, candidate, ack);
    if alignment.Failure? { return Failure; }
    var changes, summary := CompareProjected(pb.value.objects, pc.value.objects);
    ListingCounted(pb.value.objects, pc.value.objects, changes, summary);
    var status := if summary.added == 0 && summary.removed == 0 && summary.changed == 0 then "identical" else "different";
    if summary.changed == 0 && summary.propertyChanges != 0 {
      assert false;
    }
    var payload := Comparison(MetadataOf(baseline), MetadataOf(candidate), DIRECTION, changes, alignment.value, status, summary, 0);
    assert BuiltFrom(baseline, candidate, pb.value, pc.value, payload);
    r := Success(Artifact(ComparisonIdentity(payload), payload));
  }

  predicate KnownChange(c: ObjectChange) {
    && (c.change == "added" || c.change == "removed" || c.change == "changed")
    && (c.change != "changed" ==> c.propertyChanges == [])
  }

  lemma {:induction false} KnownChangesCounted(changes: seq<ObjectChange>)
    requires forall c :: c in changes ==> KnownChange(c)
    ensures Total(AddedWeight, changes) >= 0 && Total(RemovedWeight, changes) >= 0 && Total(ChangedWeight, changes) >= 0
    ensures Total(AddedWeight, changes) + Total(RemovedWeight, changes) + Total(ChangedWeight, changes) == |changes|
    ensures Total(ChangedWeight, changes) == 0 ==> Total(PropertyWeight, changes) == 0
  {
    if changes != [] {
      KnownChangesCounted(changes[..|changes| - 1]);
      assert KnownChange(changes[|changes| - 1]);
    }
  }

  /** The counts of a listing cover its entries; no property change is counted without a changed object. */
  lemma ListingCounted(a: Objects, b: Objects, changes: seq<ObjectChange>, s: Summary)
    requires IsListing(a, b, changes) && SummaryCounts(changes, s)
    ensures s.added == 0 && s.removed == 0 && s.changed == 0 <==> changes == []
    ensures s.changed == 0 ==> s.propertyChanges == 0
  {
    hide Total, IdentityJson, ParentJson, IsDiff;
    forall c | c in changes ensures KnownChange(c) {
      var i :| Describes(a, b, i, c);
    }
    KnownChangesCounted(changes);
  }
}
