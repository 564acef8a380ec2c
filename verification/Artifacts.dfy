/** The comparison artifact: what one comparison run writes and later runs read back. */
module Artifacts {
  import opened Outcomes
  import opened Snapshots
  import opened Comparisons

  const DIRECTION := "baseline_to_candidate"

  datatype Metadata = Metadata(contentIdentity: ContentIdentity<Snapshot>, databaseName: string, scanner: string,
    scannerContractVersion: string, sourceName: string, systemType: string)

  datatype NamePair = NamePair(baseline: string, candidate: string)

  datatype RootAlignment = RootAlignment(source: Option<NamePair>, database: Option<NamePair>)

  datatype Comparison = Comparison(baseline: Metadata, candidate: Metadata, direction: string,
    objectChanges: seq<ObjectChange>, rootAlignment: RootAlignment, status: string, summary: Summary, writesPerformed: int)

  /** The identity of a comparison stands for the content it was computed from. */
  datatype ComparisonIdentity = ComparisonIdentity(content: Comparison)

  /** A persisted comparison carries the identity of its own content. */
  datatype Artifact = Artifact(contentIdentity: ComparisonIdentity, payload: Comparison)
}
