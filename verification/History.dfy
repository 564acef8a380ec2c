/** The stored history of one source: an append-only list of snapshots, each comparable with the one before. */
module History {
  import opened Outcomes
  import opened Snapshots
  import opened Projection
  import opened Build

  /** Which roots may be matched although their names differ; fixed by the first entry. */
  type ComparisonPolicy = RootAlignmentAck

  /** Content identities of the observations and the authority an entry was taken with. */
  datatype Context = Context(observations: Option<string>, authority: Option<string>)

  /** Absent labels are not the same state as an empty dictionary of labels. */
  datatype EntryState = EntryState(snapshot: ContentIdentity<Snapshot>, labels: Option<map<string, string>>, context: Context)

  datatype Operator = Operator(snapshotPath: string, observationsPath: Option<string>, authorityPaths: Option<seq<string>>)

  datatype HistoryEntry = HistoryEntry(state: EntryState, operator: Operator, capturedAt: Option<string>)

  datatype GovernanceHistory = GovernanceHistory(policy: ComparisonPolicy, entries: seq<HistoryEntry>)

  /** One call: its arguments, and what loading the named files gave. */
  datatype Request = Request(
    operator: Operator, labels: Option<map<string, string>>, capturedAt: Option<string>,
    alignSource: Option<bool>, alignDatabase: Option<bool>,
    snapshot: Result<Snapshot>, observations: Result<string>, authority: Result<string>)

  /** Loading a snapshot goes through the constructors of the model. */
  predicate RequestOk(q: Request) {
    q.snapshot.Success? ==> ModelOk(q.snapshot.value.model)
  }

  function SnapshotOf(e: HistoryEntry): Snapshot { e.state.snapshot.content }

  // ----- one step

  /** Paths and files are in order: authority needs observations, and every named file loads. */
  predicate InputsOk(q: Request) {
    && (q.operator.authorityPaths.Some? ==> q.operator.authorityPaths.value != [] && q.operator.observationsPath.Some?)
    && q.snapshot.Success?
    && (q.operator.observationsPath.Some? ==> q.observations.Success?)
    && (q.operator.authorityPaths.Some? ==> q.authority.Success?)
  }

  /** Flags that are given repeat the stored policy. */
  predicate FlagsAgree(policy: ComparisonPolicy, q: Request) {
    && (q.alignSource.Some? ==> q.alignSource.value == policy.alignSourceRoots)
    && (q.alignDatabase.Some? ==> q.alignDatabase.value == policy.alignDatabaseRoots)
  }

  function PolicyFor(stored: Option<GovernanceHistory>, q: Request): ComparisonPolicy {
    match stored
    case Some(h) => h.policy
    case None => RootAlignmentAck(q.alignSource == Some(true), q.alignDatabase == Some(true))
  }

  function EntryFor(q: Request): HistoryEntry
    requires InputsOk(q)
  {
    var context := Context(
      if q.operator.observationsPath.Some? then Some(q.observations.value) else None,
      if q.operator.authorityPaths.Some? then Some(q.authority.value) else None);
    HistoryEntry(EntryState(ContentIdentity(q.snapshot.value), q.labels, context), q.operator, q.capturedAt)
  }

  /** The new entry may follow the last one. */
  ghost predicate Follows(policy: ComparisonPolicy, last: HistoryEntry, next: HistoryEntry) {
    Comparable(SnapshotOf(last), SnapshotOf(next), policy) && last.state != next.state
  }

  ghost predicate Admissible(stored: Option<GovernanceHistory>, q: Request) {
    && InputsOk(q)
    && (stored.Some? ==> FlagsAgree(stored.value.policy, q))
    && (stored.Some? && stored.value.entries != [] ==>
          Follows(stored.value.policy, stored.value.entries[|stored.value.entries| - 1], EntryFor(q)))
  }

  function Extended(stored: Option<GovernanceHistory>, q: Request): GovernanceHistory
    requires InputsOk(q)
  {
    GovernanceHistory(PolicyFor(stored, q), (if stored.Some? then stored.value.entries else []) + [EntryFor(q)])
  }

  /** What a call leaves: the extended history, or the old one. */
  ghost function AfterCall(stored: Option<GovernanceHistory>, q: Request): Option<GovernanceHistory> {
    if Admissible(stored, q) then Some(Extended(stored, q)) else stored
  }

  ghost predicate SnapshotsOk(stored: Option<GovernanceHistory>) {
    stored.Some? ==> forall e :: e in stored.value.entries ==> ModelOk(SnapshotOf(e).model)
  }

  /** The history file. */
  class HistoryFile {
    var stored: Option<GovernanceHistory>

    constructor ()
      ensures stored == None
    {
      stored := None;
    }

    /** Adds one entry, or changes nothing. */
    method Append(q: Request) returns (ok: bool)
      requires RequestOk(q) && SnapshotsOk(stored)
      modifies this
      ensures ok <==> Admissible(old(stored), q)
      ensures stored == AfterCall(old(stored), q)
      ensures SnapshotsOk(stored)
    {
      hide ModelOk, Comparable, IsBuilt;
      if q.operator.authorityPaths.Some? {
        if |q.operator.authorityPaths.value| == 0 {
          return false;
        }
        if q.operator.observationsPath.None? {
          return false;
        }
      }
      if q.snapshot.Failure? {
        return false;
      }
      var snapshot := q.snapshot.value;
      var policy := PolicyFor(stored, q);
      if stored.Some? {
        if q.alignSource.Some? && q.alignSource.value != policy.alignSourceRoots {
          return false;
        }
        if q.alignDatabase.Some? && q.alignDatabase.value != policy.alignDatabaseRoots {
          return false;
        }
      }
      if q.operator.observationsPath.Some? && q.observations.Failure? {
        return false;
      }
      if q.operator.authorityPaths.Some? && q.authority.Failure? {
        return false;
      }
      var entry := EntryFor(q);
      if stored.Some? && |stored.value.entries| > 0 {
        var last := stored.value.entries[|stored.value.entries| - 1];
        var compared := BuildComparisonResult(SnapshotOf(last), snapshot, policy);
        if compared.Failure? {
          return false;
        }
        if last.state == entry.state {
          return false;
        }
      }
      assert [] + [entry] == [entry];
      if stored.None? {
        stored := Some(GovernanceHistory(policy, [entry]));
      } else {
        stored := Some(GovernanceHistory(policy, stored.value.entries + [entry]));
      }
      ok := true;
    }
  }

  // ----- whole runs

  /** Each entry follows the one before it. */
  ghost predicate Chained(h: GovernanceHistory) {
    forall i :: 0 <= i < |h.entries| - 1 ==> Follows(h.policy, h.entries[i], h.entries[i + 1])
  }

  ghost predicate StoredOk(stored: Option<GovernanceHistory>) {
    stored.Some? ==> Chained(stored.value)
  }

  /** `trace` lists what is stored before the first call and after each. */
  ghost predicate IsRun(trace: seq<Option<GovernanceHistory>>, calls: seq<Request>) {
    && |trace| == |calls| + 1 && StoredOk(trace[0])
    && forall i :: 0 <= i < |calls| ==> trace[i + 1] == AfterCall(trace[i], calls[i])
  }

  /** Nothing is ever removed or rewritten, and the policy stays. */
  predicate Grows(before: Option<GovernanceHistory>, after: Option<GovernanceHistory>) {
    before.Some? ==> after.Some? && after.value.policy == before.value.policy && before.value.entries <= after.value.entries
  }

  lemma StepGrows(stored: Option<GovernanceHistory>, q: Request)
    requires StoredOk(stored)
    ensures Grows(stored, AfterCall(stored, q)) && StoredOk(AfterCall(stored, q))
  {
  }

  /** At every point of a run the history is chained, and it extends what was stored at any earlier point. */
  lemma {:induction false} RunGrows(trace: seq<Option<GovernanceHistory>>, calls: seq<Request>, i: nat, j: nat)
    requires IsRun(trace, calls) && i <= j <= |calls|
    ensures StoredOk(trace[j]) && Grows(trace[i], trace[j])
    decreases j
  {
    hide Chained, AfterCall, Grows;
    if j > 0 {
      RunGrows(trace, calls, if i < j then i else j - 1, j - 1);
      StepGrows(trace[j - 1], calls[j - 1]);
      assert trace[j] == AfterCall(trace[j - 1], calls[j - 1]);
      if i < j { GrowsTransitive(trace[i], trace[j - 1], trace[j]); } else { GrowsSelf(trace[j]); }
    } else {
      GrowsSelf(trace[j]);
    }
  }

  lemma GrowsSelf(a: Option<GovernanceHistory>)
    ensures Grows(a, a)
  {
  }

  lemma GrowsTransitive(a: Option<GovernanceHistory>, b: Option<GovernanceHistory>, c: Option<GovernanceHistory>)
    requires Grows(a, b) && Grows(b, c)
    ensures Grows(a, c)
  {
  }

  /** The snapshots agree on system type and scanner, and on the names of roots that may not differ. */
  predicate Alike(policy: ComparisonPolicy, a: Snapshot, b: Snapshot) {
    && a.systemType == b.systemType && a.scanner == b.scanner
    && (!policy.alignSourceRoots ==> a.sourceName == b.sourceName)
    && (!policy.alignDatabaseRoots ==> a.databaseName == b.databaseName)
  }

  lemma {:induction false} ChainAlike(h: GovernanceHistory, i: nat, j: nat)
    requires Chained(h) && i <= j < |h.entries|
    ensures Alike(h.policy, SnapshotOf(h.entries[i]), SnapshotOf(h.entries[j]))
    decreases j
  {
    hide Projectable;
    if i < j {
      ChainAlike(h, i, j - 1);
      assert Follows(h.policy, h.entries[j - 1], h.entries[j]);
    }
  }

  /** With at least two entries every stored snapshot can be projected. */
  lemma ChainProjectable(h: GovernanceHistory, i: nat)
    requires Chained(h) && i < |h.entries| && |h.entries| >= 2
    ensures Projectable(SnapshotOf(h.entries[i]))
  {
    hide Projectable;
    if i == 0 {
      assert Follows(h.policy, h.entries[0], h.entries[0 + 1]);
    } else {
      assert Follows(h.policy, h.entries[i - 1], h.entries[i - 1 + 1]);
    }
  }

  /** The run invariants together, for any two moments of a run and any two entries stored at the later one. */
  lemma RunInvariants(trace: seq<Option<GovernanceHistory>>, calls: seq<Request>, i: nat, j: nat)
    requires IsRun(trace, calls) && i <= j <= |calls| && trace[i].Some?
    ensures trace[j].Some? && trace[j].value.policy == trace[i].value.policy && trace[i].value.entries <= trace[j].value.entries
    ensures var e := trace[j].value.entries;
      forall k :: 0 <= k < |e| - 1 ==> e[k].state != e[k + 1].state
    ensures var h := trace[j].value;
      forall k, l :: 0 <= k <= l < |h.entries| ==> Alike(h.policy, SnapshotOf(h.entries[k]), SnapshotOf(h.entries[l]))
  {
    assert |trace| == |calls| + 1;
    hide IsRun, Comparable, Alike;
    RunGrows(trace, calls, i, j);
    var h := trace[j].value;
    forall k | 0 <= k < |h.entries| - 1 ensures h.entries[k].state != h.entries[k + 1].state {
      assert Follows(h.policy, h.entries[k], h.entries[k + 1]);
    }
    forall k, l | 0 <= k <= l < |h.entries| ensures Alike(h.policy, SnapshotOf(h.entries[k]), SnapshotOf(h.entries[l])) {
      ChainAlike(h, k, l);
    }
  }
}
