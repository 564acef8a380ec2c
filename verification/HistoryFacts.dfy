/** Histories in terms of the calls that made them: the policy is that of the first, each entry is that of its own. */
module HistoryFacts {
  import opened Outcomes
  import opened Projection
  import opened Build
  import opened History

  // ----- one call

  /** What the call names can be read, and an authority comes with observations. */
  predicate Readable(q: Request) {
    && q.snapshot.Success?
    && (q.operator.observationsPath != None ==> q.observations.Success?)
    && (q.operator.authorityPaths != None ==> q.authority.Success? && q.operator.observationsPath != None && q.operator.authorityPaths != Some([]))
  }

  lemma ReadableExactly(q: Request)
    ensures InputsOk(q) <==> Readable(q)
  {
  }

  /** The entry records what the call was given and what it read. */
  predicate Records(e: HistoryEntry, q: Request) {
    && q.snapshot == Success(e.state.snapshot.content)
    && e.state.labels == q.labels && e.operator == q.operator && e.capturedAt == q.capturedAt
    && (if q.operator.observationsPath == None then e.state.context.observations == None
        else e.state.context.observations.Some? && q.observations == Success(e.state.context.observations.value))
    && (if q.operator.authorityPaths == None then e.state.context.authority == None
        else e.state.context.authority.Some? && q.authority == Success(e.state.context.authority.value))
  }

  /** The first call sets the policy: a root is aligned exactly if the call said so. */
  lemma FirstCall(q: Request)
    ensures AfterCall(None, q).Some? <==> Readable(q)
    ensures Readable(q) ==>
      var h := AfterCall(None, q).value;
      && (h.policy.alignSourceRoots <==> q.alignSource == Some(true))
      && (h.policy.alignDatabaseRoots <==> q.alignDatabase == Some(true))
      && |h.entries| == 1 && Records(h.entries[0], q)
  {
    ReadableExactly(q);
  }

  /** A later call appends its entry or changes nothing. */
  lemma LaterCall(h: GovernanceHistory, q: Request)
    ensures AfterCall(Some(h), q) == Some(h) || (AfterCall(Some(h), q).Some? && Admissible(Some(h), q)
      && AfterCall(Some(h), q).value.policy == h.policy && |AfterCall(Some(h), q).value.entries| == |h.entries| + 1
      && AfterCall(Some(h), q).value.entries[..|h.entries|] == h.entries
      && Records(AfterCall(Some(h), q).value.entries[|h.entries|], q))
  {
    hide Follows;
  }

  // ----- runs

  /** `at` lists the admitted calls among the first `j`, in order. */
  ghost predicate AdmittedCalls(trace: seq<Option<GovernanceHistory>>, calls: seq<Request>, j: nat, at: seq<nat>)
    requires |trace| == |calls| + 1 && j <= |calls|
  {
    && (forall k :: 0 <= k < |at| ==> at[k] < j && Admissible(trace[at[k]], calls[at[k]]))
    && (forall k, l :: 0 <= k < l < |at| ==> at[k] < at[l])
    && (forall i :: 0 <= i < j && Admissible(trace[i], calls[i]) ==> i in at)
  }

  /** The entries record the calls `at`, one each, and the policy is that of the first. */
  ghost predicate RecordsAll(stored: Option<GovernanceHistory>, calls: seq<Request>, at: seq<nat>)
    requires forall k :: 0 <= k < |at| ==> at[k] < |calls|
  {
    && (at == [] <==> stored == None)
    && (at != [] ==>
          && |stored.value.entries| == |at|
          && (forall k :: 0 <= k < |at| ==> Records(stored.value.entries[k], calls[at[k]]))
          && (stored.value.policy.alignSourceRoots <==> calls[at[0]].alignSource == Some(true))
          && (stored.value.policy.alignDatabaseRoots <==> calls[at[0]].alignDatabase == Some(true)))
  }

  /** The stored entries are those of the admitted calls, in order, and the policy is that of the first of them. */
  lemma {:induction false} RunRecorded(trace: seq<Option<GovernanceHistory>>, calls: seq<Request>, j: nat) returns (at: seq<nat>)
    requires IsRun(trace, calls) && trace[0] == None && j <= |calls|
    ensures AdmittedCalls(trace, calls, j, at) && RecordsAll(trace[j], calls, at)
    decreases j
  {
    hide Admissible, AfterCall, IsRun, AdmittedCalls, RecordsAll;
    if j == 0 {
      at := [];
      NothingRecorded(trace, calls);
    } else {
      at := RunRecorded(trace, calls, j - 1);
      RunStep(trace, calls, j - 1);
      CallsStep(trace, calls, j - 1, at);
      if Admissible(trace[j - 1], calls[j - 1]) {
        AdmittedRecorded(trace[j - 1], calls, at, j - 1);
        at := at + [j - 1];
      } else {
        RefusedRecorded(trace[j - 1], calls[j - 1]);
      }
    }
  }

  lemma RunStep(trace: seq<Option<GovernanceHistory>>, calls: seq<Request>, i: nat)
    requires IsRun(trace, calls) && i < |calls|
    ensures |trace| == |calls| + 1 && trace[i + 1] == AfterCall(trace[i], calls[i])
  {
    hide AfterCall;
  }

  lemma NothingRecorded(trace: seq<Option<GovernanceHistory>>, calls: seq<Request>)
    requires IsRun(trace, calls) && trace[0] == None
    ensures AdmittedCalls(trace, calls, 0, []) && RecordsAll(trace[0], calls, [])
  {
  }

  lemma CallsStep(trace: seq<Option<GovernanceHistory>>, calls: seq<Request>, i: nat, at: seq<nat>)
    requires |trace| == |calls| + 1 && i < |calls| && AdmittedCalls(trace, calls, i, at)
    ensures Admissible(trace[i], calls[i]) ==> AdmittedCalls(trace, calls, i + 1, at + [i])
    ensures !Admissible(trace[i], calls[i]) ==> AdmittedCalls(trace, calls, i + 1, at)
    ensures forall k :: 0 <= k < |at| ==> at[k] < i
  {
    hide Admissible;
  }

  lemma RefusedRecorded(stored: Option<GovernanceHistory>, q: Request)
    requires !Admissible(stored, q)
    ensures AfterCall(stored, q) == stored
  {
  }

  lemma AdmittedRecorded(stored: Option<GovernanceHistory>, calls: seq<Request>, at: seq<nat>, j: nat)
    requires j < |calls| && (forall k :: 0 <= k < |at| ==> at[k] < j) && RecordsAll(stored, calls, at)
    requires Admissible(stored, calls[j])
    ensures RecordsAll(AfterCall(stored, calls[j]), calls, at + [j])
  {
    hide Records, Admissible;
    if stored == None {
      FirstAdmitted(calls[j]);
      FirstCall(calls[j]);
      assert [] + [j] == [j];
    } else {
      var h := stored.value;
      LaterAdmitted(h, calls[j]);
      LaterCall(h, calls[j]);
      hide AfterCall;
      var next := AfterCall(stored, calls[j]).value;
      assert forall k :: 0 <= k < |at| ==> next.entries[k] == next.entries[..|at|][k];
    }
  }

  lemma FirstAdmitted(q: Request)
    ensures Admissible(None, q) <==> AfterCall(None, q).Some?
  {
  }

  lemma LaterAdmitted(h: GovernanceHistory, q: Request)
    ensures Admissible(Some(h), q) <==> AfterCall(Some(h), q) != Some(h)
  {
    hide Follows;
    if Admissible(Some(h), q) {
      assert |AfterCall(Some(h), q).value.entries| == |h.entries| + 1;
    }
  }

  /** Over a run that starts without a history: source names stay the same unless the first admitted call aligned sources. */
  lemma NamesStay(trace: seq<Option<GovernanceHistory>>, calls: seq<Request>, i: nat, j: nat)
    requires IsRun(trace, calls) && i < j <= |calls| && trace[i] == None && trace[i + 1] != None
    ensures trace[j] != None
    ensures forall k, l :: 0 <= k <= l < |trace[j].value.entries| ==>
      && (calls[i].alignSource == Some(true) || SnapshotOf(trace[j].value.entries[k]).sourceName == SnapshotOf(trace[j].value.entries[l]).sourceName)
      && (calls[i].alignDatabase == Some(true) || SnapshotOf(trace[j].value.entries[k]).databaseName == SnapshotOf(trace[j].value.entries[l]).databaseName)
  {
    hide Comparable, Chained, Admissible;
    PolicyStays(trace, calls, i, j);
    RunGrows(trace, calls, i + 1, j);
    var h := trace[j].value;
    forall k, l | 0 <= k <= l < |h.entries| ensures Alike(h.policy, SnapshotOf(h.entries[k]), SnapshotOf(h.entries[l])) {
      ChainAlike(h, k, l);
    }
  }

  lemma PolicyStays(trace: seq<Option<GovernanceHistory>>, calls: seq<Request>, i: nat, j: nat)
    requires IsRun(trace, calls) && i < j <= |calls| && trace[i] == None && trace[i + 1] != None
    ensures trace[j] != None && trace[j].value.entries != []
    ensures trace[j].value.policy.alignSourceRoots <==> calls[i].alignSource == Some(true)
    ensures trace[j].value.policy.alignDatabaseRoots <==> calls[i].alignDatabase == Some(true)
  {
    hide Records, Chained, Admissible;
    assert trace[i + 1] == AfterCall(trace[i], calls[i]);
    FirstCall(calls[i]);
    RunGrows(trace, calls, i + 1, j);
  }

  /** The two entries stand for different states: another snapshot, other labels or another context. */
  predicate StatesDiffer(e: HistoryEntry, f: HistoryEntry) {
    e.state.snapshot != f.state.snapshot || e.state.labels != f.state.labels
    || e.state.context.observations != f.state.context.observations || e.state.context.authority != f.state.context.authority
  }

  /** A flag repeats what the first call said, or is not given. */
  predicate Repeats(flag: Option<bool>, first: Option<bool>) {
    flag == None || flag == Some(first == Some(true))
  }

  /**
   When a later call is admitted: it can be read, repeats the flags, and its snapshot compares with
   the last one, where a root may have another name only if the first call aligned it.
   */
  lemma AdmittedExactly(trace: seq<Option<GovernanceHistory>>, calls: seq<Request>, i: nat, j: nat, q: Request, e: HistoryEntry)
    requires IsRun(trace, calls) && i < j <= |calls| && trace[i] == None && trace[i + 1] != None
    requires Readable(q) && Records(e, q)
    ensures trace[j] != None && trace[j].value.entries != []
    ensures var entries := trace[j].value.entries;
      var last, next := SnapshotOf(entries[|entries| - 1]), SnapshotOf(e);
      Admissible(trace[j], q) <==>
        && Repeats(q.alignSource, calls[i].alignSource) && Repeats(q.alignDatabase, calls[i].alignDatabase)
        && Projectable(last) && Projectable(next)
        && last.systemType == next.systemType && last.scanner == next.scanner
        && (calls[i].alignSource == Some(true) || last.sourceName == next.sourceName)
        && (calls[i].alignDatabase == Some(true) || last.databaseName == next.databaseName)
        && StatesDiffer(entries[|entries| - 1], e)
  {
    hide IsRun, Projectable;
    PolicyStays(trace, calls, i, j);
    ReadableExactly(q);
    assert e == EntryFor(q);
  }
}
