/** The persisted conflict lane: what its entries and counts say of the results and assessments behind them. */
module ReportFacts {
  import opened Outcomes
  import opened Sorting
  import opened JsonText
  import opened Pointers
  import opened Graphs
  import opened Observations
  import opened Authority
  import opened Conflicts
  import opened ConflictFacts
  import opened Review

  /** The object has a member of this name and value. */
  predicate Has(j: Json, name: string, value: Json) {
    j.Obj? && Member(name, value) in j.members
  }

  predicate Lacks(j: Json, name: string) {
    j.Obj? && forall m :: m in j.members ==> m.name != name
  }

  // ----- dictionary forms

  /** `j` names the node field by field. */
  ghost predicate NamesNode(j: Json, n: NodeId)
    decreases n
  {
    && Has(j, "namespace", Str(n.namespace)) && Has(j, "kind", Str(n.kind)) && Has(j, "logical_id", Str(n.logicalId))
    && match n.parent
       case None => Has(j, "parent", Null)
       case Some(p) => exists k :: Has(j, "parent", k) && NamesNode(k, p)
  }

  lemma {:induction false} NodeNamed(n: NodeId)
    ensures NamesNode(NodeDict(n), n)
  {
    var m := NodeDict(n).members;
    assert m[0] in m && m[1] in m && m[2] in m && m[3] in m;
    if n.parent.Some? {
      NodeNamed(n.parent.value);
      assert Has(NodeDict(n), "parent", NodeDict(n.parent.value));
    }
  }

  predicate NamesRecord(j: Json, r: Provenance) {
    && Has(j, "provider_type", Str(r.providerType)) && Has(j, "source_ref", Str(r.sourceRef))
    && Has(j, "observation_mode", Str(r.mode))
    && Has(j, "source_version", match r.sourceVersion case None => Null case Some(v) => Str(v))
  }

  lemma RecordNamed(r: Provenance)
    ensures NamesRecord(ProvenanceDict(r), r)
  {
    var m := ProvenanceDict(r).members;
    assert m[0] in m && m[1] in m && m[2] in m && m[3] in m;
  }

  predicate NamesRecords(items: seq<Json>, records: seq<Provenance>) {
    |items| == |records| && forall i :: 0 <= i < |items| ==> NamesRecord(items[i], records[i])
  }

  lemma {:induction false} RecordsNamed(records: seq<Provenance>)
    ensures NamesRecords(ProvenanceDicts(records), records)
  {
    hide NamesRecord, ProvenanceDict;
    if records != [] {
      RecordNamed(records[0]);
      RecordsNamed(records[1..]);
    }
  }

  /** `j` carries the value and all its records. */
  ghost predicate NamesGroup(j: Json, o: Observation) {
    Has(j, "value", o.id.value) && exists items :: Has(j, "provenance", Arr(items)) && NamesRecords(items, o.provenance)
  }

  lemma GroupNamed(o: Observation)
    ensures NamesGroup(GroupDict(o), o)
  {
    hide NamesRecords, ProvenanceDicts;
    RecordsNamed(o.provenance);
    var m := GroupDict(o).members;
    assert m[0] in m && m[1] in m;
  }

  lemma {:induction false} GroupsNamed(groups: seq<Observation>)
    ensures |GroupDicts(groups)| == |groups|
    ensures forall i :: 0 <= i < |groups| ==> NamesGroup(GroupDicts(groups)[i], groups[i])
  {
    hide NamesGroup, GroupDict;
    if groups != [] {
      GroupNamed(groups[0]);
      GroupsNamed(groups[1..]);
    }
  }

  /** The entry names the property and carries its values, its effective value and the rule that decided. */
  lemma EntryNamed(r: ConflictResult)
    ensures var e := ResultDict(r);
      && NamesNode(e.subject, r.subject) && Parse(e.property) == Some(r.path)
      && e.effective == r.effective && (e.winningRule.Some? <==> r.winningRule.Some?)
      && |e.valueGroups| == |r.valueGroups|
      && forall i :: 0 <= i < |r.valueGroups| ==> NamesGroup(e.valueGroups[i], r.valueGroups[i])
  {
    hide NamesNode, NamesGroup, NodeDict, Parse, Print, GroupDicts;
    NodeNamed(r.subject);
    ParsePrinted(r.path);
    GroupsNamed(r.valueGroups);
  }

  predicate NamesTarget(j: Json, t: Target) {
    && Has(j, "provider_type", Str(t.providerType))
    && match t.sourceRef case None => Lacks(j, "source_ref") case Some(r) => Has(j, "source_ref", Str(r))
  }

  predicate NamesSelector(j: Json, s: Selector) {
    && Has(j, "kind", Str(s.kind)) && Has(j, "property", Str(Print(s.path)))
    && match s.namespace case None => Lacks(j, "namespace") case Some(n) => Has(j, "namespace", Str(n))
  }

  lemma TargetNamed(t: Target)
    ensures NamesTarget(TargetJson(t), t)
  {
    var m := TargetJson(t).members;
    assert m[0] in m;
    if t.sourceRef.Some? { assert m[1] in m; }
  }

  lemma SelectorNamed(s: Selector)
    ensures NamesSelector(SelectorJson(s), s)
  {
    hide Print;
    var m := SelectorJson(s).members;
    assert m[0] in m && m[1] in m && m[|m| - 1] in m;
  }

  /** The winning rule of an entry names its target and its selector. */
  lemma WinnerNamed(r: ConflictResult)
    requires r.winningRule.Some?
    ensures var k, j := r.winningRule.value, ResultDict(r).winningRule.value;
      exists a, s :: Has(j, "authority", a) && NamesTarget(a, k.authority) && Has(j, "select", s) && NamesSelector(s, k.selector)
  {
    hide NamesTarget, NamesSelector, TargetJson, SelectorJson;
    var k := r.winningRule.value;
    TargetNamed(k.authority);
    SelectorNamed(k.selector);
    var m := RuleKeyJson(k).members;
    assert m[0] in m && m[1] in m;
  }

  // ----- what the texts of an entry mean

  /** The state of an entry, by the values and rules behind it. */
  lemma StatesExactly(observations: seq<Observation>, rules: seq<Rule>, r: ConflictResult)
    requires IsResult(observations, rules, r)
    ensures var e := ResultDict(r);
      && (e.state == "SINGLE_OBSERVATION" <==> |r.valueGroups| == 1 && |r.valueGroups[0].provenance| == 1)
      && (e.state == "AGREEMENT" <==> |r.valueGroups| == 1 && |r.valueGroups[0].provenance| != 1)
      && (e.state == "RESOLVED_BY_AUTHORITY" <==> |r.valueGroups| != 1 && r.effective.Some?)
      && (e.state == "INVALID_OR_AMBIGUOUS_AUTHORITY" <==> |r.valueGroups| != 1 && Tied(rules, r.subject, r.path))
      && (e.state == "UNRESOLVED_CONFLICT" <==> |r.valueGroups| != 1 && r.effective.None? && !Tied(rules, r.subject, r.path))
  {
    TiedMatches(rules, r.subject, r.path);
    hide GroupsOf, Tied, IsTop, AnyMatches, AnyBacked, OnlyBacked, NodeDict, Print, GroupDicts, RuleKeyJson;
  }

  lemma TiedMatches(rules: seq<Rule>, subject: NodeId, path: PropertyPath)
    ensures Tied(rules, subject, path) ==> AnyMatches(rules, subject, path)
  {
    hide IsTop;
    if k :| IsTop(rules, subject, path, k) {
      TopMatches(rules, subject, path, k);
    }
  }

  predicate TwoAuthoritative(groups: seq<Observation>, k: RuleKey, o: Observation, p: Observation) {
    o in groups && p in groups && o != p && Authoritative(k, o) && Authoritative(k, p)
  }

  /** The reason of an unresolved entry. */
  lemma ReasonsExactly(observations: seq<Observation>, rules: seq<Rule>, r: ConflictResult)
    requires IsResult(observations, rules, r)
    ensures ResultDict(r).reason == "NO_AUTHORITY_RULE" <==>
      |r.valueGroups| != 1 && forall k :: !Decides(rules, r.subject, r.path, k)
    ensures ResultDict(r).reason == "AUTHORITATIVE_SOURCE_NOT_OBSERVED" ==>
      r.winningRule.Some? && forall o :: o in r.valueGroups ==> !Authoritative(r.winningRule.value, o)
    ensures ResultDict(r).reason == "AUTHORITATIVE_SOURCE_CONFLICTED" ==>
      r.winningRule.Some? && exists o, p :: TwoAuthoritative(r.valueGroups, r.winningRule.value, o, p)
    ensures ResultDict(r).state != "UNRESOLVED_CONFLICT" ==> ResultDict(r).reason == ResultDict(r).state
    ensures ResultDict(r).state == "UNRESOLVED_CONFLICT" ==>
      ResultDict(r).reason in {"NO_AUTHORITY_RULE", "AUTHORITATIVE_SOURCE_NOT_OBSERVED", "AUTHORITATIVE_SOURCE_CONFLICTED"}
  {
    hide GroupsOf, Tied, IsTop, AnyBacked, OnlyBacked, Decides, Authoritative, NodeDict, Print, GroupDicts, RuleKeyJson;
    ReasonTextsApart();
    if |r.valueGroups| != 1 {
      UndecidedExactly(observations, rules, r);
      if r.reason == AuthoritativeSourceNotObserved || r.reason == AuthoritativeSourceConflicted {
        WinnerDecides(observations, rules, r);
        DecidedExactly(observations, rules, r, r.winningRule.value);
        if r.reason == AuthoritativeSourceConflicted {
          var o, p :| o in r.valueGroups && p in r.valueGroups && o != p
            && Authoritative(r.winningRule.value, o) && Authoritative(r.winningRule.value, p);
          assert TwoAuthoritative(r.valueGroups, r.winningRule.value, o, p);
        }
      }
    }
  }

  lemma ReasonTextsApart()
    ensures forall a: Conflicts.Reason, b: Conflicts.Reason :: ReasonText(a) == ReasonText(b) ==> a == b
  {
  }

  lemma WinnerDecides(observations: seq<Observation>, rules: seq<Rule>, r: ConflictResult)
    requires IsResult(observations, rules, r) && |r.valueGroups| != 1
    requires r.reason == AuthoritativeSourceNotObserved || r.reason == AuthoritativeSourceConflicted
    ensures r.winningRule.Some? && forall l :: Decides(rules, r.subject, r.path, l) <==> l == r.winningRule.value
  {
    hide GroupsOf, IsTop, AnyBacked, OnlyBacked, Decides;
    var k :| IsTop(rules, r.subject, r.path, k) && Decided(r.valueGroups, k, r);
    forall l ensures Decides(rules, r.subject, r.path, l) <==> l == k {
      DecidesTop(rules, r.subject, r.path, l);
    }
  }

  // ----- counts and status

  ghost function EntriesIn(results: seq<ReportEntry>, state: string): set<int> {
    set i | 0 <= i < |results| && results[i].state == state
  }

  lemma {:induction false} StatesCounted(results: seq<ReportEntry>, state: string)
    ensures StateCount(results, state) == |EntriesIn(results, state)|
  {
    if results == [] {
      assert EntriesIn(results, state) == {};
    } else {
      var n := |results| - 1;
      StatesCounted(results[..n], state);
      assert EntriesIn(results, state) == EntriesIn(results[..n], state) + if results[n].state == state then {n} else {};
    }
  }

  predicate IsSafe(e: AssessmentEntry) { e.applicable && e.safe }
  predicate IsBlocked(e: AssessmentEntry) { e.applicable && !e.safe }
  predicate IsNotApplicable(e: AssessmentEntry) { !e.applicable }

  lemma {:induction false} VerdictTotal(assessments: seq<AssessmentEntry>, v: Verdict, weight: AssessmentEntry -> int)
    requires forall e :: weight(e) == if VerdictOf(e.applicable, e.safe) == v then 1 else 0
    ensures VerdictCount(assessments, v) == Total(weight, assessments)
  {
    if assessments != [] { VerdictTotal(assessments[..|assessments| - 1], v, weight); }
  }

  lemma VerdictsCounted(assessments: seq<AssessmentEntry>)
    ensures VerdictCount(assessments, Safe) == |Where(assessments, IsSafe)|
    ensures VerdictCount(assessments, Blocked) == |Where(assessments, IsBlocked)|
    ensures VerdictCount(assessments, NotApplicable) == |Where(assessments, IsNotApplicable)|
  {
    var safe := (e: AssessmentEntry) => if IsSafe(e) then 1 else 0;
    var blocked := (e: AssessmentEntry) => if IsBlocked(e) then 1 else 0;
    var idle := (e: AssessmentEntry) => if IsNotApplicable(e) then 1 else 0;
    VerdictTotal(assessments, Safe, safe);
    VerdictTotal(assessments, Blocked, blocked);
    VerdictTotal(assessments, NotApplicable, idle);
    CountIndices(assessments, safe, IsSafe);
    CountIndices(assessments, blocked, IsBlocked);
    CountIndices(assessments, idle, IsNotApplicable);
  }

  /** The counts of a conflict lane are numbers of entries with each state and of assessments with each verdict. */
  lemma LaneCounted(results: seq<ConflictResult>, assessments: seq<Assessment>, o: Label, a: Label, b: ConflictsBlock)
    requires IsConflictsBlock(results, assessments, o, a, b)
    ensures var entries := b.report.value.results;
      && b.summary.propertiesAnalyzed == |results|
      && b.summary.single == |EntriesIn(entries, "SINGLE_OBSERVATION")| && b.summary.agreement == |EntriesIn(entries, "AGREEMENT")|
      && b.summary.resolved == |EntriesIn(entries, "RESOLVED_BY_AUTHORITY")|
      && b.summary.unresolved == |EntriesIn(entries, "UNRESOLVED_CONFLICT")|
      && b.summary.ambiguous == |EntriesIn(entries, "INVALID_OR_AMBIGUOUS_AUTHORITY")|
      && b.summary.safe == |Where(b.assessments, IsSafe)| && b.summary.blocked == |Where(b.assessments, IsBlocked)|
      && b.summary.notApplicable == |Where(b.assessments, IsNotApplicable)|
  {
    hide ResultDict, AssessmentDict, EntriesIn, Where;
    var entries := b.report.value.results;
    StatesCounted(entries, "SINGLE_OBSERVATION");
    StatesCounted(entries, "AGREEMENT");
    StatesCounted(entries, "RESOLVED_BY_AUTHORITY");
    StatesCounted(entries, "UNRESOLVED_CONFLICT");
    StatesCounted(entries, "INVALID_OR_AMBIGUOUS_AUTHORITY");
    VerdictsCounted(b.assessments);
  }

  /** A conflict that no value settles. */
  predicate IsOpen(s: State) { s == UnresolvedConflict || s == InvalidOrAmbiguousAuthority }

  /** The status of a conflict lane: blocked by an applicable unsafe assessment, else findings on open conflicts, else clear. */
  lemma LaneStatusExactly(results: seq<ConflictResult>, assessments: seq<Assessment>, o: Label, a: Label, b: ConflictsBlock)
    requires IsConflictsBlock(results, assessments, o, a, b)
    ensures b.status == "blocked" <==> exists i :: 0 <= i < |assessments| && assessments[i].applicable && !assessments[i].safe
    ensures b.status == "findings" <==> b.status != "blocked" && exists i :: 0 <= i < |results| && IsOpen(results[i].state)
    ensures b.status == "clear" <==> b.status != "blocked" && b.status != "findings"
  {
    hide ResultDict, AssessmentDict, ReportDictOf, EntriesIn, Where, Counted, IsOpen;
    LaneCounted(results, assessments, o, a, b);
    BlockedConflicts(results, assessments, o, a, b);
    SomeAssessed(assessments);
    ReportEntries(results, b.report.value.results);
    OpenConflicts(results, b.report.value.results);
  }

  lemma SomeAssessed(assessments: seq<Assessment>)
    ensures (exists e :: e in assessments && e.applicable && !e.safe) <==>
      exists i :: 0 <= i < |assessments| && assessments[i].applicable && !assessments[i].safe
  {
    if e :| e in assessments && e.applicable && !e.safe {
      var i :| 0 <= i < |assessments| && assessments[i] == e;
    }
  }

  lemma ReportEntries(results: seq<ConflictResult>, entries: seq<ReportEntry>)
    requires entries == ReportDictOf(results).results
    ensures |entries| == |results| && forall i :: 0 <= i < |entries| ==> entries[i].state == StateText(results[i].state)
  {
    hide StateText, NodeDict, Print, GroupDicts, ReasonText, RuleKeyJson;
  }

  lemma OpenConflicts(results: seq<ConflictResult>, entries: seq<ReportEntry>)
    requires |entries| == |results| && forall i :: 0 <= i < |entries| ==> entries[i].state == StateText(results[i].state)
    ensures |EntriesIn(entries, "UNRESOLVED_CONFLICT")| + |EntriesIn(entries, "INVALID_OR_AMBIGUOUS_AUTHORITY")| > 0 <==>
      exists i :: 0 <= i < |results| && IsOpen(results[i].state)
  {
    hide StateText;
    var u, v := EntriesIn(entries, "UNRESOLVED_CONFLICT"), EntriesIn(entries, "INVALID_OR_AMBIGUOUS_AUTHORITY");
    forall i | 0 <= i < |results| ensures i in u || i in v <==> IsOpen(results[i].state) {
      StateTextsApart(results[i].state);
    }
    if |u| > 0 { var i :| i in u; }
    if |v| > 0 { var i :| i in v; }
  }

  lemma StateTextsApart(s: State)
    ensures StateText(s) == "UNRESOLVED_CONFLICT" <==> s == UnresolvedConflict
    ensures StateText(s) == "INVALID_OR_AMBIGUOUS_AUTHORITY" <==> s == InvalidOrAmbiguousAuthority
  {
  }

  /** Each assessment of the lane is that of the result at its place. */
  lemma AssessmentsNamed(results: seq<ConflictResult>, assessments: seq<Assessment>, o: Label, a: Label, b: ConflictsBlock, i: nat)
    requires IsConflictsBlock(results, assessments, o, a, b) && i < |results|
    ensures |b.report.value.results| == |b.assessments| == |results|
    ensures b.report.value.results[i] == ResultDict(results[i])
    ensures var e := b.assessments[i];
      && NamesNode(e.subject, results[i].subject) && Parse(e.property) == Some(results[i].path)
      && e.applicable == assessments[i].applicable && e.safe == assessments[i].safe && e.reason == assessments[i].reason
  {
    hide NamesNode, NodeDict, Parse, Print, Counted, ResultDict;
    NodeNamed(results[i].subject);
    ParsePrinted(results[i].path);
  }
}
