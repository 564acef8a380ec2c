/**
 Drift: every difference of a comparison is classified once, against the rules that select it,
 and the result is summed up.
 */
module Drift {
  import opened Outcomes
  import opened Sorting
  import opened JsonText
  import opened Declarations
  import opened PropertyChecks
  import opened Comparisons
  import opened ComparisonCheck
  import opened Artifacts
  import opened DriftPolicies

  datatype Classification = UnexpectedDrift | ExpectedDifference

  datatype Reason = MatchedPolicyRule | UnmatchedDifference | ExpectationMismatch

  /** One difference: an object of one side, or one property of an object of both. */
  datatype Difference = Difference(entry: ObjectChange, property: Option<PropertyChange>)

  datatype Classified = Classified(difference: Difference, classification: Classification, matchedRuleIds: seq<string>, reason: Reason)

  // ----- the differences of a comparison

  function PropertyDifferences(c: ObjectChange, changes: seq<PropertyChange>): (r: seq<Difference>)
    ensures |r| == |changes| && forall i :: 0 <= i < |r| ==> r[i] == Difference(c, Some(changes[i]))
  {
    if changes == [] then [] else PropertyDifferences(c, changes[..|changes| - 1]) + [Difference(c, Some(changes[|changes| - 1]))]
  }

  function DifferencesOf(c: ObjectChange): seq<Difference> {
    if OneSided(c) then [Difference(c, None)] else PropertyDifferences(c, c.propertyChanges)
  }

  /** All differences, in the order of the comparison. */
  function Differences(changes: seq<ObjectChange>): seq<Difference> {
    if changes == [] then [] else Differences(changes[..|changes| - 1]) + DifferencesOf(changes[|changes| - 1])
  }

  /** The selector a rule must have to match. */
  function SelectorFor(d: Difference): SelectorKey {
    match d.property
    case None => SelectorKey(d.entry.change, Render(d.entry.objectIdentity), None)
    case Some(p) => SelectorKey("changed", Render(d.entry.objectIdentity), Some(p.property))
  }

  // ----- classification of one difference

  function Ids(rules: seq<DriftRule>): (r: seq<string>)
    ensures |r| == |rules| && forall i :: 0 <= i < |r| ==> r[i] == rules[i].id
  {
    if rules == [] then [] else [rules[0].id] + Ids(rules[1..])
  }

  /** The one projection of a group of rules; refused when there are several. */
  function OneProjection(rules: seq<DriftRule>): Option<string>
    requires rules != []
  {
    if |Projections(rules)| != 1 then None else Some(ProjectionOf(rules[0].expected))
  }

  predicate SideMatches(expected: Side, actual: Side) {
    SidesEqual(expected, actual)
  }

  predicate Satisfied(e: Option<Expected>, baseline: Side, candidate: Side) {
    match e
    case None => true
    case Some(x) =>
      if x.baseline.Some? && !SideMatches(x.baseline.value, baseline) then false
      else if x.candidate.Some? then SideMatches(x.candidate.value, candidate)
      else true
  }

  /** Failure stands for a raised error or a failed assertion. */
  function Classify(rules: seq<DriftRule>, d: Difference): Result<Classified> {
    if rules == [] then Success(Classified(d, UnexpectedDrift, [], UnmatchedDifference))
    else match OneProjection(rules)
      case None => Failure
      case Some(projection) =>
        var ids := SortBy(TextKey, Ids(rules));
        if d.property.None? then
          if projection == PRESENCE_ONLY then Success(Classified(d, ExpectedDifference, ids, MatchedPolicyRule)) else Failure
        else if projection == PRESENCE_ONLY || Satisfied(rules[0].expected, d.property.value.baseline, d.property.value.candidate) then
          Success(Classified(d, ExpectedDifference, ids, MatchedPolicyRule))
        else
          Success(Classified(d, UnexpectedDrift, ids, ExpectationMismatch))
  }

  // ----- what a classification says

  predicate Selects(r: DriftRule, d: Difference) {
    SelectorOf(r) == SelectorFor(d)
  }

  /** The values meet what the rule states of them. */
  predicate Meets(e: Option<Expected>, d: Difference) {
    e.Some? && d.property.Some? ==>
      && (e.value.baseline.Some? ==> e.value.baseline.value == d.property.value.baseline)
      && (e.value.candidate.Some? ==> e.value.candidate.value == d.property.value.candidate)
  }

  ghost predicate IdListed(rules: seq<DriftRule>, d: Difference, id: string) {
    exists r :: r in rules && Selects(r, d) && r.id == id
  }

  /** Expected when some rule selects the difference and all such rules are met; the ids of all of them are reported. */
  ghost predicate Judged(rules: seq<DriftRule>, d: Difference, c: Classified) {
    && c.difference == d
    && StrictlyOrdered(TextKey, c.matchedRuleIds) && (forall id :: id in c.matchedRuleIds <==> IdListed(rules, d, id))
    && (c.classification == ExpectedDifference <==>
          (exists r :: r in rules && Selects(r, d)) && forall r :: r in rules && Selects(r, d) ==> Meets(r.expected, d))
    && c.reason == (if c.classification == ExpectedDifference then MatchedPolicyRule
                    else if c.matchedRuleIds == [] then UnmatchedDifference else ExpectationMismatch)
  }

  lemma SatisfiedMeets(e: Option<Expected>, d: Difference)
    requires d.property.Some?
    ensures Satisfied(e, d.property.value.baseline, d.property.value.candidate) <==> Meets(e, d)
    ensures e.None? ==> Meets(e, d)
  {
    hide SidesEqual;
    if e.Some? {
      if e.value.baseline.Some? { SidesEqualSame(e.value.baseline.value, d.property.value.baseline); }
      if e.value.candidate.Some? { SidesEqualSame(e.value.candidate.value, d.property.value.candidate); }
    }
  }

  /** The differences that a comparison can contain: whole objects of one side, properties of both. */
  predicate DifferenceOk(d: Difference) {
    d.property.None? ==> OneSided(d.entry)
  }

  /** The rules that select one difference, in the order of the policy. */
  function RulesFor(rules: seq<DriftRule>, d: Difference): seq<DriftRule> {
    Select(SelectorOf, SelectorFor(d), rules)
  }

  lemma RulesForMembers(rules: seq<DriftRule>, d: Difference)
    ensures forall r :: r in RulesFor(rules, d) <==> r in rules && Selects(r, d)
  {
  }

  lemma {:induction false} SelectedDistinct(rules: seq<DriftRule>, k: SelectorKey)
    requires IdsDistinct(rules)
    ensures IdsDistinct(Select(SelectorOf, k, rules))
  {
    hide SelectorOf;
    if rules != [] {
      var n := |rules| - 1;
      assert rules == rules[..n] + [rules[n]];
      SelectedDistinct(rules[..n], k);
      DistinctAdded(rules[..n], rules[n]);
      DistinctAdded(Select(SelectorOf, k, rules[..n]), rules[n]);
    }
  }

  lemma SortedIds(rules: seq<DriftRule>)
    requires IdsDistinct(rules)
    ensures StrictlyOrdered(TextKey, SortBy(TextKey, Ids(rules)))
    ensures forall id :: id in SortBy(TextKey, Ids(rules)) <==> exists r :: r in rules && r.id == id
  {
    hide SortBy, Insert;
    var ids := Ids(rules);
    assert NoRepeats(ids);
    TextKeyInjective();
    SortByStrict(TextKey, ids);
    SortByOrdered(TextKey, ids);
    forall id ensures id in ids <==> exists r :: r in rules && r.id == id {
      if id in ids {
        var i :| 0 <= i < |ids| && ids[i] == id;
        assert rules[i] in rules;
      }
      if exists r :: r in rules && r.id == id {
        var r :| r in rules && r.id == id;
        var i :| 0 <= i < |rules| && rules[i] == r;
        assert ids[i] == id;
      }
    }
  }

  lemma NoneSelected(rules: seq<DriftRule>, d: Difference)
    requires forall r :: r in rules ==> !Selects(r, d)
    ensures Judged(rules, d, Classified(d, UnexpectedDrift, [], UnmatchedDifference))
  {
    hide Selects;
  }

  /** A rule that selects a whole object states no values. */
  lemma WholeObjectRule(r: DriftRule, d: Difference)
    requires RuleOk(r) && Selects(r, d) && d.property.None? && DifferenceOk(d)
    ensures r.expected.None?
  {
  }

  /** All rules that select one difference expect the same. */
  lemma SelectedAgree(rules: seq<DriftRule>, d: Difference)
    requires PolicyOk(rules)
    ensures forall r, s :: r in RulesFor(rules, d) && s in RulesFor(rules, d) ==> r.expected == s.expected
    ensures RulesFor(rules, d) != [] ==> OneProjection(RulesFor(rules, d)) == Some(ProjectionOf(RulesFor(rules, d)[0].expected))
  {
    hide ProjectionOf, Projections, RuleOk;
    RulesForMembers(rules, d);
    ProjectionsAgree(RulesFor(rules, d));
  }

  lemma PresenceOnly(e: Option<Expected>)
    ensures ProjectionOf(e) == PRESENCE_ONLY <==> e.None?
  {
    if ProjectionOf(e) == PRESENCE_ONLY { ProjectionInjective(e, None); }
  }

  /** One selecting rule speaks for all of them. */
  lemma JudgedByOne(rules: seq<DriftRule>, d: Difference, first: DriftRule, c: Classified)
    requires first in rules && Selects(first, d) && c.difference == d
    requires forall r :: r in rules && Selects(r, d) ==> r.expected == first.expected
    requires StrictlyOrdered(TextKey, c.matchedRuleIds) && forall id :: id in c.matchedRuleIds <==> IdListed(rules, d, id)
    requires c.classification == ExpectedDifference <==> Meets(first.expected, d)
    requires c.reason == if c.classification == ExpectedDifference then MatchedPolicyRule else ExpectationMismatch
    ensures Judged(rules, d, c)
  {
    hide Selects, Meets, StrictlyOrdered;
    assert IdListed(rules, d, first.id);
  }

  /** What the code returns when some rule selects the difference. */
  lemma ClassifyMatched(selected: seq<DriftRule>, d: Difference)
    requires selected != [] && OneProjection(selected) == Some(ProjectionOf(selected[0].expected))
    requires d.property.None? ==> selected[0].expected.None?
    ensures var r := Classify(selected, d);
      && r.Success? && r.value.difference == d && r.value.matchedRuleIds == SortBy(TextKey, Ids(selected))
      && (r.value.classification == ExpectedDifference <==> Meets(selected[0].expected, d))
      && r.value.reason == (if r.value.classification == ExpectedDifference then MatchedPolicyRule else ExpectationMismatch)
  {
    hide SortBy, Ids, OneProjection, ProjectionOf, Satisfied, Meets;
    PresenceOnly(selected[0].expected);
    NoValuesMeet(selected[0].expected, d);
    if d.property.Some? {
      SatisfiedMeets(selected[0].expected, d);
    }
  }

  /** For a normalized policy nothing is raised, no assertion fails, and the classification is the intended one. */
  lemma ClassifySound(rules: seq<DriftRule>, d: Difference)
    requires PolicyOk(rules) && DifferenceOk(d)
    ensures Classify(RulesFor(rules, d), d).Success?
    ensures Judged(rules, d, Classify(RulesFor(rules, d), d).value)
  {
    hide Selects, RulesFor, Classify, Judged, Meets, OneProjection, ProjectionOf, SortBy, DifferenceOk, RuleOk, StrictlyOrdered;
    var selected := RulesFor(rules, d);
    RulesForMembers(rules, d);
    if selected == [] {
      assert forall r :: r in rules ==> !Selects(r, d);
      NoneSelected(rules, d);
      ClassifyNone(d);
      return;
    }
    SelectedAgree(rules, d);
    var first := selected[0];
    assert first in selected;
    if d.property.None? {
      WholeObjectRule(first, d);
    }
    ReportedIds(rules, d);
    ClassifyMatched(selected, d);
    JudgedByOne(rules, d, first, Classify(selected, d).value);
  }

  lemma ClassifyNone(d: Difference)
    ensures Classify([], d) == Success(Classified(d, UnexpectedDrift, [], UnmatchedDifference))
  {
  }

  lemma NoValuesMeet(e: Option<Expected>, d: Difference)
    ensures e.None? || d.property.None? ==> Meets(e, d)
  {
  }

  lemma ReportedIds(rules: seq<DriftRule>, d: Difference)
    requires PolicyOk(rules)
    ensures var ids := SortBy(TextKey, Ids(RulesFor(rules, d)));
      StrictlyOrdered(TextKey, ids) && forall id :: id in ids <==> IdListed(rules, d, id)
  {
    hide Selects, SortBy, Unambiguous, RuleOk;
    var selected := RulesFor(rules, d);
    SelectedDistinct(rules, SelectorFor(d));
    SortedIds(selected);
    RulesForMembers(rules, d);
    forall id ensures (exists r :: r in selected && r.id == id) <==> IdListed(rules, d, id) {
      if exists r :: r in selected && r.id == id {
        var r :| r in selected && r.id == id;
        assert r in rules && Selects(r, d);
      }
      if IdListed(rules, d, id) {
        var r :| r in rules && Selects(r, d) && r.id == id;
        assert r in selected;
      }
    }
  }

  /** The verdict on a difference depends only on which rules there are, not on their order. */
  lemma JudgedUnique(a: seq<DriftRule>, b: seq<DriftRule>, d: Difference, x: Classified, y: Classified)
    requires forall r :: r in a <==> r in b
    requires Judged(a, d, x) && Judged(b, d, y)
    ensures x == y
  {
    hide Selects, Meets;
    forall id ensures IdListed(a, d, id) <==> IdListed(b, d, id) {
      if IdListed(a, d, id) {
        var r :| r in a && Selects(r, d) && r.id == id;
        assert r in b;
      }
      if IdListed(b, d, id) {
        var r :| r in b && Selects(r, d) && r.id == id;
        assert r in a;
      }
    }
    StrictlyOrderedUnique(TextKey, x.matchedRuleIds, y.matchedRuleIds);
  }

  // ----- classification of a whole comparison

  /** The index of a policy gives for each selector its rules, in order. */
  function Found(index: map<SelectorKey, seq<DriftRule>>, k: SelectorKey): seq<DriftRule> {
    if k in index then index[k] else []
  }

  lemma FoundRules(rules: seq<DriftRule>, index: map<SelectorKey, seq<DriftRule>>, d: Difference)
    requires Grouped(SelectorOf, rules, index)
    ensures Found(index, SelectorFor(d)) == RulesFor(rules, d)
  {
    hide SelectorOf, SelectorFor;
    if SelectorFor(d) !in index {
      SelectNothing(SelectorOf, SelectorFor(d), rules);
    }
  }

  /** Unexpected drift first, then by identity, change, property and reason. */
  function ClassifiedKey(c: Classified): SortKey {
    [if c.classification == UnexpectedDrift then "0" else "1",
     Render(c.difference.entry.objectIdentity),
     if c.difference.property.Some? then "2" else RankText(c.difference.entry.change),
     if c.difference.property.Some? then c.difference.property.value.property else "",
     match c.reason
     case MatchedPolicyRule => "matched_policy_rule"
     case UnmatchedDifference => "unmatched_difference"
     case ExpectationMismatch => "expectation_mismatch"]
  }

  function DifferencesIn(classified: seq<Classified>): (r: seq<Difference>)
    ensures |r| == |classified| && forall i :: 0 <= i < |r| ==> r[i] == classified[i].difference
  {
    if classified == [] then [] else [classified[0].difference] + DifferencesIn(classified[1..])
  }

  ghost predicate AllJudged(rules: seq<DriftRule>, classified: seq<Classified>) {
    forall c :: c in classified ==> Judged(rules, c.difference, c)
  }

  /** The differences of the comparison, in its order, each with the verdict of the rules. */
  ghost predicate Finds(rules: seq<DriftRule>, changes: seq<ObjectChange>, found: seq<Classified>) {
    DifferencesIn(found) == Differences(changes) && AllJudged(rules, found)
  }

  /** The list is what was found, sorted. */
  ghost predicate Covers(rules: seq<DriftRule>, changes: seq<ObjectChange>, classified: seq<Classified>) {
    exists found :: Finds(rules, changes, found) && classified == SortBy(ClassifiedKey, found)
  }

  /** Each difference is classified exactly once, by the rules, and the list is in order. */
  lemma CoversAll(rules: seq<DriftRule>, changes: seq<ObjectChange>, classified: seq<Classified>)
    requires Covers(rules, changes, classified)
    ensures multiset(DifferencesIn(classified)) == multiset(Differences(changes))
    ensures AllJudged(rules, classified) && Ordered(ClassifiedKey, classified)
  {
    hide AllJudged, ClassifiedKey, SortBy;
    var found :| Finds(rules, changes, found) && classified == SortBy(ClassifiedKey, found);
    SortDifferences(found);
    SortByOrdered(ClassifiedKey, found);
    SortedJudged(rules, found, classified);
  }

  lemma JudgedSnoc(rules: seq<DriftRule>, classified: seq<Classified>, c: Classified, d: Difference)
    requires AllJudged(rules, classified) && Judged(rules, d, c)
    ensures AllJudged(rules, classified + [c])
    ensures DifferencesIn(classified + [c]) == DifferencesIn(classified) + [d]
  {
    hide StrictlyOrdered, Meets, Selects;
  }

  lemma DifferencesCons(c: Classified, s: seq<Classified>)
    ensures multiset(DifferencesIn([c] + s)) == multiset{c.difference} + multiset(DifferencesIn(s))
  {
    assert DifferencesIn([c] + s) == [c.difference] + DifferencesIn(s);
  }

  lemma {:induction false} InsertDifferences(c: Classified, s: seq<Classified>)
    ensures multiset(DifferencesIn(Insert(ClassifiedKey, c, s))) == multiset{c.difference} + multiset(DifferencesIn(s))
  {
    hide ClassifiedKey, DifferencesIn, KeyLess;
    if s == [] {
      assert [c] + s == [c];
      DifferencesCons(c, s);
    } else if KeyLess(ClassifiedKey(s[0]), ClassifiedKey(c)) {
      assert s == [s[0]] + s[1..];
      InsertDifferences(c, s[1..]);
      DifferencesCons(s[0], Insert(ClassifiedKey, c, s[1..]));
      DifferencesCons(s[0], s[1..]);
    } else {
      DifferencesCons(c, s);
    }
  }

  lemma {:induction false} SortDifferences(s: seq<Classified>)
    ensures multiset(DifferencesIn(SortBy(ClassifiedKey, s))) == multiset(DifferencesIn(s))
  {
    hide ClassifiedKey, Insert;
    if s != [] {
      SortDifferences(s[1..]);
      InsertDifferences(s[0], SortBy(ClassifiedKey, s[1..]));
      assert DifferencesIn(s) == [s[0].difference] + DifferencesIn(s[1..]);
    }
  }

  /** One classification, through the index: what the source asserts and may raise cannot happen. */
  method ClassifyDifference(rules: seq<DriftRule>, index: map<SelectorKey, seq<DriftRule>>, d: Difference) returns (c: Classified)
    requires PolicyOk(rules) && Grouped(SelectorOf, rules, index) && DifferenceOk(d)
    ensures Judged(rules, d, c)
  {
    hide PolicyOk, Grouped, Judged, Classify, SelectorFor, DifferenceOk;
    FoundRules(rules, index, d);
    ClassifySound(rules, d);
    var r := Classify(Found(index, SelectorFor(d)), d);
    assert r.Success?;
    c := r.value;
  }

  method ClassifyProperties(rules: seq<DriftRule>, index: map<SelectorKey, seq<DriftRule>>, entry: ObjectChange, before: seq<Classified>)
    returns (classified: seq<Classified>)
    requires PolicyOk(rules) && Grouped(SelectorOf, rules, index) && AllJudged(rules, before)
    ensures AllJudged(rules, classified)
    ensures DifferencesIn(classified) == DifferencesIn(before) + PropertyDifferences(entry, entry.propertyChanges)
  {
    hide PolicyOk, Grouped, Judged, AllJudged;
    classified := before;
    var changes := entry.propertyChanges;
    for k := 0 to |changes|
      invariant AllJudged(rules, classified)
      invariant DifferencesIn(classified) == DifferencesIn(before) + PropertyDifferences(entry, changes[..k])
    {
      var d := Difference(entry, Some(changes[k]));
      PropertyDifferencesSnoc(entry, changes, k);
      var c := ClassifyDifference(rules, index, d);
      JudgedSnoc(rules, classified, c, d);
      classified := classified + [c];
    }
    assert changes[..|changes|] == changes;
  }

  lemma PropertyDifferencesSnoc(c: ObjectChange, changes: seq<PropertyChange>, k: nat)
    requires k < |changes|
    ensures PropertyDifferences(c, changes[..k + 1]) == PropertyDifferences(c, changes[..k]) + [Difference(c, Some(changes[k]))]
  {
    assert changes[..k + 1][..k] == changes[..k];
  }

  /** The nested loops over the comparison, then one sort. */
  method ClassifyDrift(changes: seq<ObjectChange>, rules: seq<DriftRule>) returns (classified: seq<Classified>)
    requires PolicyOk(rules)
    ensures Covers(rules, changes, classified)
  {
    hide PolicyOk, Judged, AllJudged, ClassifiedKey, SortBy;
    var index := GroupBy(SelectorOf, rules);
    var found: seq<Classified> := [];
    assert AllJudged(rules, found) by { NothingJudged(rules); }
    for k := 0 to |changes|
      invariant AllJudged(rules, found)
      invariant DifferencesIn(found) == Differences(changes[..k])
    {
      var entry := changes[k];
      DifferencesSnoc(changes, k);
      if entry.change == "added" || entry.change == "removed" {
        var d := Difference(entry, None);
        var c := ClassifyDifference(rules, index, d);
        JudgedSnoc(rules, found, c, d);
        found := found + [c];
      } else {
        found := ClassifyProperties(rules, index, entry, found);
      }
    }
    assert changes[..|changes|] == changes;
    classified := SortBy(ClassifiedKey, found);
    assert Finds(rules, changes, found);
  }

  lemma SortedJudged(rules: seq<DriftRule>, a: seq<Classified>, b: seq<Classified>)
    requires AllJudged(rules, a) && forall c :: c in b ==> c in a
    ensures AllJudged(rules, b)
  {
    hide Judged;
  }

  lemma NothingJudged(rules: seq<DriftRule>)
    ensures AllJudged(rules, [])
  {
  }

  lemma DifferencesSnoc(changes: seq<ObjectChange>, k: nat)
    requires k < |changes|
    ensures Differences(changes[..k + 1]) == Differences(changes[..k]) + DifferencesOf(changes[k])
  {
    assert changes[..k + 1][..k] == changes[..k];
  }

  // ----- the result

  datatype DriftSummary = DriftSummary(affectedObjects: int, expectedDifferences: int, propertyDrift: int, unexpectedDrift: int)

  /** The identity of a policy stands for its rules in canonical order. */
  datatype PolicyIdentity = PolicyIdentity(content: seq<DriftRule>)

  datatype DriftResult = DriftResult(classifiedChanges: seq<Classified>, comparisonIdentity: ComparisonIdentity,
    policyIdentity: Option<PolicyIdentity>, status: string, summary: DriftSummary, writesPerformed: int)

  function RuleSortKey(r: DriftRule): SortKey {
    [RankText(r.change), Render(r.objectIdentity), if r.property.Some? then r.property.value else "",
     if r.expected.Some? then Render(ExpectedJson(r.expected.value)) else "", r.id]
  }

  function IdentityOfPolicy(rules: seq<DriftRule>): PolicyIdentity {
    PolicyIdentity(SortBy(RuleSortKey, rules))
  }

  function DeriveStatus(classified: seq<Classified>): string {
    if classified == [] then "no_difference"
    else if exists i :: 0 <= i < |classified| && classified[i].classification == UnexpectedDrift then "unexpected_drift"
    else "expected_difference"
  }

  function ExpectedWeight(c: Classified): int { if c.classification == ExpectedDifference then 1 else 0 }
  function UnexpectedWeight(c: Classified): int { if c.classification == UnexpectedDrift then 1 else 0 }
  function PropertyDriftWeight(c: Classified): int {
    if c.classification == UnexpectedDrift && c.difference.property.Some? then 1 else 0
  }

  function AffectedKeys(classified: seq<Classified>): set<string> {
    set c | c in classified :: Render(c.difference.entry.objectIdentity)
  }

  function SummaryFor(classified: seq<Classified>): DriftSummary {
    DriftSummary(|AffectedKeys(classified)|, Total(ExpectedWeight, classified),
      Total(PropertyDriftWeight, classified), Total(UnexpectedWeight, classified))
  }

  lemma {:induction false} CountsAddUp(classified: seq<Classified>)
    ensures Total(ExpectedWeight, classified) >= 0 && Total(UnexpectedWeight, classified) >= 0
    ensures Total(ExpectedWeight, classified) + Total(UnexpectedWeight, classified) == |classified|
    ensures 0 <= Total(PropertyDriftWeight, classified) <= Total(UnexpectedWeight, classified)
    ensures Total(UnexpectedWeight, classified) > 0 <==> exists i :: 0 <= i < |classified| && classified[i].classification == UnexpectedDrift
  {
    if classified != [] {
      var n := |classified| - 1;
      CountsAddUp(classified[..n]);
      assert forall i :: 0 <= i < n ==> classified[..n][i] == classified[i];
    }
  }

  /** The checks that the result builder makes on its own summary; false stands for a raised error. */
  method StatusInvariants(status: string, classified: seq<Classified>, summary: DriftSummary) returns (ok: bool)
    requires status == DeriveStatus(classified) && summary == SummaryFor(classified)
    ensures ok
  {
    CountsAddUp(classified);
    if summary.expectedDifferences + summary.unexpectedDrift != |classified| {
      return false;
    }
    if status == "expected_difference" && (|classified| == 0 || summary.unexpectedDrift != 0) {
      return false;
    }
    if status == "unexpected_drift" && summary.unexpectedDrift <= 0 {
      return false;
    }
    ok := true;
  }

  /** What a drift result says about its comparison and its policy. */
  ghost predicate IsDriftResult(x: Artifact, policy: Option<seq<DriftRule>>, r: DriftResult) {
    && r.comparisonIdentity == x.contentIdentity && r.writesPerformed == 0
    && r.policyIdentity == (if policy.Some? then Some(IdentityOfPolicy(policy.value)) else None)
    && r.status == DeriveStatus(r.classifiedChanges) && r.summary == SummaryFor(r.classifiedChanges)
    && if x.payload.status == "identical" then r.classifiedChanges == []
       else policy.Some? && Covers(policy.value, x.payload.objectChanges, r.classifiedChanges)
  }

  method BuildDriftResult(x: Artifact, policy: Option<seq<DriftRule>>) returns (r: Result<DriftResult>)
    requires policy.Some? ==> PolicyOk(policy.value)
    ensures r.Success? <==> x.payload.status == "identical" || policy.Some?
    ensures r.Success? ==> IsDriftResult(x, policy, r.value)
  {
    hide PolicyOk, Covers, DeriveStatus, SummaryFor, IdentityOfPolicy;
    var policyIdentity := if policy.Some? then Some(IdentityOfPolicy(policy.value)) else None;
    if x.payload.status == "identical" {
      NoDifference();
      return Success(DriftResult([], x.contentIdentity, policyIdentity, "no_difference", DriftSummary(0, 0, 0, 0), 0));
    }
    if policy.None? {
      return Failure;
    }
    var classified := ClassifyDrift(x.payload.objectChanges, policy.value);
    var status := DeriveStatus(classified);
    var summary := SummaryFor(classified);
    var ok := StatusInvariants(status, classified, summary);
    if !ok {
      return Failure;
    }
    r := Success(DriftResult(classified, x.contentIdentity, policyIdentity, status, summary, 0));
  }

  lemma NoDifference()
    ensures DeriveStatus([]) == "no_difference" && SummaryFor([]) == DriftSummary(0, 0, 0, 0)
  {
  }
}
