/**
 Conflict analysis: for each property of each object, whether the observed values agree, and if not
 whether the most specific authority rule settles on one of them.
 */
module Conflicts {
  import opened Outcomes
  import opened Sorting
  import opened JsonText
  import opened JsonOrder
  import opened Pointers
  import opened Graphs
  import opened Observations
  import opened Authority

  datatype State = SingleObservation | Agreement | ResolvedByAuthority | UnresolvedConflict | InvalidOrAmbiguousAuthority

  datatype Reason =
    | OneObserved | AllAgree | AuthorityResolved | NoAuthorityRule
    | AuthoritativeSourceNotObserved | AuthoritativeSourceConflicted | AmbiguousAuthority

  datatype ConflictResult = ConflictResult(subject: NodeId, path: PropertyPath, state: State, reason: Reason,
    valueGroups: seq<Observation>, effective: Option<Json>, winningRule: Option<RuleKey>)

  function ValueKey(o: Observation): SortKey { [Render(o.id.value)] }

  /** The canonical bytes of the object, then the pointer of the property. */
  function SubjectKey(subject: NodeId, path: PropertyPath): SortKey {
    [Render(NodeJson(subject)), Print(path)]
  }

  function ObservationSubject(o: Observation): SortKey { SubjectKey(o.id.subject, o.id.path) }

  function ResultKey(r: ConflictResult): SortKey { SubjectKey(r.subject, r.path) }

  lemma SubjectKeyInjective(a: NodeId, p: PropertyPath, b: NodeId, q: PropertyPath)
    requires SubjectKey(a, p) == SubjectKey(b, q)
    ensures a == b && p == q
  {
    hide Render, Print;
    assert SubjectKey(a, p)[0] == SubjectKey(b, q)[0] && SubjectKey(a, p)[1] == SubjectKey(b, q)[1];
    RenderInjective(NodeJson(a), NodeJson(b));
    NodeJsonInjective(a, b);
    PrintInjective(p, q);
  }

  predicate About(o: Observation, subject: NodeId, path: PropertyPath) {
    o.id.subject == subject && o.id.path == path
  }

  // ----- what a result says

  /** Some record behind the value comes from the authority of `k`. */
  predicate Backed(k: RuleKey, o: Observation) {
    exists i :: 0 <= i < |o.provenance| && k.authority.Matches(o.provenance[i])
  }

  /** `o` is the one value group that `k` backs. */
  ghost predicate OnlyBacked(groups: seq<Observation>, k: RuleKey, o: Observation) {
    o in groups && Backed(k, o) && forall p :: p in groups && Backed(k, p) ==> p == o
  }

  ghost predicate AnyBacked(groups: seq<Observation>, k: RuleKey) {
    exists o :: o in groups && Backed(k, o)
  }

  ghost predicate AnyMatches(rules: seq<Rule>, subject: NodeId, path: PropertyPath) {
    exists r :: r in rules && r.key.selector.Matches(subject, path)
  }

  ghost predicate Tied(rules: seq<Rule>, subject: NodeId, path: PropertyPath) {
    exists k, l :: IsTop(rules, subject, path, k) && IsTop(rules, subject, path, l) && k != l
  }

  /** The verdict when rule `k` alone is the most specific. */
  ghost predicate Decided(groups: seq<Observation>, k: RuleKey, r: ConflictResult) {
    && r.winningRule == Some(k)
    && if !AnyBacked(groups, k) then
         r.state == UnresolvedConflict && r.reason == AuthoritativeSourceNotObserved && r.effective == None
       else if exists o :: OnlyBacked(groups, k, o) then
         && r.state == ResolvedByAuthority && r.reason == AuthorityResolved
         && exists o :: OnlyBacked(groups, k, o) && r.effective == Some(o.id.value)
       else
         r.state == UnresolvedConflict && r.reason == AuthoritativeSourceConflicted && r.effective == None
  }

  ghost predicate Judged(rules: seq<Rule>, r: ConflictResult) {
    var groups := r.valueGroups;
    if |groups| == 1 then
      && r.effective == Some(groups[0].id.value) && r.winningRule == None
      && (if |groups[0].provenance| == 1 then r.state == SingleObservation && r.reason == OneObserved
          else r.state == Agreement && r.reason == AllAgree)
    else if !AnyMatches(rules, r.subject, r.path) then
      r.state == UnresolvedConflict && r.reason == NoAuthorityRule && r.effective == None && r.winningRule == None
    else if Tied(rules, r.subject, r.path) then
      r.state == InvalidOrAmbiguousAuthority && r.reason == AmbiguousAuthority && r.effective == None && r.winningRule == None
    else
      exists k :: IsTop(rules, r.subject, r.path, k) && Decided(groups, k, r)
  }

  /** The value groups of a result are exactly the observations of its property, in order of their values. */
  ghost predicate GroupsOf(observations: seq<Observation>, r: ConflictResult) {
    && r.valueGroups != [] && StrictlyOrdered(ValueKey, r.valueGroups)
    && forall o :: o in r.valueGroups <==> o in observations && About(o, r.subject, r.path)
  }

  ghost predicate IsResult(observations: seq<Observation>, rules: seq<Rule>, r: ConflictResult) {
    GroupsOf(observations, r) && Judged(rules, r)
  }

  ghost predicate HasResult(results: seq<ConflictResult>, subject: NodeId, path: PropertyPath) {
    exists r :: r in results && r.subject == subject && r.path == path
  }

  /** One result for each observed property, in canonical order. */
  ghost predicate IsReport(observations: seq<Observation>, rules: seq<Rule>, results: seq<ConflictResult>) {
    && StrictlyOrdered(ResultKey, results)
    && (forall o :: o in observations ==> HasResult(results, o.id.subject, o.id.path))
    && (forall r :: r in results ==> IsResult(observations, rules, r))
  }

  // ----- the analysis of one group

  function MaxRank(rules: seq<Rule>): (m: nat)
    requires rules != []
    ensures exists r :: r in rules && r.key.selector.Rank() == m
    ensures forall r :: r in rules ==> r.key.selector.Rank() <= m
  {
    if |rules| == 1 then rules[0].key.selector.Rank()
    else
      var rest := MaxRank(rules[1..]);
      if rules[0].key.selector.Rank() > rest then rules[0].key.selector.Rank() else rest
  }

  function OfRank(rules: seq<Rule>, rank: nat): (w: seq<Rule>)
    ensures forall r :: r in w <==> r in rules && r.key.selector.Rank() == rank
  {
    if rules == [] then []
    else (if rules[0].key.selector.Rank() == rank then [rules[0]] else []) + OfRank(rules[1..], rank)
  }

  /** The keys of the most specific matching rules are the top keys. */
  lemma WinnersAreTop(rules: seq<Rule>, subject: NodeId, path: PropertyPath)
    requires MatchingRules(rules, subject, path) != []
    ensures var matching := MatchingRules(rules, subject, path);
      var winners := OfRank(matching, MaxRank(matching));
      winners != [] && forall k :: HasRule(winners, k) <==> IsTop(rules, subject, path, k)
  {
  }

  method DistinctKeys(winners: seq<Rule>) returns (keys: set<RuleKey>)
    ensures forall k :: k in keys <==> HasRule(winners, k)
  {
    keys := {};
    for i := 0 to |winners|
      invariant forall k :: k in keys <==> HasRule(winners[..i], k)
    {
      TakeSnoc(winners, i);
      assert winners[i] in winners[..i + 1];
      forall k ensures HasRule(winners[..i + 1], k) <==> k == winners[i].key || HasRule(winners[..i], k) {
        if HasRule(winners[..i], k) {
          var r :| r in winners[..i] && r.key == k;
          assert r in winners[..i + 1];
        }
      }
      keys := keys + {winners[i].key};
    }
    assert winners[..|winners|] == winners;
  }

  /** The value groups that the winning rule backs, in order. */
  method AuthorizedValues(groups: seq<Observation>, k: RuleKey) returns (authorized: seq<Observation>)
    requires NoRepeats(groups)
    ensures forall o :: o in authorized <==> o in groups && Backed(k, o)
    ensures NoRepeats(authorized)
  {
    hide Backed;
    authorized := [];
    for i := 0 to |groups|
      invariant forall o :: o in authorized <==> o in groups[..i] && Backed(k, o)
      invariant NoRepeats(authorized)
    {
      TakeSnoc(groups, i);
      if Backed(k, groups[i]) {
        assert groups[i] !in groups[..i];
        authorized := authorized + [groups[i]];
      }
    }
    assert groups[..|groups|] == groups;
  }

  lemma AuthorizedDecides(groups: seq<Observation>, k: RuleKey, authorized: seq<Observation>)
    requires NoRepeats(authorized) && forall o :: o in authorized <==> o in groups && Backed(k, o)
    ensures |authorized| == 0 <==> !AnyBacked(groups, k)
    ensures |authorized| == 1 ==> OnlyBacked(groups, k, authorized[0])
    ensures |authorized| > 1 ==> forall o :: !OnlyBacked(groups, k, o)
  {
    hide Backed;
    if |authorized| > 0 {
      assert authorized[0] in authorized;
      if |authorized| > 1 {
        assert authorized[1] in authorized && authorized[0] != authorized[1];
      }
    }
  }

  /** The verdict of the one most specific rule: none, one or several of the values are backed. */
  method Decide(groups: seq<Observation>, subject: NodeId, path: PropertyPath, k: RuleKey) returns (r: ConflictResult)
    requires NoRepeats(groups)
    ensures r.subject == subject && r.path == path && r.valueGroups == groups && Decided(groups, k, r)
  {
    hide Backed, OnlyBacked;
    var authorized := AuthorizedValues(groups, k);
    AuthorizedDecides(groups, k, authorized);
    if |authorized| == 0 {
      r := ConflictResult(subject, path, UnresolvedConflict, AuthoritativeSourceNotObserved, groups, None, Some(k));
    } else if |authorized| == 1 {
      r := ConflictResult(subject, path, ResolvedByAuthority, AuthorityResolved, groups, Some(authorized[0].id.value), Some(k));
    } else {
      r := ConflictResult(subject, path, UnresolvedConflict, AuthoritativeSourceConflicted, groups, None, Some(k));
    }
  }

  lemma DecidedIsJudged(rules: seq<Rule>, r: ConflictResult, k: RuleKey)
    requires |r.valueGroups| != 1 && AnyMatches(rules, r.subject, r.path) && !Tied(rules, r.subject, r.path)
    requires IsTop(rules, r.subject, r.path, k) && Decided(r.valueGroups, k, r)
    ensures Judged(rules, r)
  {
    hide IsTop, Decided, Tied, AnyMatches;
  }

  /** Several values: the most specific matching rule decides, unless there is none or several. */
  method Arbitrate(groups: seq<Observation>, subject: NodeId, path: PropertyPath, rules: seq<Rule>) returns (r: ConflictResult)
    requires NoRepeats(groups) && |groups| != 1
    ensures r.subject == subject && r.path == path && r.valueGroups == groups && Judged(rules, r)
  {
    hide Decided, IsTop, HasRule;
    var matching := MatchingRules(rules, subject, path);
    if |matching| == 0 {
      return ConflictResult(subject, path, UnresolvedConflict, NoAuthorityRule, groups, None, None);
    }
    assert matching[0] in matching;
    assert AnyMatches(rules, subject, path);
    WinnersAreTop(rules, subject, path);
    var maxRank := MaxRank(matching);
    var winners := OfRank(matching, maxRank);
    var keys := DistinctKeys(winners);
    assert forall k :: k in keys <==> IsTop(rules, subject, path, k);
    if |keys| > 1 {
      TwoMembers(keys);
      return ConflictResult(subject, path, InvalidOrAmbiguousAuthority, AmbiguousAuthority, groups, None, None);
    }
    assert !Tied(rules, subject, path) by {
      forall a, b | IsTop(rules, subject, path, a) && IsTop(rules, subject, path, b) ensures a == b {
        OneKey(keys, a, b);
      }
    }
    var k := winners[0].key;
    FirstHasRule(winners);
    r := Decide(groups, subject, path, k);
    DecidedIsJudged(rules, r, k);
  }

  lemma FirstHasRule(rules: seq<Rule>)
    requires rules != []
    ensures HasRule(rules, rules[0].key)
  {
  }

  method AnalyzeGroup(group: seq<Observation>, rules: seq<Rule>) returns (r: ConflictResult)
    requires group != [] && forall o :: o in group ==> About(o, group[0].id.subject, group[0].id.path)
    requires forall o, p :: o in group && p in group && o.id == p.id ==> o == p
    requires NoRepeats(group)
    ensures r.subject == group[0].id.subject && r.path == group[0].id.path
    ensures IsResult(group, rules, r)
  {
    hide ValueKey, StrictlyOrdered, AnyMatches, Tied, IsTop, Decided, SortBy;
    var subject, path := group[0].id.subject, group[0].id.path;
    var groups := SortBy(ValueKey, group);
    ValueGroups(group);
    if |groups| == 1 {
      var o := groups[0];
      if |o.provenance| == 1 {
        return ConflictResult(subject, path, SingleObservation, OneObserved, groups, Some(o.id.value), None);
      }
      return ConflictResult(subject, path, Agreement, AllAgree, groups, Some(o.id.value), None);
    }
    r := Arbitrate(groups, subject, path, rules);
  }

  lemma TwoMembers(keys: set<RuleKey>)
    requires |keys| > 1
    ensures exists a, b :: a in keys && b in keys && a != b
  {
    var a :| a in keys;
    assert |keys - {a}| == |keys| - 1;
    var b :| b in keys - {a};
  }

  lemma ValueGroups(group: seq<Observation>)
    requires group != [] && forall o :: o in group ==> About(o, group[0].id.subject, group[0].id.path)
    requires forall o, p :: o in group && p in group && o.id == p.id ==> o == p
    requires NoRepeats(group)
    ensures var groups := SortBy(ValueKey, group);
      StrictlyOrdered(ValueKey, groups) && NoRepeats(groups) && (forall o :: o in groups <==> o in group) && |groups| == |group|
  {
    hide SortBy, Insert, Render;
    forall a, b | a in group && b in group && ValueKey(a) == ValueKey(b) ensures a == b {
      assert ValueKey(a)[0] == ValueKey(b)[0];
      RenderInjective(a.id.value, b.id.value);
      assert About(a, group[0].id.subject, group[0].id.path) && About(b, group[0].id.subject, group[0].id.path);
    }
    SortByStrict(ValueKey, group);
    SortByOrdered(ValueKey, group);
    StrictlyOrderedNoRepeats(ValueKey, SortBy(ValueKey, group));
  }

  // ----- the report

  /** Observations of one set: different ones differ in what was observed. */
  ghost predicate OneForEach(observations: seq<Observation>) {
    forall i, j :: 0 <= i < j < |observations| ==> observations[i].id != observations[j].id
  }

  /** The groups by subject, with the results of those visited so far. */
  ghost predicate Analyzed(observations: seq<Observation>, rules: seq<Rule>, groups: map<SortKey, seq<Observation>>,
    rest: set<SortKey>, results: seq<ConflictResult>)
  {
    && (forall key :: key in groups && key !in rest ==> exists r :: r in results && ResultKey(r) == key)
    && (forall r :: r in results ==> IsResult(observations, rules, r) && ResultKey(r) in groups && ResultKey(r) !in rest)
    && (forall i, j :: 0 <= i < j < |results| ==> ResultKey(results[i]) != ResultKey(results[j]))
  }

  lemma AnalyzeStep(observations: seq<Observation>, rules: seq<Rule>, groups: map<SortKey, seq<Observation>>,
    rest: set<SortKey>, results: seq<ConflictResult>, r: ConflictResult)
    requires Analyzed(observations, rules, groups, rest, results)
    requires IsResult(observations, rules, r) && ResultKey(r) in groups && ResultKey(r) in rest
    ensures Analyzed(observations, rules, groups, rest - {ResultKey(r)}, results + [r])
  {
    hide IsResult, ResultKey;
    var next := results + [r];
    assert r in next;
    forall key | key in groups && key !in rest - {ResultKey(r)} ensures exists q :: q in next && ResultKey(q) == key {
      if key != ResultKey(r) {
        var q :| q in results && ResultKey(q) == key;
        assert q in next;
      }
    }
  }

  /** A group of the dictionary holds exactly the observations of one property. */
  lemma GroupFacts(observations: seq<Observation>, groups: map<SortKey, seq<Observation>>, key: SortKey)
    requires Grouped(ObservationSubject, observations, groups) && key in groups && OneForEach(observations)
    ensures var g := groups[key];
      && g != [] && ObservationSubject(g[0]) == key && NoRepeats(g)
      && (forall o :: o in g ==> About(o, g[0].id.subject, g[0].id.path))
      && (forall o :: o in g <==> o in observations && About(o, g[0].id.subject, g[0].id.path))
      && (forall o, p :: o in g && p in g && o.id == p.id ==> o == p)
  {
    hide SubjectKey, Select;
    var g := groups[key];
    assert g[0] in g;
    forall o | o in g ensures About(o, g[0].id.subject, g[0].id.path) {
      assert ObservationSubject(o) == ObservationSubject(g[0]);
      SubjectKeyInjective(o.id.subject, o.id.path, g[0].id.subject, g[0].id.path);
    }
    SelectNoRepeats(observations, key);
  }

  lemma {:induction false} SelectNoRepeats(observations: seq<Observation>, key: SortKey)
    requires OneForEach(observations)
    ensures NoRepeats(Select(ObservationSubject, key, observations))
  {
    hide SubjectKey;
    if observations != [] {
      var n := |observations| - 1;
      SelectNoRepeats(observations[..n], key);
      assert observations[n] !in observations[..n];
      NoRepeatsAdded(Select(ObservationSubject, key, observations[..n]), observations[n]);
    }
  }

  lemma NoRepeatsAdded(s: seq<Observation>, o: Observation)
    requires NoRepeats(s) && o !in s
    ensures NoRepeats(s + [o])
  {
  }

  lemma GroupResult(observations: seq<Observation>, group: seq<Observation>, rules: seq<Rule>, r: ConflictResult)
    requires IsResult(group, rules, r)
    requires forall o :: o in group <==> o in observations && About(o, r.subject, r.path)
    ensures IsResult(observations, rules, r)
  {
    hide Judged, StrictlyOrdered;
  }

  /** Group by subject, analyze each group in any order, sort the results. */
  method AnalyzeConflicts(observations: seq<Observation>, rules: seq<Rule>) returns (results: seq<ConflictResult>)
    requires OneForEach(observations)
    ensures IsReport(observations, rules, results)
  {
    hide Analyzed, IsResult, SubjectKey, About, SortBy, OneForEach;
    var groups := GroupBy(ObservationSubject, observations);
    var rest := groups.Keys;
    results := [];
    assert Analyzed(observations, rules, groups, rest, results) by { NothingAnalyzed(observations, rules, groups); }
    while rest != {}
      invariant rest <= groups.Keys
      invariant Analyzed(observations, rules, groups, rest, results)
    {
      var key :| key in rest;
      GroupFacts(observations, groups, key);
      var r := AnalyzeGroup(groups[key], rules);
      GroupResult(observations, groups[key], rules, r);
      AnalyzeStep(observations, rules, groups, rest, results, r);
      rest := rest - {key};
      results := results + [r];
    }
    ReportDone(observations, rules, groups, results);
    results := SortBy(ResultKey, results);
  }

  lemma NothingAnalyzed(observations: seq<Observation>, rules: seq<Rule>, groups: map<SortKey, seq<Observation>>)
    ensures Analyzed(observations, rules, groups, groups.Keys, [])
  {
  }

  lemma ReportDone(observations: seq<Observation>, rules: seq<Rule>, groups: map<SortKey, seq<Observation>>, results: seq<ConflictResult>)
    requires Grouped(ObservationSubject, observations, groups) && Analyzed(observations, rules, groups, {}, results)
    ensures IsReport(observations, rules, SortBy(ResultKey, results))
  {
    hide IsResult, SubjectKey, SortBy, Insert, Select;
    SortByStrict(ResultKey, results);
    SortByOrdered(ResultKey, results);
    var sorted := SortBy(ResultKey, results);
    forall o | o in observations ensures HasResult(sorted, o.id.subject, o.id.path) {
      var r :| r in results && ResultKey(r) == ObservationSubject(o);
      SubjectKeyInjective(r.subject, r.path, o.id.subject, o.id.path);
      assert r in sorted;
    }
  }

  // ----- what a report guarantees

  lemma OnlyBackedUnique(groups: seq<Observation>, k: RuleKey, o: Observation, p: Observation)
    requires OnlyBacked(groups, k, o) && OnlyBacked(groups, k, p)
    ensures o == p
  {
  }

  /** Two results on the same observations and rules about the same property are equal. */
  lemma ResultUnique(observations: seq<Observation>, rules: seq<Rule>, r: ConflictResult, s: ConflictResult)
    requires IsResult(observations, rules, r) && IsResult(observations, rules, s)
    requires r.subject == s.subject && r.path == s.path
    ensures r == s
  {
    hide ValueKey, IsTop, Backed, OnlyBacked, AnyMatches;
    StrictlyOrderedUnique(ValueKey, r.valueGroups, s.valueGroups);
    var groups := r.valueGroups;
    if |groups| != 1 && AnyMatches(rules, r.subject, r.path) && !Tied(rules, r.subject, r.path) {
      var k :| IsTop(rules, r.subject, r.path, k) && Decided(groups, k, r);
      assert Decided(groups, k, s);
      if exists o :: OnlyBacked(groups, k, o) {
        var o :| OnlyBacked(groups, k, o);
        forall p | OnlyBacked(groups, k, p) ensures p == o { OnlyBackedUnique(groups, k, o, p); }
      }
    }
  }

  /** Observations and rules determine the report. */
  lemma ReportUnique(observations: seq<Observation>, rules: seq<Rule>, x: seq<ConflictResult>, y: seq<ConflictResult>)
    requires IsReport(observations, rules, x) && IsReport(observations, rules, y)
    ensures x == y
  {
    hide SubjectKey, Judged;
    forall r ensures r in x <==> r in y {
      if r in x { ResultReported(observations, rules, x, y, r); }
      if r in y { ResultReported(observations, rules, y, x, r); }
    }
    StrictlyOrderedUnique(ResultKey, x, y);
  }

  lemma ResultReported(observations: seq<Observation>, rules: seq<Rule>, x: seq<ConflictResult>, y: seq<ConflictResult>, r: ConflictResult)
    requires IsReport(observations, rules, x) && IsReport(observations, rules, y) && r in x
    ensures r in y
  {
    hide SubjectKey, Judged, StrictlyOrdered;
    var o := r.valueGroups[0];
    assert o in r.valueGroups;
    assert HasResult(y, o.id.subject, o.id.path);
    var s :| s in y && s.subject == r.subject && s.path == r.path;
    ResultUnique(observations, rules, r, s);
  }

  /** The report is the same for any order and repetition of the observations and of the rules. */
  lemma ReportIgnoresOrder(
      a: seq<Observation>, b: seq<Observation>, x: seq<Observation>, y: seq<Observation>,
      e: seq<Entry>, f: seq<Entry>, rules: seq<Rule>, rules': seq<Rule>,
      report: seq<ConflictResult>, report': seq<ConflictResult>)
    requires (forall o :: o in a <==> o in b) && Normalized(a, x) && Normalized(b, y)
    requires (forall i :: i in e <==> i in f) && RulesOf(e, rules) && RulesOf(f, rules')
    requires IsReport(x, rules, report) && IsReport(y, rules', report')
    ensures report == report'
  {
    hide Normalized, RulesOf, IsReport;
    NormalizedUnique(a, b, x, y);
    RulesUnique(e, f, rules, rules');
    ReportUnique(x, rules, report, report');
  }

  /** One result for each object and property, and none for others. */
  lemma OneResultEach(observations: seq<Observation>, rules: seq<Rule>, results: seq<ConflictResult>, subject: NodeId, path: PropertyPath)
    requires IsReport(observations, rules, results)
    ensures HasResult(results, subject, path) <==> exists o :: o in observations && About(o, subject, path)
    ensures forall i, j :: 0 <= i < j < |results| ==> results[i].subject != results[j].subject || results[i].path != results[j].path
  {
    hide Judged;
    if HasResult(results, subject, path) {
      var r :| r in results && r.subject == subject && r.path == path;
      assert r.valueGroups[0] in r.valueGroups;
    }
    forall i, j | 0 <= i < j < |results|
      ensures results[i].subject != results[j].subject || results[i].path != results[j].path
    {
      KeyLessTotal(ResultKey(results[i]), ResultKey(results[j]));
    }
  }

  /** `k` is the one most specific matching rule. */
  ghost predicate OnlyTop(rules: seq<Rule>, subject: NodeId, path: PropertyPath, k: RuleKey) {
    IsTop(rules, subject, path, k) && forall l :: IsTop(rules, subject, path, l) ==> l == k
  }

  /** The one observation that is the effective one: the only value, or the only value its unique top rule backs. */
  ghost predicate Settles(rules: seq<Rule>, r: ConflictResult, o: Observation) {
    if |r.valueGroups| == 1 then o in r.valueGroups
    else exists k :: OnlyTop(rules, r.subject, r.path, k) && OnlyBacked(r.valueGroups, k, o)
  }

  lemma TopMatches(rules: seq<Rule>, subject: NodeId, path: PropertyPath, k: RuleKey)
    requires IsTop(rules, subject, path, k)
    ensures AnyMatches(rules, subject, path)
  {
    var r :| r in rules && r.key == k;
  }

  /** There is an effective value exactly when one observation settles the property, and it is that observation's value. */
  lemma EffectiveExactly(observations: seq<Observation>, rules: seq<Rule>, r: ConflictResult)
    requires IsResult(observations, rules, r)
    ensures r.effective.Some? <==> exists o :: Settles(rules, r, o)
    ensures forall o :: Settles(rules, r, o) ==> r.effective == Some(o.id.value)
  {
    hide IsTop, Backed, OnlyBacked, AnyMatches, AnyBacked, GroupsOf;
    var groups := r.valueGroups;
    if |groups| == 1 {
      assert Settles(rules, r, groups[0]);
      return;
    }
    forall o | Settles(rules, r, o) ensures r.effective == Some(o.id.value) {
      var k :| OnlyTop(rules, r.subject, r.path, k) && OnlyBacked(groups, k, o);
      TopMatches(rules, r.subject, r.path, k);
      assert AnyBacked(groups, k) by { OnlyIsAny(groups, k, o); }
      forall p | OnlyBacked(groups, k, p) ensures p == o { OnlyBackedUnique(groups, k, o, p); }
    }
    if r.effective.Some? {
      var k :| IsTop(rules, r.subject, r.path, k) && Decided(groups, k, r);
      assert OnlyTop(rules, r.subject, r.path, k);
      var o :| OnlyBacked(groups, k, o) && r.effective == Some(o.id.value);
      assert Settles(rules, r, o);
    }
  }

  lemma OnlyIsAny(groups: seq<Observation>, k: RuleKey, o: Observation)
    requires OnlyBacked(groups, k, o)
    ensures AnyBacked(groups, k)
  {
  }

  ghost predicate AnyAmbiguous(report: seq<ConflictResult>) {
    exists r :: r in report && r.state == InvalidOrAmbiguousAuthority
  }

  /** Two values of a property on which two rules tie. */
  lemma AmbiguityReached(rules: seq<Rule>, k: RuleKey, l: RuleKey) returns (observations: seq<Observation>, report: seq<ConflictResult>)
    requires HasRule(rules, k) && HasRule(rules, l) && k.selector == l.selector && k != l
    ensures OneForEach(observations) && IsReport(observations, rules, report) && AnyAmbiguous(report)
  {
    var subject := SelectorTies(rules, k, l, "id", Some(NodeId("n", "table", "t", None)));
    var path := k.selector.path;
    hide IsTop, StrictlyOrdered;
    var record := Provenance("provider", "ref", None, "declared");
    var no := Part(Observed(subject, path, Bool(false)), Nothing, [record]);
    var yes := Part(Observed(subject, path, Bool(true)), Nothing, [record]);
    observations := [no, yes];
    var r := ConflictResult(subject, path, InvalidOrAmbiguousAuthority, AmbiguousAuthority, observations, None, None);
    report := [r];
    FalseBeforeTrue(no, yes);
    TopMatches(rules, subject, path, k);
    assert StrictlyOrdered(ResultKey, report) by { AloneOrdered(r); }
    assert IsResult(observations, rules, r);
    assert r in report;
  }

  lemma FalseBeforeTrue(no: Observation, yes: Observation)
    requires no.id.value == Bool(false) && yes.id.value == Bool(true)
    ensures StrictlyOrdered(ValueKey, [no, yes])
  {
    assert ValueKey(no)[0] == "false" && ValueKey(yes)[0] == "true";
  }

  lemma AloneOrdered(r: ConflictResult)
    ensures StrictlyOrdered(ResultKey, [r])
  {
  }

  /** The rules never leave a property ambiguous, whatever is observed, exactly if the loader's check accepts them. */
  lemma AmbiguousExactly(entries: seq<Entry>, rules: seq<Rule>)
    requires RulesOf(entries, rules)
    ensures Unambiguous(entries) <==>
      forall observations, report :: OneForEach(observations) && IsReport(observations, rules, report) ==> !AnyAmbiguous(report)
  {
    UntiedExactly(entries, rules);
    if Unambiguous(entries) {
      hide IsTop;
      forall observations, report | OneForEach(observations) && IsReport(observations, rules, report) ensures !AnyAmbiguous(report) {
      }
    } else {
      hide RulesOf, IsReport;
      var e, f :| e in entries && f in entries && e.key.selector == f.key.selector && e.key != f.key;
      EntryRuled(entries, rules, e);
      EntryRuled(entries, rules, f);
      var observations, report := AmbiguityReached(rules, e.key, f.key);
    }
  }

  lemma EntryRuled(entries: seq<Entry>, rules: seq<Rule>, e: Entry)
    requires RulesOf(entries, rules) && e in entries
    ensures HasRule(rules, e.key)
  {
  }

  /** With rules that the loader accepted, the ambiguous state cannot appear. */
  lemma LoadedNeverAmbiguous(files: seq<Option<seq<Entry>>>, rules: seq<Rule>, observations: seq<Observation>, report: seq<ConflictResult>)
    requires Loadable(files) && RulesOf(Collected(files), rules) && IsReport(observations, rules, report)
    ensures forall r :: r in report ==> r.state != InvalidOrAmbiguousAuthority && r.reason != AmbiguousAuthority
  {
  }

  /** A normalized set has one observation for each value. */
  lemma NormalizedOneForEach(a: seq<Observation>, x: seq<Observation>)
    requires Normalized(a, x)
    ensures OneForEach(x)
  {
  }

  /** From raw observations and files to the report. */
  method Report(observations: seq<Observation>, files: seq<Option<seq<Entry>>>) returns (r: Result<seq<ConflictResult>>)
    requires EntriesOk(Collected(files))
    ensures r.Success? <==> Loadable(files)
    ensures r.Success? ==> forall c :: c in r.value ==> c.state != InvalidOrAmbiguousAuthority
    ensures r.Success? ==> exists x, rules :: Normalized(observations, x) && RulesOf(Collected(files), rules) && IsReport(x, rules, r.value)
  {
    hide Normalized, RulesOf, IsReport, Loadable, Collected, OneForEach;
    var rules := LoadRules(files);
    if rules.Failure? {
      return Failure;
    }
    var x := NormalizeObservations(observations);
    NormalizedOneForEach(observations, x);
    var report := AnalyzeConflicts(x, rules.value);
    LoadedNeverAmbiguous(files, rules.value, x, report);
    r := Success(report);
  }
}
