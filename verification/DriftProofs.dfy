/** What drift results guarantee for comparisons that passed the independent check. */
module DriftProofs {
  import opened Outcomes
  import opened Sorting
  import opened JsonText
  import opened JsonOrder
  import opened Comparisons
  import opened ComparisonCheck
  import opened Artifacts
  import opened DriftPolicies
  import opened Drift

  // ----- the differences of an accepted comparison

  /** `d` is a difference of entry `c`. */
  predicate DifferenceIn(d: Difference, c: ObjectChange) {
    d.entry == c && match d.property
    case None => OneSided(c)
    case Some(p) => !OneSided(c) && p in c.propertyChanges
  }

  lemma EntryDifferences(c: ObjectChange)
    ensures forall d :: d in DifferencesOf(c) <==> DifferenceIn(d, c)
  {
  }

  /** The differences are those of the entries. */
  lemma {:induction false} DifferenceMembers(changes: seq<ObjectChange>)
    ensures forall d :: d in Differences(changes) <==> d.entry in changes && DifferenceIn(d, d.entry)
  {
    hide DifferencesOf, DifferenceIn;
    if changes != [] {
      var n := |changes| - 1;
      assert changes == changes[..n] + [changes[n]];
      DifferenceMembers(changes[..n]);
      EntryDifferences(changes[n]);
      forall d ensures DifferenceIn(d, changes[n]) ==> d.entry == changes[n] {
        InOwnEntry(d, changes[n]);
      }
    }
  }

  lemma InOwnEntry(d: Difference, c: ObjectChange)
    ensures DifferenceIn(d, c) ==> d.entry == c
  {
  }

  /** Entries of an accepted comparison: distinct identities, distinct properties, something to report in each. */
  ghost predicate Sound(changes: seq<ObjectChange>) {
    && DistinctIdentities(changes)
    && forall c :: c in changes && !OneSided(c) ==> StrictlyOrdered(PointerKey, c.propertyChanges) && c.propertyChanges != []
  }

  lemma AcceptedSound(x: Comparison)
    requires Accepts(x)
    ensures Sound(x.objectChanges)
    ensures x.status == "identical" <==> x.objectChanges == []
  {
  }

  lemma EntryDifferencesDistinct(c: ObjectChange)
    requires !OneSided(c) ==> StrictlyOrdered(PointerKey, c.propertyChanges)
    ensures NoRepeats(DifferencesOf(c))
  {
    if !OneSided(c) {
      StrictlyOrderedNoRepeats(PointerKey, c.propertyChanges);
    }
  }

  /** No difference is listed twice. */
  lemma {:induction false} DifferencesDistinct(changes: seq<ObjectChange>)
    requires Sound(changes)
    ensures NoRepeats(Differences(changes))
  {
    hide DifferencesOf, DifferenceIn, StrictlyOrdered;
    if changes != [] {
      var n := |changes| - 1;
      assert forall c :: c in changes[..n] ==> c in changes;
      assert forall i :: 0 <= i < n ==> changes[..n][i] == changes[i];
      DifferencesDistinct(changes[..n]);
      DifferenceMembers(changes[..n]);
      EntryDifferences(changes[n]);
      assert changes[n] in changes;
      EntryDifferencesDistinct(changes[n]);
      assert changes[n] !in changes[..n];
      forall d | d in DifferencesOf(changes[n]) ensures d !in Differences(changes[..n]) {
        InOwnEntry(d, changes[n]);
      }
      NoRepeatsJoin(Differences(changes[..n]), DifferencesOf(changes[n]));
    }
  }

  lemma NoRepeatsJoin(a: seq<Difference>, b: seq<Difference>)
    requires NoRepeats(a) && NoRepeats(b) && forall d :: d in b ==> d !in a
    ensures NoRepeats(a + b)
  {
    forall i, j | 0 <= i < j < |a + b| ensures (a + b)[i] != (a + b)[j] {
      if i < |a| <= j { assert (a + b)[i] in a && (a + b)[j] in b; }
    }
  }

  // ----- the classified list

  /** A classified list of an accepted comparison has one entry for each difference, and no other. */
  lemma ClassifiedOnce(rules: seq<DriftRule>, changes: seq<ObjectChange>, classified: seq<Classified>)
    requires Sound(changes) && Covers(rules, changes, classified)
    ensures forall d :: d in Differences(changes) <==> exists c :: c in classified && c.difference == d
    ensures forall i, j :: 0 <= i < j < |classified| ==> classified[i].difference != classified[j].difference
    ensures |classified| == |Differences(changes)|
  {
    hide AllJudged, Ordered, Sound, ClassifiedKey, Covers;
    CoversAll(rules, changes, classified);
    var listed, all := DifferencesIn(classified), Differences(changes);
    DifferencesDistinct(changes);
    NoRepeatsPermuted(all, listed);
    assert |listed| == |multiset(listed)| && |all| == |multiset(all)|;
    forall d ensures d in all <==> exists c :: c in classified && c.difference == d {
      assert d in all <==> d in multiset(all);
      assert d in listed <==> d in multiset(listed);
      if d in listed {
        var i :| 0 <= i < |listed| && listed[i] == d;
        assert classified[i] in classified;
      }
      if exists c :: c in classified && c.difference == d {
        var c :| c in classified && c.difference == d;
        var i :| 0 <= i < |classified| && classified[i] == c;
        assert listed[i] == d;
      }
    }
  }

  /** Different differences of one comparison have different sort keys. */
  lemma KeyTellsDifference(changes: seq<ObjectChange>, a: Classified, b: Classified)
    requires Sound(changes) && a.difference in Differences(changes) && b.difference in Differences(changes)
    requires ClassifiedKey(a) == ClassifiedKey(b)
    ensures a.difference == b.difference
  {
    hide Differences, StrictlyOrdered, Render, RankText;
    DifferenceMembers(changes);
    var d, e := a.difference, b.difference;
    assert ClassifiedKey(a)[1] == ClassifiedKey(b)[1] && ClassifiedKey(a)[3] == ClassifiedKey(b)[3];
    RenderInjective(d.entry.objectIdentity, e.entry.objectIdentity);
    var i :| 0 <= i < |changes| && changes[i] == d.entry;
    var j :| 0 <= j < |changes| && changes[j] == e.entry;
    assert i == j;
    if d.property.Some? && e.property.Some? {
      StrictlyOrderedNoRepeats(PointerKey, d.entry.propertyChanges);
      assert PointerKey(d.property.value) == PointerKey(e.property.value);
    }
  }

  /** On an accepted comparison no two entries of the classified list have the same sort key. */
  lemma ClassifiedStrict(rules: seq<DriftRule>, changes: seq<ObjectChange>, classified: seq<Classified>)
    requires Sound(changes) && Covers(rules, changes, classified)
    ensures StrictlyOrdered(ClassifiedKey, classified)
  {
    hide AllJudged, Sound, ClassifiedKey, Differences, DifferencesIn, KeyLess, Covers;
    CoversAll(rules, changes, classified);
    ClassifiedOnce(rules, changes, classified);
    forall i, j | 0 <= i < j < |classified| ensures KeyLess(ClassifiedKey(classified[i]), ClassifiedKey(classified[j])) {
      assert classified[i] in classified && classified[j] in classified;
      if ClassifiedKey(classified[i]) == ClassifiedKey(classified[j]) {
        KeyTellsDifference(changes, classified[i], classified[j]);
      }
      KeyLessTotal(ClassifiedKey(classified[i]), ClassifiedKey(classified[j]));
    }
  }

  lemma FindsUnique(a: seq<DriftRule>, b: seq<DriftRule>, changes: seq<ObjectChange>, x: seq<Classified>, y: seq<Classified>)
    requires Finds(a, changes, x) && Finds(b, changes, y) && forall r :: r in a <==> r in b
    ensures x == y
  {
    hide Judged, Differences, DifferencesIn;
    assert |x| == |DifferencesIn(x)| == |y|;
    forall i | 0 <= i < |x| ensures x[i] == y[i] {
      assert x[i].difference == DifferencesIn(x)[i] == y[i].difference;
      assert x[i] in x && y[i] in y;
      JudgedUnique(a, b, x[i].difference, x[i], y[i]);
    }
  }

  /** The classified list is the same for any order of the rules. */
  lemma ClassifiedIgnoresRuleOrder(a: seq<DriftRule>, b: seq<DriftRule>, changes: seq<ObjectChange>, x: seq<Classified>, y: seq<Classified>)
    requires Covers(a, changes, x) && Covers(b, changes, y)
    requires forall r :: r in a <==> r in b
    ensures x == y
  {
    hide Finds, ClassifiedKey, SortBy;
    var found :| Finds(a, changes, found) && x == SortBy(ClassifiedKey, found);
    var other :| Finds(b, changes, other) && y == SortBy(ClassifiedKey, other);
    FindsUnique(a, b, changes, found, other);
  }

  /** The identity of a policy does not depend on the order of its rules. */
  lemma PolicyIdentityIgnoresOrder(a: seq<DriftRule>, b: seq<DriftRule>)
    requires IdsDistinct(a) && IdsDistinct(b) && forall r :: r in a <==> r in b
    ensures IdentityOfPolicy(a) == IdentityOfPolicy(b)
  {
    hide SortBy, Insert, RuleSortKey;
    PolicySorted(a);
    PolicySorted(b);
    StrictlyOrderedUnique(RuleSortKey, SortBy(RuleSortKey, a), SortBy(RuleSortKey, b));
  }

  lemma PolicySorted(rules: seq<DriftRule>)
    requires IdsDistinct(rules)
    ensures StrictlyOrdered(RuleSortKey, SortBy(RuleSortKey, rules))
    ensures forall r :: r in SortBy(RuleSortKey, rules) <==> r in rules
  {
    hide SortBy, Insert, Render, RankText;
    forall r, s | r in rules && s in rules && RuleSortKey(r) == RuleSortKey(s) ensures r == s {
      assert RuleSortKey(r)[4] == RuleSortKey(s)[4];
      var i :| 0 <= i < |rules| && rules[i] == r;
      var j :| 0 <= j < |rules| && rules[j] == s;
      assert i == j;
    }
    SortByStrict(RuleSortKey, rules);
    SortByOrdered(RuleSortKey, rules);
  }

  /** The whole drift result is the same for any order of the rules. */
  lemma DriftIgnoresRuleOrder(x: Artifact, a: seq<DriftRule>, b: seq<DriftRule>, r: DriftResult, s: DriftResult)
    requires PolicyOk(a) && PolicyOk(b) && forall q :: q in a <==> q in b
    requires IsDriftResult(x, Some(a), r) && IsDriftResult(x, Some(b), s)
    ensures r == s
  {
    hide Covers, IdentityOfPolicy, SummaryFor, DeriveStatus, Unambiguous, RuleOk;
    PolicyIdentityIgnoresOrder(a, b);
    if x.payload.status != "identical" {
      ClassifiedIgnoresRuleOrder(a, b, x.payload.objectChanges, r.classifiedChanges, s.classifiedChanges);
    }
  }

  // ----- status and counts

  lemma SomeDifference(changes: seq<ObjectChange>)
    requires Sound(changes)
    ensures Differences(changes) == [] <==> changes == []
  {
  }

  /** On an accepted comparison the drift status is `no_difference` exactly when the comparison is identical. */
  lemma NoDifferenceExactly(x: Artifact, policy: Option<seq<DriftRule>>, r: DriftResult)
    requires Accepts(x.payload) && IsDriftResult(x, policy, r)
    ensures r.status == "no_difference" <==> x.payload.status == "identical"
    ensures r.status == "no_difference" <==> x.payload.objectChanges == []
  {
    hide Accepts, Covers, Sound, SummaryFor, IdentityOfPolicy, Differences;
    AcceptedSound(x.payload);
    SomeDifference(x.payload.objectChanges);
    if x.payload.status != "identical" {
      ClassifiedOnce(policy.value, x.payload.objectChanges, r.classifiedChanges);
    }
  }

  function IdentityTexts(changes: seq<ObjectChange>): set<string> {
    set c | c in changes :: Render(c.objectIdentity)
  }

  lemma {:induction false} IdentityTextsCounted(changes: seq<ObjectChange>)
    requires DistinctIdentities(changes)
    ensures |IdentityTexts(changes)| == |changes|
  {
    hide Render;
    if changes != [] {
      var n := |changes| - 1;
      var before := changes[..n];
      assert changes == before + [changes[n]];
      assert forall i :: 0 <= i < n ==> before[i] == changes[i];
      IdentityTextsCounted(before);
      var text := Render(changes[n].objectIdentity);
      assert IdentityTexts(changes) == IdentityTexts(before) + {text};
      if text in IdentityTexts(before) {
        var c :| c in before && Render(c.objectIdentity) == text;
        RenderInjective(c.objectIdentity, changes[n].objectIdentity);
      }
    }
  }

  /** Every changed object counts as affected once, and expected and unexpected differences cover all differences. */
  lemma DriftCounts(x: Artifact, policy: Option<seq<DriftRule>>, r: DriftResult)
    requires Accepts(x.payload) && IsDriftResult(x, policy, r)
    ensures r.summary.affectedObjects == |x.payload.objectChanges|
    ensures r.summary.expectedDifferences + r.summary.unexpectedDrift == |Differences(x.payload.objectChanges)|
    ensures r.status == "unexpected_drift" <==> r.summary.unexpectedDrift > 0
    ensures r.status == "expected_difference" <==> r.summary.unexpectedDrift == 0 && r.summary.expectedDifferences > 0
    ensures 0 <= r.summary.propertyDrift <= r.summary.unexpectedDrift
  {
    hide Accepts, Covers, Render, IdentityOfPolicy, Total, StrictlyOrdered;
    var changes, classified := x.payload.objectChanges, r.classifiedChanges;
    AcceptedSound(x.payload);
    CountsAddUp(classified);
    SomeDifference(changes);
    if x.payload.status != "identical" {
      ClassifiedOnce(policy.value, changes, classified);
      AffectedAll(policy.value, changes, classified);
    } else {
      assert AffectedKeys(classified) == {} == IdentityTexts(changes);
    }
    IdentityTextsCounted(changes);
  }

  lemma AffectedAll(rules: seq<DriftRule>, changes: seq<ObjectChange>, classified: seq<Classified>)
    requires Sound(changes) && Covers(rules, changes, classified)
    ensures AffectedKeys(classified) == IdentityTexts(changes)
  {
    hide Differences, Covers, Render, StrictlyOrdered;
    ClassifiedOnce(rules, changes, classified);
    DifferenceMembers(changes);
    forall t ensures t in AffectedKeys(classified) <==> t in IdentityTexts(changes) {
      if t in AffectedKeys(classified) {
        var c :| c in classified && Render(c.difference.entry.objectIdentity) == t;
        assert c.difference in Differences(changes);
      }
      if t in IdentityTexts(changes) {
        var e :| e in changes && Render(e.objectIdentity) == t;
        var d := Difference(e, if OneSided(e) then None else Some(e.propertyChanges[0]));
        assert DifferenceIn(d, d.entry);
        var c :| c in classified && c.difference == d;
      }
    }
  }
}
