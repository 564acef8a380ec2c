/**
 Conflict results over the fields of rules and provenance records: which rules apply, which record
 makes a value authoritative, and what follows.
 */
module ConflictFacts {
  import opened Outcomes
  import opened Sorting
  import opened Graphs
  import opened Observations
  import opened Authority
  import opened Conflicts

  /** The rule is about properties of this path, on objects of this kind and, if it names one, this namespace. */
  predicate Applies(k: RuleKey, subject: NodeId, path: PropertyPath) {
    && k.selector.kind == subject.kind && k.selector.path == path
    && (k.selector.namespace == None || k.selector.namespace == Some(subject.namespace))
  }

  /** The rule applies, and if some rule that applies names the namespace, so does this one. */
  ghost predicate Decides(rules: seq<Rule>, subject: NodeId, path: PropertyPath, k: RuleKey) {
    && (exists r :: r in rules && r.key == k) && Applies(k, subject, path)
    && forall r :: r in rules && Applies(r.key, subject, path) && r.key.selector.namespace.Some? ==> k.selector.namespace.Some?
  }

  /** Some record of the value is from the provider of the rule and, if the rule names a source, from that source. */
  predicate Authoritative(k: RuleKey, o: Observation) {
    exists p :: p in o.provenance && p.providerType == k.authority.providerType
      && (k.authority.sourceRef == None || k.authority.sourceRef == Some(p.sourceRef))
  }

  lemma DecidesTop(rules: seq<Rule>, subject: NodeId, path: PropertyPath, k: RuleKey)
    ensures IsTop(rules, subject, path, k) <==> Decides(rules, subject, path, k)
  {
    forall l: RuleKey ensures l.selector.Matches(subject, path) <==> Applies(l, subject, path) {}
  }

  lemma AuthoritativeBacked(k: RuleKey, o: Observation)
    ensures Backed(k, o) <==> Authoritative(k, o)
  {
    if Authoritative(k, o) {
      var p :| p in o.provenance && p.providerType == k.authority.providerType
        && (k.authority.sourceRef == None || k.authority.sourceRef == Some(p.sourceRef));
      var i :| 0 <= i < |o.provenance| && o.provenance[i] == p;
    }
  }

  /** Some rule applies exactly if some rule decides. */
  lemma SomeDecides(rules: seq<Rule>, subject: NodeId, path: PropertyPath)
    ensures AnyMatches(rules, subject, path) <==> exists k :: Decides(rules, subject, path, k)
  {
    forall l: RuleKey ensures l.selector.Matches(subject, path) <==> Applies(l, subject, path) {}
    if r :| r in rules && r.key.selector.Matches(subject, path) {
      if s :| s in rules && Applies(s.key, subject, path) && s.key.selector.namespace.Some? {
        assert Decides(rules, subject, path, s.key);
      } else {
        assert Decides(rules, subject, path, r.key);
      }
    }
  }

  lemma GroupsDiffer(observations: seq<Observation>, rules: seq<Rule>, r: ConflictResult, o: Observation, p: Observation)
    requires IsResult(observations, rules, r) && o in r.valueGroups && p in r.valueGroups && o.id.value == p.id.value
    ensures o == p
  {
    hide Judged;
    StrictlyOrderedNoRepeats(ValueKey, r.valueGroups);
    assert ValueKey(o) == ValueKey(p);
  }

  /** The value groups are the observations of the property, one for each value. */
  lemma GroupsExactly(observations: seq<Observation>, rules: seq<Rule>, r: ConflictResult)
    requires IsResult(observations, rules, r)
    ensures forall o :: o in r.valueGroups <==> o in observations && o.id.subject == r.subject && o.id.path == r.path
    ensures forall i, j :: 0 <= i < j < |r.valueGroups| ==> r.valueGroups[i].id.value != r.valueGroups[j].id.value
  {
    hide Judged;
    forall i, j | 0 <= i < j < |r.valueGroups| ensures r.valueGroups[i].id.value != r.valueGroups[j].id.value {
      KeyLessTotal(ValueKey(r.valueGroups[i]), ValueKey(r.valueGroups[j]));
    }
  }

  /** One value: it is effective, whoever observed it. */
  lemma SingleValue(observations: seq<Observation>, rules: seq<Rule>, r: ConflictResult)
    requires IsResult(observations, rules, r) && |r.valueGroups| == 1
    ensures r.effective == Some(r.valueGroups[0].id.value) && r.winningRule == None
    ensures |r.valueGroups[0].provenance| == 1 ==> r.state == SingleObservation && r.reason == OneObserved
    ensures |r.valueGroups[0].provenance| != 1 ==> r.state == Agreement && r.reason == AllAgree
  {
  }

  /** Several values, and no rule or several rules to decide. */
  lemma UndecidedExactly(observations: seq<Observation>, rules: seq<Rule>, r: ConflictResult)
    requires IsResult(observations, rules, r) && |r.valueGroups| != 1
    ensures r.state == UnresolvedConflict && r.reason == NoAuthorityRule <==> forall k :: !Decides(rules, r.subject, r.path, k)
    ensures r.state == InvalidOrAmbiguousAuthority && r.reason == AmbiguousAuthority <==>
      exists k, l :: Decides(rules, r.subject, r.path, k) && Decides(rules, r.subject, r.path, l) && k != l
    ensures r.winningRule.None? ==> r.effective == None
  {
    hide IsTop, Decides, AnyMatches, AnyBacked, OnlyBacked, GroupsOf;
    forall k ensures IsTop(rules, r.subject, r.path, k) <==> Decides(rules, r.subject, r.path, k) {
      DecidesTop(rules, r.subject, r.path, k);
    }
    SomeDecides(rules, r.subject, r.path);
  }

  /** Several values and one rule to decide: the verdict, value by value. */
  lemma DecidedExactly(observations: seq<Observation>, rules: seq<Rule>, r: ConflictResult, k: RuleKey)
    requires IsResult(observations, rules, r) && |r.valueGroups| != 1
    requires forall l :: Decides(rules, r.subject, r.path, l) <==> l == k
    ensures r.winningRule == Some(k)
    ensures forall o :: o in r.valueGroups ==> (r.effective == Some(o.id.value) <==>
      Authoritative(k, o) && forall p :: p in r.valueGroups && p != o ==> !Authoritative(k, p))
    ensures r.state == ResolvedByAuthority && r.reason == AuthorityResolved <==> r.effective.Some?
    ensures r.reason == AuthoritativeSourceNotObserved && r.state == UnresolvedConflict <==>
      forall o :: o in r.valueGroups ==> !Authoritative(k, o)
    ensures r.reason == AuthoritativeSourceConflicted && r.state == UnresolvedConflict <==>
      exists o, p :: o in r.valueGroups && p in r.valueGroups && o != p && Authoritative(k, o) && Authoritative(k, p)
  {
    hide IsTop, Decides, Authoritative, Backed, AnyMatches, GroupsOf;
    forall l ensures IsTop(rules, r.subject, r.path, l) <==> l == k { DecidesTop(rules, r.subject, r.path, l); }
    SomeDecides(rules, r.subject, r.path);
    assert IsTop(rules, r.subject, r.path, k) && Decides(rules, r.subject, r.path, k);
    var groups := r.valueGroups;
    assert Decided(groups, k, r);
    forall o ensures Backed(k, o) <==> Authoritative(k, o) { AuthoritativeBacked(k, o); }
    forall o | o in groups
      ensures r.effective == Some(o.id.value) <==>
        Authoritative(k, o) && forall p :: p in groups && p != o ==> !Authoritative(k, p)
    {
      if Authoritative(k, o) && forall p :: p in groups && p != o ==> !Authoritative(k, p) {
        assert OnlyBacked(groups, k, o);
      }
      if r.effective == Some(o.id.value) {
        var p :| OnlyBacked(groups, k, p) && r.effective == Some(p.id.value);
        GroupsDiffer(observations, rules, r, o, p);
      }
    }
    if AnyBacked(groups, k) && !exists o :: OnlyBacked(groups, k, o) {
      var o :| o in groups && Backed(k, o);
      assert !OnlyBacked(groups, k, o);
    }
  }
}
