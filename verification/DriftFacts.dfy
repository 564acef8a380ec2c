/** Drift verdicts from the policy document to the classified list: which rules pick a difference, and what they decide. */
module DriftFacts {
  import opened Outcomes
  import opened Texts
  import opened Sorting
  import opened JsonText
  import opened JsonOrder
  import opened Identities
  import opened Snapshots
  import opened Declarations
  import opened PropertyChecks
  import opened Comparisons
  import opened ComparisonCheck
  import opened Artifacts
  import opened DriftPolicies
  import opened Drift
  import opened DriftProofs
  import opened ReportFacts

  /** The rule is about the change of this entry, on the object it names, and about this property or none. */
  predicate Picks(r: RawRule, e: ObjectChange, pointer: Option<string>) {
    && r.change == e.change && r.property == pointer
    && ParseIdentity(r.selected).Some? && ParseIdentity(r.selected) == ParseIdentity(e.objectIdentity)
  }

  /** The sides that the rule states are those of the change. */
  predicate StatedSidesHold(r: RawRule, p: PropertyChange) {
    r.expected.Some? ==>
      && (r.expected.value.baseline.Some? ==> r.expected.value.baseline.value == p.baseline)
      && (r.expected.value.candidate.Some? ==> r.expected.value.candidate.value == p.candidate)
  }

  function PointerOf(d: Difference): Option<string> {
    match d.property case None => None case Some(p) => Some(p.property)
  }

  /** The entry is one that the independent check accepts, and the difference is one of its own. */
  predicate Ordinary(d: Difference) {
    ParseIdentity(d.entry.objectIdentity).Some? && if d.property.None? then OneSided(d.entry) else d.entry.change == "changed"
  }

  lemma PicksSelects(r: RawRule, d: Difference)
    requires RuleAcceptable(r) && Ordinary(d)
    ensures Selects(Normal(r), d) <==> Picks(r, d.entry, PointerOf(d))
  {
    hide ParseIdentity, Strip, Render, IdentityJson, ChangeCompatible, ExpectedFits;
    ParsedIdentity(r.selected);
    ParsedIdentity(d.entry.objectIdentity);
    if Render(r.selected) == Render(d.entry.objectIdentity) {
      RenderInjective(r.selected, d.entry.objectIdentity);
    }
  }

  lemma StatedSidesMeet(r: RawRule, d: Difference)
    requires d.property.Some?
    ensures Meets(Normal(r).expected, d) <==> StatedSidesHold(r, d.property.value)
  {
    hide Strip;
  }

  lemma NormalFrom(raws: seq<RawRule>, q: DriftRule) returns (r: RawRule)
    requires q in Normals(raws)
    ensures r in raws && q == Normal(r)
  {
    hide Normal;
    var i :| 0 <= i < |raws| && Normals(raws)[i] == q;
    r := raws[i];
  }

  lemma NormalIn(raws: seq<RawRule>, r: RawRule)
    requires r in raws
    ensures Normal(r) in Normals(raws)
  {
    hide Normal;
    var i :| 0 <= i < |raws| && raws[i] == r;
    assert Normals(raws)[i] == Normal(r);
  }

  /** The verdict on one difference, by the rules of the document. */
  ghost predicate Verdict(raws: seq<RawRule>, c: Classified) {
    var e, pointer := c.difference.entry, PointerOf(c.difference);
    && (c.classification == ExpectedDifference <==>
          && (exists r :: r in raws && Picks(r, e, pointer))
          && (c.difference.property.Some? ==>
                forall r :: r in raws && Picks(r, e, pointer) ==> StatedSidesHold(r, c.difference.property.value)))
    && (forall id :: id in c.matchedRuleIds <==> exists r :: r in raws && Picks(r, e, pointer) && id == Strip(r.id))
    && c.reason == (if c.classification == ExpectedDifference then MatchedPolicyRule
                    else if exists r :: r in raws && Picks(r, e, pointer) then ExpectationMismatch else UnmatchedDifference)
  }

  /** The rules of the policy are those of the document, and select what those pick. */
  ghost predicate Mirrors(raws: seq<RawRule>, rules: seq<DriftRule>, d: Difference) {
    && (forall r :: r in raws ==> Normal(r) in rules && (Selects(Normal(r), d) <==> Picks(r, d.entry, PointerOf(d))))
    && (forall q :: q in rules ==> exists r :: r in raws && q == Normal(r))
  }

  lemma NormalsMirror(raws: seq<RawRule>, d: Difference)
    requires (forall r :: r in raws ==> RuleAcceptable(r)) && Ordinary(d)
    ensures Mirrors(raws, Normals(raws), d)
  {
    hide RuleAcceptable, Picks, Selects, Ordinary, Normal;
    forall r | r in raws ensures Normal(r) in Normals(raws) && (Selects(Normal(r), d) <==> Picks(r, d.entry, PointerOf(d))) {
      NormalIn(raws, r);
      PicksSelects(r, d);
    }
    forall q | q in Normals(raws) ensures exists r :: r in raws && q == Normal(r) {
      var r := NormalFrom(raws, q);
    }
  }

  lemma SomePicked(raws: seq<RawRule>, rules: seq<DriftRule>, d: Difference)
    requires Mirrors(raws, rules, d)
    ensures (exists q :: q in rules && Selects(q, d)) <==> exists r :: r in raws && Picks(r, d.entry, PointerOf(d))
  {
    hide Picks, Selects, Normal;
    if q :| q in rules && Selects(q, d) {
      var r :| r in raws && q == Normal(r);
    }
    if r :| r in raws && Picks(r, d.entry, PointerOf(d)) {
      assert Normal(r) in rules;
    }
  }

  lemma AllMeet(raws: seq<RawRule>, rules: seq<DriftRule>, d: Difference)
    requires Mirrors(raws, rules, d)
    ensures (forall q :: q in rules && Selects(q, d) ==> Meets(q.expected, d)) <==>
      (d.property.Some? ==> forall r :: r in raws && Picks(r, d.entry, PointerOf(d)) ==> StatedSidesHold(r, d.property.value))
  {
    hide Picks, Selects, Normal, Meets, StatedSidesHold;
    if d.property.None? {
      forall q | q in rules ensures Meets(q.expected, d) { NoValuesMeet(q.expected, d); }
    } else {
      forall r ensures Meets(Normal(r).expected, d) <==> StatedSidesHold(r, d.property.value) { StatedSidesMeet(r, d); }
      forall q | q in rules && Selects(q, d)
        ensures exists r :: r in raws && Picks(r, d.entry, PointerOf(d)) && q == Normal(r)
      {
        var r :| r in raws && q == Normal(r);
      }
    }
  }

  lemma PickedIds(raws: seq<RawRule>, rules: seq<DriftRule>, d: Difference, id: string)
    requires Mirrors(raws, rules, d)
    ensures IdListed(rules, d, id) <==> exists r :: r in raws && Picks(r, d.entry, PointerOf(d)) && id == Strip(r.id)
  {
    hide Picks, Selects, Strip;
    if IdListed(rules, d, id) {
      var q :| q in rules && Selects(q, d) && q.id == id;
      var r :| r in raws && q == Normal(r);
    }
    if r :| r in raws && Picks(r, d.entry, PointerOf(d)) && id == Strip(r.id) {
      assert Normal(r) in rules && Normal(r).id == id;
    }
  }

  lemma JudgedVerdict(raws: seq<RawRule>, c: Classified)
    requires (forall r :: r in raws ==> RuleAcceptable(r)) && Ordinary(c.difference)
    requires Judged(Normals(raws), c.difference, c)
    ensures Verdict(raws, c)
  {
    hide RuleAcceptable, Picks, Selects, Meets, StatedSidesHold, Ordinary, StrictlyOrdered, Normals, Strip, Mirrors, IdListed;
    var d, rules := c.difference, Normals(raws);
    NormalsMirror(raws, d);
    SomePicked(raws, rules, d);
    AllMeet(raws, rules, d);
    forall id ensures id in c.matchedRuleIds <==> exists r :: r in raws && Picks(r, d.entry, PointerOf(d)) && id == Strip(r.id) {
      PickedIds(raws, rules, d, id);
    }
    if r :| r in raws && Picks(r, d.entry, PointerOf(d)) {
      assert Strip(r.id) in c.matchedRuleIds;
    }
    if c.matchedRuleIds != [] {
      assert c.matchedRuleIds[0] in c.matchedRuleIds;
    }
  }

  /** Every entry of the classified list carries the verdict that the rules of the document give. */
  lemma VerdictsExactly(raws: seq<RawRule>, x: Comparison, classified: seq<Classified>)
    requires PolicyAcceptable(raws) && Accepts(x) && Covers(Normals(raws), x.objectChanges, classified)
    ensures forall c :: c in classified ==> Verdict(raws, c)
  {
    hide RuleAcceptable, Accepts, Judged, Verdict, Covers, Ordered, IdsDistinct, Unambiguous, Ordinary;
    CoversAll(Normals(raws), x.objectChanges, classified);
    AcceptedSound(x);
    ClassifiedOnce(Normals(raws), x.objectChanges, classified);
    forall c | c in classified ensures Verdict(raws, c) {
      assert c.difference in Differences(x.objectChanges);
      OrdinaryDifference(x, c.difference);
      JudgedVerdict(raws, c);
    }
  }

  lemma OrdinaryDifference(x: Comparison, d: Difference)
    requires Accepts(x) && d in Differences(x.objectChanges)
    ensures d.entry in x.objectChanges && DifferenceIn(d, d.entry) && Ordinary(d)
  {
    hide Differences, ParseIdentity;
    DifferenceMembers(x.objectChanges);
    AcceptedEntry(x, d.entry);
  }

  lemma AcceptedEntry(x: Comparison, e: ObjectChange)
    requires Accepts(x) && e in x.objectChanges
    ensures ParseIdentity(e.objectIdentity).Some? && (OneSided(e) || e.change == "changed")
  {
    hide ParseIdentity;
  }

  /** The rule is about this change of this object, and names no property. */
  predicate PicksObject(r: RawRule, e: ObjectChange) {
    r.change == e.change && ParseIdentity(r.selected) == ParseIdentity(e.objectIdentity) && r.property == None
  }

  /** An added or removed object is expected exactly if some rule is about that change of that object. */
  lemma ObjectExpectedExactly(raws: seq<RawRule>, x: Comparison, classified: seq<Classified>, e: ObjectChange)
    requires PolicyAcceptable(raws) && Accepts(x) && Covers(Normals(raws), x.objectChanges, classified)
    requires e in x.objectChanges && (e.change == "added" || e.change == "removed")
    ensures exists c :: c in classified && c.difference == Difference(e, None)
    ensures forall c :: c in classified && c.difference.entry == e ==>
      && c.difference.property == None
      && (c.classification == ExpectedDifference <==> exists r :: r in raws && PicksObject(r, e))
  {
    hide Accepts, Covers, Differences, PolicyAcceptable, Strip, ParseIdentity;
    VerdictsExactly(raws, x, classified);
    AcceptedSound(x);
    AcceptedEntry(x, e);
    ClassifiedOnce(Normals(raws), x.objectChanges, classified);
    DifferenceMembers(x.objectChanges);
    assert Difference(e, None) in Differences(x.objectChanges);
    forall c | c in classified && c.difference.entry == e
      ensures c.difference.property == None
      ensures c.classification == ExpectedDifference <==> exists r :: r in raws && PicksObject(r, e)
    {
      assert c.difference in Differences(x.objectChanges);
      assert Verdict(raws, c);
      assert forall r :: Picks(r, e, None) <==> PicksObject(r, e);
    }
  }

  /** A property change is expected exactly if some rule is about it, and every such rule's stated sides are the actual ones. */
  lemma PropertyExpectedExactly(raws: seq<RawRule>, x: Comparison, classified: seq<Classified>, e: ObjectChange, p: PropertyChange)
    requires PolicyAcceptable(raws) && Accepts(x) && Covers(Normals(raws), x.objectChanges, classified)
    requires e in x.objectChanges && e.change == "changed" && p in e.propertyChanges
    ensures exists c :: c in classified && c.difference == Difference(e, Some(p))
    ensures forall c :: c in classified && c.difference == Difference(e, Some(p)) ==>
      (c.classification == ExpectedDifference <==>
        && (exists r :: r in raws && Picks(r, e, Some(p.property)))
        && forall r :: r in raws && Picks(r, e, Some(p.property)) ==> StatedSidesHold(r, p))
  {
    hide Accepts, Covers, Differences, PolicyAcceptable, Strip, Picks, StatedSidesHold;
    VerdictsExactly(raws, x, classified);
    AcceptedSound(x);
    ClassifiedOnce(Normals(raws), x.objectChanges, classified);
    DifferenceMembers(x.objectChanges);
    assert Difference(e, Some(p)) in Differences(x.objectChanges);
  }

  // ----- counts

  ghost function ExpectedAt(classified: seq<Classified>): set<int> {
    set i | 0 <= i < |classified| && classified[i].classification == ExpectedDifference
  }

  ghost function UnexpectedAt(classified: seq<Classified>): set<int> {
    set i | 0 <= i < |classified| && classified[i].classification == UnexpectedDrift
  }

  ghost function AffectedIds(classified: seq<Classified>): set<Json> {
    set c | c in classified :: c.difference.entry.objectIdentity
  }

  /** The counts of a drift summary are numbers of entries of the classified list, and of objects in it. */
  lemma CountsExactly(classified: seq<Classified>)
    ensures SummaryFor(classified).expectedDifferences == |ExpectedAt(classified)|
    ensures SummaryFor(classified).unexpectedDrift == |UnexpectedAt(classified)|
    ensures SummaryFor(classified).propertyDrift == |set i | i in UnexpectedAt(classified) && classified[i].difference.property.Some?|
    ensures SummaryFor(classified).affectedObjects == |AffectedIds(classified)|
  {
    var isExpected := (c: Classified) => c.classification == ExpectedDifference;
    var isUnexpected := (c: Classified) => c.classification == UnexpectedDrift;
    var isProperty := (c: Classified) => c.classification == UnexpectedDrift && c.difference.property.Some?;
    CountIndices(classified, ExpectedWeight, isExpected);
    CountIndices(classified, UnexpectedWeight, isUnexpected);
    CountIndices(classified, PropertyDriftWeight, isProperty);
    assert ExpectedAt(classified) == Where(classified, isExpected);
    assert UnexpectedAt(classified) == Where(classified, isUnexpected);
    assert (set i | i in UnexpectedAt(classified) && classified[i].difference.property.Some?) == Where(classified, isProperty);
    AffectedCounted(classified);
  }

  /** Different identities have different texts, so counting texts counts identities. */
  lemma {:induction false} TextsCounted(ids: set<Json>)
    ensures |set j | j in ids :: Render(j)| == |ids|
  {
    hide Render;
    if ids != {} {
      var j :| j in ids;
      var rest := ids - {j};
      TextsCounted(rest);
      if Render(j) in set k | k in rest :: Render(k) {
        var k :| k in rest && Render(k) == Render(j);
        RenderInjective(j, k);
      }
      assert (set k | k in ids :: Render(k)) == (set k | k in rest :: Render(k)) + {Render(j)};
    } else {
      assert (set j | j in ids :: Render(j)) == {};
    }
  }

  lemma AffectedCounted(classified: seq<Classified>)
    ensures |AffectedKeys(classified)| == |AffectedIds(classified)|
  {
    hide Render;
    TextsCounted(AffectedIds(classified));
    assert AffectedKeys(classified) == set j | j in AffectedIds(classified) :: Render(j);
  }

  // ----- order

  /** Unexpected drift comes first; then differences stand by the text of the identity, and those of one object by pointer. */
  predicate InOrder(c: Classified, d: Classified) {
    var x, y := c.difference.entry.objectIdentity, d.difference.entry.objectIdentity;
    var p, q := c.difference.property, d.difference.property;
    && (d.classification == UnexpectedDrift ==> c.classification == UnexpectedDrift)
    && (c.classification == d.classification ==> !Less(Render(y), Render(x)))
    && (c.classification == d.classification && x == y && p.Some? && q.Some? ==> !Less(q.value.property, p.value.property))
  }

  lemma KeyInOrder(c: Classified, d: Classified)
    requires !KeyLess(ClassifiedKey(d), ClassifiedKey(c))
    ensures InOrder(c, d)
  {
    hide Render, KeyLess, RankText;
    var a, b := ClassifiedKey(d), ClassifiedKey(c);
    FirstDiffers(a, b, 0);
    assert "0"[0] < "1"[0];
    if a[0] == b[0] {
      assert a[..1] == [a[0]] == b[..1];
      FirstDiffers(a, b, 1);
      LessTotal(a[1], a[1]);
      if a[1] == b[1] && a[2] == b[2] {
        assert a[..3] == [a[0], a[1], a[2]] == b[..3];
        FirstDiffers(a, b, 3);
        LessTotal(a[3], a[3]);
      }
    }
  }

  /** The classified list stands in that order. */
  lemma ClassifiedInOrder(rules: seq<DriftRule>, changes: seq<ObjectChange>, classified: seq<Classified>, i: nat, j: nat)
    requires Covers(rules, changes, classified) && i < j < |classified|
    ensures InOrder(classified[i], classified[j])
  {
    hide Covers, AllJudged, ClassifiedKey, InOrder;
    CoversAll(rules, changes, classified);
    KeyInOrder(classified[i], classified[j]);
  }

  /** Sort keys compare by the first component that differs. */
  lemma {:induction false} FirstDiffers(a: SortKey, b: SortKey, k: nat)
    requires k < |a| && k < |b| && a[..k] == b[..k]
    ensures a[k] != b[k] ==> (KeyLess(a, b) <==> Less(a[k], b[k]))
  {
    if k > 0 {
      assert a[0] == a[..k][0] == b[..k][0] == b[0];
      assert a[1..][..k - 1] == a[..k][1..] && b[1..][..k - 1] == b[..k][1..];
      FirstDiffers(a[1..], b[1..], k - 1);
    }
  }

  function RuleRank(r: DriftRule): int {
    if r.change == "added" then 0 else if r.change == "removed" then 1 else 2
  }

  /** By change, identity text, pointer, expectation text and id; an absent part counts as empty. */
  predicate RuleAhead(r: DriftRule, s: DriftRule) {
    var x, y := Render(r.objectIdentity), Render(s.objectIdentity);
    var p, q := if r.property.Some? then r.property.value else "", if s.property.Some? then s.property.value else "";
    var e := if r.expected.Some? then Render(ExpectedJson(r.expected.value)) else "";
    var f := if s.expected.Some? then Render(ExpectedJson(s.expected.value)) else "";
    if RuleRank(r) != RuleRank(s) then RuleRank(r) < RuleRank(s)
    else if x != y then Less(x, y)
    else if p != q then Less(p, q)
    else if e != f then Less(e, f)
    else Less(r.id, s.id)
  }

  lemma RuleOrder(r: DriftRule, s: DriftRule)
    ensures KeyLess(RuleSortKey(r), RuleSortKey(s)) <==> RuleAhead(r, s)
  {
    hide Render, KeyLess, ExpectedJson;
    var a, b := RuleSortKey(r), RuleSortKey(s);
    assert RankText(r.change)[0] == '0' + RuleRank(r) as char && RankText(s.change)[0] == '0' + RuleRank(s) as char;
    if a[0] != b[0] {
      FirstDiffers(a, b, 0);
    } else if a[1] != b[1] {
      assert a[..1] == [a[0]] == b[..1];
      FirstDiffers(a, b, 1);
    } else if a[2] != b[2] {
      assert a[..2] == [a[0], a[1]] == b[..2];
      FirstDiffers(a, b, 2);
    } else if a[3] != b[3] {
      assert a[..3] == [a[0], a[1], a[2]] == b[..3];
      FirstDiffers(a, b, 3);
    } else {
      assert a[..4] == [a[0], a[1], a[2], a[3]] == b[..4];
      FirstDiffers(a, b, 4);
      LessTotal(a[4], b[4]);
      if a[4] == b[4] {
        assert a == b;
        KeyLessTotal(a, b);
      }
    }
  }

  /** The identity of a policy lists all its rules, none before one that is ahead of it. */
  lemma PolicyInOrder(rules: seq<DriftRule>)
    ensures var content := IdentityOfPolicy(rules).content;
      multiset(content) == multiset(rules) && forall i, j :: 0 <= i < j < |content| ==> !RuleAhead(content[j], content[i])
  {
    hide SortBy, RuleSortKey, RuleAhead;
    SortByOrdered(RuleSortKey, rules);
    var content := IdentityOfPolicy(rules).content;
    forall i, j | 0 <= i < j < |content| ensures !RuleAhead(content[j], content[i]) {
      RuleOrder(content[j], content[i]);
    }
  }

  /** The persisted form of a side: whether there is a value, and which. */
  predicate NamesSide(j: Json, s: Side) {
    match s
    case Missing => Has(j, "has_value", Bool(false)) && Lacks(j, "value")
    case Present(v) => Has(j, "has_value", Bool(true)) && Has(j, "value", v)
  }

  lemma SideNamed(s: Side)
    ensures NamesSide(SideJson(s), s)
  {
    var m := SideJson(s).members;
    assert m[0] in m;
    if s.Present? { assert m[1] in m; }
  }

  /** The text of an expectation is that of an object with the sides that are stated, by their names. */
  lemma ExpectationNamed(e: Expected)
    ensures ProjectionOf(Some(e)) == Render(ExpectedJson(e))
    ensures if e.baseline.None? then Lacks(ExpectedJson(e), "baseline")
            else exists j :: Has(ExpectedJson(e), "baseline", j) && NamesSide(j, e.baseline.value)
    ensures if e.candidate.None? then Lacks(ExpectedJson(e), "candidate")
            else exists j :: Has(ExpectedJson(e), "candidate", j) && NamesSide(j, e.candidate.value)
  {
    hide SideJson, NamesSide;
    var m := ExpectedJson(e).members;
    if e.baseline.Some? {
      SideNamed(e.baseline.value);
      assert m[0] in m;
    }
    if e.candidate.Some? {
      SideNamed(e.candidate.value);
      assert m[|m| - 1] in m;
    }
  }

  // ----- ids

  predicate AllSpace(s: string) { forall i :: 0 <= i < |s| ==> IsSpace(s[i]) }

  /** Stripping removes the white space at both ends, and nothing else. */
  lemma StripExactly(s: string)
    ensures exists a, b :: s == a + Strip(s) + b && AllSpace(a) && AllSpace(b)
    ensures Strip(s) != "" ==> !IsSpace(Strip(s)[0]) && !IsSpace(Strip(s)[|Strip(s)| - 1])
  {
    hide IsSpace;
    var a := LeftTrimmed(s);
    var b := RightTrimmed(TrimLeft(s));
    assert s == a + (Strip(s) + b) == a + Strip(s) + b;
    if Strip(s) != "" {
      assert Strip(s)[0] == TrimLeft(s)[0];
    }
  }

  lemma {:induction false} LeftTrimmed(s: string) returns (a: string)
    ensures s == a + TrimLeft(s) && AllSpace(a)
    ensures TrimLeft(s) != "" ==> !IsSpace(TrimLeft(s)[0])
  {
    hide IsSpace;
    a := "";
    if s != "" && IsSpace(s[0]) {
      a := LeftTrimmed(s[1..]);
      a := [s[0]] + a;
    }
  }

  lemma {:induction false} RightTrimmed(s: string) returns (b: string)
    ensures s == TrimRight(s) + b && AllSpace(b)
    ensures TrimRight(s) != "" ==> !IsSpace(TrimRight(s)[|TrimRight(s)| - 1])
  {
    hide IsSpace;
    b := "";
    if s != "" && IsSpace(s[|s| - 1]) {
      b := RightTrimmed(s[..|s| - 1]);
      b := b + [s[|s| - 1]];
    }
  }
}
