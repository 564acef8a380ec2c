/**
 Drift policies: rules that expect certain differences. A normalized policy never gives one
 selector two different expectations.
 */
module DriftPolicies {
  import opened Outcomes
  import opened Sorting
  import opened JsonText
  import opened JsonOrder
  import opened Pointers
  import opened Identities
  import opened Snapshots
  import opened Declarations
  import opened PropertyChecks
  import opened Comparisons

  /** The sides a rule expects; a side that is not stated is not constrained. */
  datatype Expected = Expected(baseline: Option<Side>, candidate: Option<Side>)

  /** A rule as it stands in a policy document. */
  datatype RawRule = RawRule(id: string, change: string, selected: Json, property: Option<string>, expected: Option<Expected>)

  datatype DriftRule = DriftRule(id: string, change: string, objectIdentity: Json, property: Option<string>, expected: Option<Expected>)

  /** What a rule matches: a change, the canonical bytes of an identity, a property. */
  datatype SelectorKey = SelectorKey(change: string, identity: string, property: Option<string>)

  function SelectorOf(r: DriftRule): SelectorKey {
    SelectorKey(r.change, Render(r.objectIdentity), r.property)
  }

  const PRESENCE_ONLY := "__presence_only__"

  function SideJson(s: Side): Json {
    match s
    case Missing => Obj([Member("has_value", Bool(false))])
    case Present(v) => Obj([Member("has_value", Bool(true)), Member("value", v)])
  }

  function ExpectedJson(e: Expected): Json {
    Obj((match e.baseline case None => [] case Some(s) => [Member("baseline", SideJson(s))])
      + (match e.candidate case None => [] case Some(s) => [Member("candidate", SideJson(s))]))
  }

  /** The text two rules of one selector must share. */
  function ProjectionOf(e: Option<Expected>): string {
    match e
    case None => PRESENCE_ONLY
    case Some(x) => Render(ExpectedJson(x))
  }

  lemma SideJsonInjective(a: Side, b: Side)
    requires SideJson(a) == SideJson(b)
    ensures a == b
  {
  }

  lemma ExpectedJsonInjective(a: Expected, b: Expected)
    requires ExpectedJson(a) == ExpectedJson(b)
    ensures a == b
  {
    var u, v := ExpectedJson(a).members, ExpectedJson(b).members;
    assert |u| == |v|;
    if |u| > 0 { assert u[0] == v[0]; }
    if |u| > 1 { assert u[1] == v[1]; }
    if a.baseline.Some? && b.baseline.Some? { SideJsonInjective(a.baseline.value, b.baseline.value); }
    if a.candidate.Some? && b.candidate.Some? { SideJsonInjective(a.candidate.value, b.candidate.value); }
  }

  /** The projection tells the whole expectation; no expectation prints like the marker for none. */
  lemma ProjectionInjective(a: Option<Expected>, b: Option<Expected>)
    requires ProjectionOf(a) == ProjectionOf(b)
    ensures a == b
  {
    assert a.Some? ==> ProjectionOf(a)[0] == '{';
    assert b.Some? ==> ProjectionOf(b)[0] == '{';
    assert PRESENCE_ONLY[0] == '_';
    if a.Some? && b.Some? {
      RenderInjective(ExpectedJson(a.value), ExpectedJson(b.value));
      ExpectedJsonInjective(a.value, b.value);
    }
  }

  // ----- one rule

  function TrimLeft(s: string): string {
    if s != "" && IsSpace(s[0]) then TrimLeft(s[1..]) else s
  }

  function TrimRight(s: string): string {
    if s != "" && IsSpace(s[|s| - 1]) then TrimRight(s[..|s| - 1]) else s
  }

  /** `text.strip()`. */
  function Strip(s: string): string { TrimRight(TrimLeft(s)) }

  predicate ExpectedFits(i: Identity, pointer: string, e: Expected)
    requires ValidIdentity(i)
  {
    && (e.baseline.Some? || e.candidate.Some?)
    && (e.baseline.Some? ==> SideCompatible(i, pointer, e.baseline.value))
    && (e.candidate.Some? ==> SideCompatible(i, pointer, e.candidate.value))
    && !(e.baseline.Some? && e.candidate.Some? && e.baseline == e.candidate)
  }

  /** What a rule of a policy document must satisfy. */
  predicate RuleAcceptable(r: RawRule) {
    var parsed := ParseIdentity(r.selected);
    && Strip(r.id) != ""
    && (r.change == "added" || r.change == "removed" || r.change == "changed")
    && parsed.Some?
    && (r.change != "changed" ==> parsed.value.kind != DataSourceKind && parsed.value.kind != DatabaseKind)
    && (r.change == "changed" <==> r.property.Some?)
    && (r.property.Some? ==> Parse(r.property.value).Some? && ChangeCompatible(parsed.value.kind, r.property.value))
    && (r.expected.Some? ==> r.property.Some? && ExpectedFits(parsed.value, r.property.value, r.expected.value))
  }

  function Normal(r: RawRule): DriftRule {
    DriftRule(Strip(r.id), r.change, r.selected, r.property, r.expected)
  }

  /** The checks of one rule, in the order of the source. */
  method NormalizeRule(r: RawRule) returns (result: Result<DriftRule>)
    ensures result.Success? <==> RuleAcceptable(r)
    ensures result.Success? ==> result.value == Normal(r)
  {
    hide ParseIdentity, Strip, Parse, Print, ChangeCompatible, SideCompatible, SidesEqual, IdentityJson;
    var id := Strip(r.id);
    if id == "" {
      return Failure;
    }
    if r.change != "added" && r.change != "removed" && r.change != "changed" {
      return Failure;
    }
    var identity := ParseIdentity(r.selected);
    if identity.None? {
      return Failure;
    }
    ParsedIdentity(r.selected);
    var i := identity.value;
    if (r.change == "added" || r.change == "removed") && (i.kind == DataSourceKind || i.kind == DatabaseKind) {
      return Failure;
    }
    if r.property.Some? {
      if r.change != "changed" {
        return Failure;
      }
      var parsed := Parse(r.property.value);
      if parsed.None? {
        return Failure;
      }
      PrintParsed(r.property.value);
      if Print(parsed.value) != r.property.value {
        return Failure;
      }
      if !ChangeCompatible(i.kind, r.property.value) {
        return Failure;
      }
    } else if r.change == "changed" {
      return Failure;
    }
    if r.expected.Some? {
      if r.change != "changed" || r.property.None? {
        return Failure;
      }
      var e := r.expected.value;
      if e.baseline.None? && e.candidate.None? {
        return Failure;
      }
      if e.baseline.Some? && !SideCompatible(i, r.property.value, e.baseline.value) {
        return Failure;
      }
      if e.candidate.Some? && !SideCompatible(i, r.property.value, e.candidate.value) {
        return Failure;
      }
      if e.baseline.Some? && e.candidate.Some? {
        SidesEqualSame(e.baseline.value, e.candidate.value);
        if SidesEqual(e.baseline.value, e.candidate.value) {
          return Failure;
        }
      }
    }
    result := Success(DriftRule(id, r.change, IdentityJson(i), r.property, r.expected));
  }

  // ----- whole policies

  /** Property rules are exactly the rules on changes, and only they constrain values. */
  predicate RuleOk(r: DriftRule) {
    && (r.change == "added" || r.change == "removed" || r.change == "changed")
    && (r.change == "changed" <==> r.property.Some?)
    && (r.expected.Some? ==> r.property.Some?)
  }

  ghost predicate IdsDistinct(rules: seq<DriftRule>) {
    forall i, j :: 0 <= i < j < |rules| ==> rules[i].id != rules[j].id
  }

  /** Rules with one selector expect the same. */
  ghost predicate Unambiguous(rules: seq<DriftRule>) {
    forall r, s :: r in rules && s in rules && SelectorOf(r) == SelectorOf(s) ==> r.expected == s.expected
  }

  ghost predicate PolicyOk(rules: seq<DriftRule>) {
    (forall r :: r in rules ==> RuleOk(r)) && IdsDistinct(rules) && Unambiguous(rules)
  }

  function Normals(raws: seq<RawRule>): (r: seq<DriftRule>)
    ensures |r| == |raws| && forall i :: 0 <= i < |r| ==> r[i] == Normal(raws[i])
  {
    if raws == [] then [] else Normals(raws[..|raws| - 1]) + [Normal(raws[|raws| - 1])]
  }

  /** Exactly the documents that give a policy. */
  ghost predicate PolicyAcceptable(raws: seq<RawRule>) {
    (forall r :: r in raws ==> RuleAcceptable(r)) && IdsDistinct(Normals(raws)) && Unambiguous(Normals(raws))
  }

  /** The texts a group of rules projects to. */
  function Projections(rules: seq<DriftRule>): set<string> {
    set r | r in rules :: ProjectionOf(r.expected)
  }

  lemma ProjectionsAgree(rules: seq<DriftRule>)
    ensures |Projections(rules)| > 1 <==> exists r, s :: r in rules && s in rules && r.expected != s.expected
    ensures rules != [] ==> |Projections(rules)| >= 1
  {
    hide ProjectionOf;
    var all := Projections(rules);
    if rules != [] {
      assert rules[0] in rules;
      assert ProjectionOf(rules[0].expected) in all;
    }
    if |all| > 1 {
      var p :| p in all;
      assert |all - {p}| == |all| - 1;
      var q :| q in all - {p};
      var r :| r in rules && ProjectionOf(r.expected) == p;
      var s :| s in rules && ProjectionOf(s.expected) == q;
      assert r.expected != s.expected;
    }
    if exists r, s :: r in rules && s in rules && r.expected != s.expected {
      var r, s :| r in rules && s in rules && r.expected != s.expected;
      if ProjectionOf(r.expected) == ProjectionOf(s.expected) { ProjectionInjective(r.expected, s.expected); }
      var two := {ProjectionOf(r.expected), ProjectionOf(s.expected)};
      assert two <= all && |two| == 2;
      assert |all| == |two| + |all - two|;
    }
  }

  /** The groups of a dictionary by selector, sorted by selector key and checked one by one. */
  method CheckAmbiguity(rules: seq<DriftRule>) returns (ok: bool)
    ensures ok <==> Unambiguous(rules)
  {
    hide SelectorOf, Projections, Select;
    var groups := GroupBy(SelectorOf, rules);
    var rest, errors := groups.Keys, 0;
    while rest != {}
      invariant rest <= groups.Keys && errors >= 0
      invariant errors == 0 ==> forall k :: k in groups && k !in rest ==> |Projections(groups[k])| <= 1
      invariant errors > 0 ==> !Unambiguous(rules)
    {
      var k :| k in rest;
      rest := rest - {k};
      ProjectionsAgree(groups[k]);
      if |Projections(groups[k])| > 1 {
        errors := errors + 1;
      }
    }
    if errors == 0 {
      forall r, s | r in rules && s in rules && SelectorOf(r) == SelectorOf(s) ensures r.expected == s.expected {
        ProjectionsAgree(groups[SelectorOf(r)]);
      }
    }
    ok := errors == 0;
  }

  /** Sorting the dictionary never compares an absent property with a text: the keys differ before that. */
  lemma SelectorsComparable(rules: seq<DriftRule>, r: DriftRule, s: DriftRule)
    requires forall q :: q in rules ==> RuleOk(q)
    requires r in rules && s in rules && SelectorOf(r) != SelectorOf(s)
    ensures SelectorOf(r).change == SelectorOf(s).change && SelectorOf(r).identity == SelectorOf(s).identity ==>
      SelectorOf(r).property.Some? && SelectorOf(s).property.Some?
  {
    assert RuleOk(r) && RuleOk(s);
  }

  lemma AcceptableOk(r: RawRule)
    requires RuleAcceptable(r)
    ensures RuleOk(Normal(r))
  {
    hide ParseIdentity, Strip, Parse, ChangeCompatible, SideCompatible;
  }

  /** The rules read so far: all of them, as long as nothing was refused. */
  ghost predicate Parsed(raws: seq<RawRule>, seen: set<string>, rules: seq<DriftRule>, errors: nat) {
    && (errors == 0 ==> rules == Normals(raws))
    && (errors == 0 <==> (forall r :: r in raws ==> RuleAcceptable(r)) && IdsDistinct(Normals(raws)))
    && (errors == 0 ==> forall id :: id in seen <==> exists r :: r in rules && r.id == id)
  }

  lemma ParseStep(raws: seq<RawRule>, seen: set<string>, rules: seq<DriftRule>, errors: nat, r: RawRule)
    requires Parsed(raws, seen, rules, errors)
    ensures !RuleAcceptable(r) ==> Parsed(raws + [r], seen, rules, errors + 1)
    ensures RuleAcceptable(r) && Normal(r).id in seen ==> Parsed(raws + [r], seen, rules, errors + 1)
    ensures RuleAcceptable(r) && Normal(r).id !in seen ==> Parsed(raws + [r], seen + {Normal(r).id}, rules + [Normal(r)], errors)
  {
    hide RuleAcceptable, Normal;
    var next := raws + [r];
    var n := Normal(r);
    assert next[..|raws|] == raws;
    assert Normals(next) == Normals(raws) + [n];
    assert r in next;
    DistinctAdded(Normals(raws), n);
    if errors == 0 {
      forall id ensures (exists q :: q in rules + [n] && q.id == id) <==> id == n.id || id in seen {
        if id in seen {
          var q :| q in rules && q.id == id;
          assert q in rules + [n];
        }
        assert n in rules + [n];
      }
    }
  }

  lemma DistinctAdded(rules: seq<DriftRule>, n: DriftRule)
    ensures IdsDistinct(rules + [n]) <==> IdsDistinct(rules) && forall q :: q in rules ==> q.id != n.id
  {
    var next := rules + [n];
    if IdsDistinct(next) {
      assert forall i :: 0 <= i < |rules| ==> rules[i] == next[i];
      forall q | q in rules ensures q.id != n.id {
        var i :| 0 <= i < |rules| && rules[i] == q;
        assert next[i].id != next[|rules|].id;
      }
      forall i, j | 0 <= i < j < |rules| ensures rules[i].id != rules[j].id {
        assert next[i].id != next[j].id;
      }
    }
  }

  method ParsePolicy(raws: seq<RawRule>) returns (result: Result<seq<DriftRule>>)
    ensures result.Success? <==> PolicyAcceptable(raws)
    ensures result.Success? ==> result.value == Normals(raws) && PolicyOk(result.value)
  {
    hide RuleAcceptable, Normal, Parsed, IdsDistinct, Unambiguous;
    var rules: seq<DriftRule>, seen: set<string> := [], {};
    var errors: nat := 0;
    NothingParsed();
    for k := 0 to |raws|
      invariant Parsed(raws[..k], seen, rules, errors)
    {
      TakeSnoc(raws, k);
      ParseStep(raws[..k], seen, rules, errors, raws[k]);
      var one := NormalizeRule(raws[k]);
      if one.Failure? {
        errors := errors + 1;
        continue;
      }
      if one.value.id in seen {
        errors := errors + 1;
        continue;
      }
      seen := seen + {one.value.id};
      rules := rules + [one.value];
    }
    assert raws[..|raws|] == raws;
    PolicyParsed(raws, seen, rules, errors);
    if errors > 0 {
      return Failure;
    }
    var clear := CheckAmbiguity(rules);
    if !clear {
      return Failure;
    }
    result := Success(rules);
  }

  lemma NothingParsed()
    ensures Parsed([], {}, [], 0)
  {
  }

  lemma PolicyParsed(raws: seq<RawRule>, seen: set<string>, rules: seq<DriftRule>, errors: nat)
    requires Parsed(raws, seen, rules, errors)
    ensures errors == 0 <==> (forall r :: r in raws ==> RuleAcceptable(r)) && IdsDistinct(Normals(raws))
    ensures errors == 0 ==> rules == Normals(raws) && forall r :: r in rules ==> RuleOk(r)
  {
    hide RuleAcceptable, RuleOk, Normal;
    if errors == 0 {
      forall r | r in rules ensures RuleOk(r) {
        var i :| 0 <= i < |rules| && rules[i] == r;
        assert raws[i] in raws;
        AcceptableOk(raws[i]);
      }
    }
  }
}
