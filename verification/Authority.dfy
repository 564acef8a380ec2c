/**
 Authority rules: which provenance is authoritative for which property. A loaded rule set never
 names two targets for one selector, so the most specific matching rule is unique.
 */
module Authority {
  import opened Outcomes
  import opened Sorting
  import opened JsonText
  import opened JsonOrder
  import opened Pointers
  import opened Graphs
  import opened Observations

  datatype Selector = Selector(kind: string, path: PropertyPath, namespace: Option<string>) {
    predicate Matches(subject: NodeId, p: PropertyPath) {
      if subject.kind != kind then false
      else if p != path then false
      else namespace.None? || Some(subject.namespace) == namespace
    }

    function Rank(): nat {
      if namespace.Some? then 2 else 1
    }
  }

  datatype Target = Target(providerType: string, sourceRef: Option<string>) {
    predicate Matches(r: Provenance) {
      if r.providerType != providerType then false
      else sourceRef.None? || Some(r.sourceRef) == sourceRef
    }
  }

  datatype RuleKey = RuleKey(selector: Selector, authority: Target)

  datatype Declaration = Declaration(configId: string, description: Option<string>)

  datatype Rule = Rule(key: RuleKey, declarations: seq<Declaration>)

  // ----- canonical order

  function SelectorJson(s: Selector): Json {
    Obj([Member("kind", Str(s.kind))]
      + (match s.namespace case None => [] case Some(n) => [Member("namespace", Str(n))])
      + [Member("property", Str(Print(s.path)))])
  }

  function TargetJson(t: Target): Json {
    Obj([Member("provider_type", Str(t.providerType))]
      + (match t.sourceRef case None => [] case Some(r) => [Member("source_ref", Str(r))]))
  }

  function RuleKeyJson(k: RuleKey): Json {
    Obj([Member("authority", TargetJson(k.authority)), Member("select", SelectorJson(k.selector))])
  }

  function KeyText(k: RuleKey): SortKey { [Render(RuleKeyJson(k))] }

  lemma SelectorJsonInjective(a: Selector, b: Selector)
    requires SelectorJson(a) == SelectorJson(b)
    ensures a == b
  {
    hide Print;
    var u, v := SelectorJson(a).members, SelectorJson(b).members;
    assert |u| == |v|;
    assert u[0] == v[0] && u[1] == v[1];
    if a.namespace.Some? { assert u[2] == v[2]; }
    PrintInjective(a.path, b.path);
  }

  lemma TargetJsonInjective(a: Target, b: Target)
    requires TargetJson(a) == TargetJson(b)
    ensures a == b
  {
    var u, v := TargetJson(a).members, TargetJson(b).members;
    assert |u| == |v| && u[0] == v[0];
    if a.sourceRef.Some? { assert u[1] == v[1]; }
  }

  lemma KeyTextInjective()
    ensures InjectiveKey(KeyText)
  {
    forall a, b | KeyText(a) == KeyText(b) ensures a == b {
      assert KeyText(a)[0] == KeyText(b)[0];
      RenderInjective(RuleKeyJson(a), RuleKeyJson(b));
      var u, v := RuleKeyJson(a).members, RuleKeyJson(b).members;
      assert u[0] == v[0] && u[1] == v[1];
      SelectorJsonInjective(a.selector, b.selector);
      TargetJsonInjective(a.authority, b.authority);
    }
  }

  function RuleOrder(r: Rule): SortKey { KeyText(r.key) }

  function DeclarationKey(d: Declaration): SortKey {
    [d.configId, match d.description case None => "" case Some(t) => t]
  }

  /** The constructor refuses an empty description. */
  predicate DeclarationOk(d: Declaration) {
    d.description != Some("")
  }

  lemma DeclarationKeyInjective(a: Declaration, b: Declaration)
    requires DeclarationOk(a) && DeclarationOk(b) && DeclarationKey(a) == DeclarationKey(b)
    ensures a == b
  {
    assert DeclarationKey(a)[0] == DeclarationKey(b)[0] && DeclarationKey(a)[1] == DeclarationKey(b)[1];
  }

  // ----- normalized rule sets

  /** One rule with one declaration, as read from a file. */
  datatype Entry = Entry(key: RuleKey, declaration: Declaration)

  ghost predicate EntriesOk(entries: seq<Entry>) {
    forall e :: e in entries ==> DeclarationOk(e.declaration)
  }

  ghost predicate Declares(entries: seq<Entry>, k: RuleKey, d: Declaration) {
    exists e :: e in entries && e.key == k && e.declaration == d
  }

  ghost predicate HasKey(entries: seq<Entry>, k: RuleKey) {
    exists e :: e in entries && e.key == k
  }

  /** `r` carries exactly the declarations of its key, in order. */
  ghost predicate Collapses(entries: seq<Entry>, r: Rule) {
    && HasKey(entries, r.key) && StrictlyOrdered(DeclarationKey, r.declarations)
    && forall d :: d in r.declarations <==> Declares(entries, r.key, d)
  }

  ghost predicate HasRule(rules: seq<Rule>, k: RuleKey) {
    exists r :: r in rules && r.key == k
  }

  /** `rules` is the normalized set of `entries`: one rule for each key, in canonical order. */
  ghost predicate RulesOf(entries: seq<Entry>, rules: seq<Rule>) {
    && StrictlyOrdered(RuleOrder, rules)
    && (forall e :: e in entries ==> HasRule(rules, e.key))
    && (forall r :: r in rules ==> Collapses(entries, r))
  }

  /** The normalized set does not depend on the order or repetition of its entries. */
  lemma RulesUnique(a: seq<Entry>, b: seq<Entry>, x: seq<Rule>, y: seq<Rule>)
    requires forall e :: e in a <==> e in b
    requires RulesOf(a, x) && RulesOf(b, y)
    ensures x == y
  {
    hide KeyText;
    forall r ensures r in x <==> r in y {
      if r in x { RuleIn(a, b, x, y, r); }
      if r in y { RuleIn(b, a, y, x, r); }
    }
    StrictlyOrderedUnique(RuleOrder, x, y);
  }

  lemma RuleIn(a: seq<Entry>, b: seq<Entry>, x: seq<Rule>, y: seq<Rule>, r: Rule)
    requires forall e :: e in a <==> e in b
    requires RulesOf(a, x) && RulesOf(b, y) && r in x
    ensures r in y
  {
    hide KeyText, DeclarationKey;
    var e :| e in a && e.key == r.key;
    var s :| s in y && s.key == e.key;
    forall d ensures d in r.declarations <==> d in s.declarations {
      if Declares(a, r.key, d) {
        var f :| f in a && f.key == r.key && f.declaration == d;
        assert f in b;
      }
      if Declares(b, r.key, d) {
        var f :| f in b && f.key == r.key && f.declaration == d;
        assert f in a;
      }
    }
    StrictlyOrderedUnique(DeclarationKey, r.declarations, s.declarations);
  }

  function KeyOf(e: Entry): RuleKey { e.key }

  function Declarations(entries: seq<Entry>): (r: seq<Declaration>)
    ensures |r| == |entries| && forall i :: 0 <= i < |r| ==> r[i] == entries[i].declaration
  {
    if entries == [] then [] else [entries[0].declaration] + Declarations(entries[1..])
  }

  lemma GroupCollapses(entries: seq<Entry>, group: seq<Entry>, r: Rule)
    requires group != [] && (forall e :: e in group <==> e in entries && e.key == r.key)
    requires StrictlyOrdered(DeclarationKey, r.declarations) && forall d :: d in r.declarations <==> d in Declarations(group)
    ensures Collapses(entries, r)
  {
    assert group[0] in entries;
    forall d ensures d in Declarations(group) <==> Declares(entries, r.key, d) {
      if d in Declarations(group) {
        var i :| 0 <= i < |group| && Declarations(group)[i] == d;
        assert group[i] in entries;
      }
      if Declares(entries, r.key, d) {
        var e :| e in entries && e.key == r.key && e.declaration == d;
        var i :| 0 <= i < |group| && group[i] == e;
        assert Declarations(group)[i] == d;
      }
    }
  }

  /** Collapses entries of one key, keeps different keys apart, sorts: in any order of the dictionary. */
  method NormalizeRules(entries: seq<Entry>) returns (rules: seq<Rule>)
    requires EntriesOk(entries)
    ensures RulesOf(entries, rules)
  {
    hide DeclarationKey, KeyText, Collapses, HasRule, SortBy;
    var groups := GroupBy(KeyOf, entries);
    var rest, collapsed: seq<Rule> := groups.Keys, [];
    while rest != {}
      invariant rest <= groups.Keys
      invariant forall k :: k in groups && k !in rest ==> HasRule(collapsed, k)
      invariant forall r :: r in collapsed ==> Collapses(entries, r) && r.key in groups && r.key !in rest
      invariant forall i, j :: 0 <= i < j < |collapsed| ==> collapsed[i].key != collapsed[j].key
    {
      var k :| k in rest;
      var one := CollapseGroup(entries, groups[k], k);
      RuleAdded(collapsed, one);
      collapsed, rest := collapsed + [one], rest - {k};
    }
    SortRules(collapsed);
    rules := SortBy(RuleOrder, collapsed);
  }

  lemma RuleAdded(collapsed: seq<Rule>, one: Rule)
    ensures forall k :: HasRule(collapsed, k) || k == one.key ==> HasRule(collapsed + [one], k)
  {
  }

  lemma SortRules(collapsed: seq<Rule>)
    requires forall i, j :: 0 <= i < j < |collapsed| ==> collapsed[i].key != collapsed[j].key
    ensures StrictlyOrdered(RuleOrder, SortBy(RuleOrder, collapsed))
    ensures forall r :: r in SortBy(RuleOrder, collapsed) <==> r in collapsed
    ensures forall k :: HasRule(collapsed, k) ==> HasRule(SortBy(RuleOrder, collapsed), k)
  {
    hide KeyText, SortBy, Insert;
    KeyTextInjective();
    SortByStrict(RuleOrder, collapsed);
    SortByOrdered(RuleOrder, collapsed);
  }

  method CollapseGroup(ghost entries: seq<Entry>, group: seq<Entry>, k: RuleKey) returns (r: Rule)
    requires EntriesOk(entries) && group != [] && forall e :: e in group <==> e in entries && e.key == k
    ensures r.key == k && Collapses(entries, r)
  {
    hide DeclarationKey;
    var declarations := Declarations(group);
    forall a, b | a in declarations && b in declarations && DeclarationKey(a) == DeclarationKey(b) ensures a == b {
      var i :| 0 <= i < |group| && declarations[i] == a;
      var j :| 0 <= j < |group| && declarations[j] == b;
      assert group[i] in entries && group[j] in entries;
      DeclarationKeyInjective(a, b);
    }
    var ordered := SortDistinct(DeclarationKey, declarations);
    r := Rule(k, ordered);
    GroupCollapses(entries, group, r);
  }

  // ----- loading

  /** The entries of the files, one file after the other; a file that could not be read has none. */
  function Collected(files: seq<Option<seq<Entry>>>): seq<Entry> {
    if files == [] then []
    else
      var n := |files| - 1;
      Collected(files[..n]) + if files[n].Some? then files[n].value else []
  }

  ghost predicate AllRead(files: seq<Option<seq<Entry>>>) {
    forall k :: 0 <= k < |files| ==> files[k].Some?
  }

  ghost predicate IdsDistinct(entries: seq<Entry>) {
    forall i, j :: 0 <= i < j < |entries| ==> entries[i].declaration.configId != entries[j].declaration.configId
  }

  /** No selector is given two targets. */
  ghost predicate Unambiguous(entries: seq<Entry>) {
    forall e, f :: e in entries && f in entries && e.key.selector == f.key.selector ==> e.key == f.key
  }

  ghost predicate Loadable(files: seq<Option<seq<Entry>>>) {
    AllRead(files) && IdsDistinct(Collected(files)) && Unambiguous(Collected(files))
  }

  ghost predicate IdUsed(entries: seq<Entry>, id: string) {
    exists e :: e in entries && e.declaration.configId == id
  }

  /** The ids met so far, and the entries kept: those whose id was new. */
  ghost predicate Reading(entries: seq<Entry>, seen: set<string>, collected: seq<Entry>, errors: nat) {
    && (forall id :: id in seen <==> IdUsed(entries, id))
    && (errors == 0 ==> collected == entries && IdsDistinct(entries))
    && (IdsDistinct(entries) ==> errors == 0)
  }

  lemma ReadStep(entries: seq<Entry>, seen: set<string>, collected: seq<Entry>, errors: nat, e: Entry)
    requires Reading(entries, seen, collected, errors)
    ensures var id := e.declaration.configId;
      if id in seen then Reading(entries + [e], seen, collected, errors + 1)
      else Reading(entries + [e], seen + {id}, collected + [e], errors)
  {
    var next, id := entries + [e], e.declaration.configId;
    assert e in next;
    forall i ensures IdUsed(next, i) <==> i == id || IdUsed(entries, i) {
      if IdUsed(entries, i) {
        var f :| f in entries && f.declaration.configId == i;
        assert f in next;
      }
    }
    if IdsDistinct(next) {
      assert forall i :: 0 <= i < |entries| ==> entries[i] == next[i];
      forall f | f in entries ensures f.declaration.configId != id {
        var i :| 0 <= i < |entries| && entries[i] == f;
        assert next[i] == f && next[|entries|] == e;
      }
    }
  }

  /** The loop over one file's rules. */
  method ReadFile(rules: seq<Entry>, ghost before: seq<Entry>, seen0: set<string>, collected0: seq<Entry>, errors0: nat)
    returns (seen: set<string>, collected: seq<Entry>, errors: nat)
    requires Reading(before, seen0, collected0, errors0)
    ensures Reading(before + rules, seen, collected, errors)
  {
    hide Reading;
    seen, collected, errors := seen0, collected0, errors0;
    assert before + rules[..0] == before;
    for k := 0 to |rules|
      invariant Reading(before + rules[..k], seen, collected, errors)
    {
      var id := rules[k].declaration.configId;
      assert before + rules[..k + 1] == before + rules[..k] + [rules[k]];
      ReadStep(before + rules[..k], seen, collected, errors, rules[k]);
      if id in seen {
        errors := errors + 1;
      } else {
        seen := seen + {id};
        collected := collected + [rules[k]];
      }
    }
    assert rules[..|rules|] == rules;
  }

  /** The check for selectors with several keys, over the dictionary of selectors. */
  method CheckAmbiguity(entries: seq<Entry>) returns (ok: bool)
    ensures ok <==> Unambiguous(entries)
  {
    var selectorToKeys: map<Selector, set<RuleKey>> := map[];
    for k := 0 to |entries|
      invariant forall e :: e in entries[..k] ==> e.key.selector in selectorToKeys && e.key in selectorToKeys[e.key.selector]
      invariant forall s, key :: s in selectorToKeys && key in selectorToKeys[s] ==> key.selector == s && HasKey(entries, key)
    {
      var key := entries[k].key;
      assert entries[..k + 1] == entries[..k] + [entries[k]];
      assert HasKey(entries, key);
      selectorToKeys := selectorToKeys[key.selector := (if key.selector in selectorToKeys then selectorToKeys[key.selector] else {}) + {key}];
    }
    assert entries[..|entries|] == entries;
    var rest, errors := selectorToKeys.Keys, 0;
    while rest != {}
      invariant rest <= selectorToKeys.Keys && errors >= 0
      invariant errors == 0 ==> forall s :: s in selectorToKeys && s !in rest ==> |selectorToKeys[s]| <= 1
      invariant errors > 0 ==> !Unambiguous(entries)
    {
      var s :| s in rest;
      rest := rest - {s};
      if |selectorToKeys[s]| > 1 {
        TwoKeys(entries, selectorToKeys[s], s);
        errors := errors + 1;
      }
    }
    if errors == 0 {
      forall e, f | e in entries && f in entries && e.key.selector == f.key.selector ensures e.key == f.key {
        OneKey(selectorToKeys[e.key.selector], e.key, f.key);
      }
    }
    ok := errors == 0;
  }

  lemma TwoKeys(entries: seq<Entry>, keys: set<RuleKey>, s: Selector)
    requires |keys| > 1 && forall k :: k in keys ==> k.selector == s && HasKey(entries, k)
    ensures !Unambiguous(entries)
  {
    var a :| a in keys;
    assert |keys - {a}| == |keys| - 1;
    var b :| b in keys - {a};
    var e :| e in entries && e.key == a;
    var f :| f in entries && f.key == b;
  }

  lemma OneKey(keys: set<RuleKey>, a: RuleKey, b: RuleKey)
    requires |keys| <= 1 && a in keys && b in keys
    ensures a == b
  {
    if a != b {
      assert {a, b} <= keys;
      assert |{a, b}| == 2;
      SubsetSize({a, b}, keys);
    }
  }

  lemma {:induction false} SubsetSize<T>(a: set<T>, b: set<T>)
    requires a <= b
    ensures |a| <= |b|
  {
    if a != {} {
      var x :| x in a;
      SubsetSize(a - {x}, b - {x});
    }
  }

  /** Loading: read everything, refuse duplicate ids and ambiguous selectors, then normalize. */
  method LoadRules(files: seq<Option<seq<Entry>>>) returns (r: Result<seq<Rule>>)
    requires EntriesOk(Collected(files))
    ensures r.Success? <==> Loadable(files)
    ensures r.Success? ==> RulesOf(Collected(files), r.value)
  {
    hide Reading, RulesOf, IdsDistinct, Unambiguous;
    var collected: seq<Entry>, seen: set<string> := [], {};
    var unread: nat, duplicates: nat := 0, 0;
    NothingRead();
    for k := 0 to |files|
      invariant unread == 0 <==> forall l :: 0 <= l < k ==> files[l].Some?
      invariant Reading(Collected(files[..k]), seen, collected, duplicates)
    {
      assert files[..k + 1][..k] == files[..k];
      if files[k].None? {
        unread := unread + 1;
        assert Collected(files[..k]) + [] == Collected(files[..k]);
      } else {
        seen, collected, duplicates := ReadFile(files[k].value, Collected(files[..k]), seen, collected, duplicates);
      }
    }
    assert files[..|files|] == files;
    ReadingDone(Collected(files), seen, collected, duplicates);
    if unread + duplicates > 0 {
      return Failure;
    }
    var clear := CheckAmbiguity(collected);
    if !clear {
      return Failure;
    }
    var rules := NormalizeRules(collected);
    r := Success(rules);
  }

  lemma NothingRead()
    ensures Reading([], {}, [], 0)
  {
  }

  lemma ReadingDone(entries: seq<Entry>, seen: set<string>, collected: seq<Entry>, errors: nat)
    requires Reading(entries, seen, collected, errors)
    ensures errors == 0 <==> IdsDistinct(entries)
    ensures errors == 0 ==> collected == entries
  {
  }

  // ----- what does not depend on the order of files and rules

  lemma DistinctPermuted(a: seq<Entry>, b: seq<Entry>)
    requires multiset(a) == multiset(b) && IdsDistinct(a)
    ensures IdsDistinct(b)
  {
    NoRepeatsPermuted(a, b);
    forall i, j | 0 <= i < j < |b| ensures b[i].declaration.configId != b[j].declaration.configId {
      assert b[i] in multiset(b) && b[j] in multiset(b);
      var p :| 0 <= p < |a| && a[p] == b[i];
      var q :| 0 <= q < |a| && a[q] == b[j];
    }
  }

  /** The same files, or the same entries in other files, in any order. */
  ghost predicate Rearranged(a: seq<Option<seq<Entry>>>, b: seq<Option<seq<Entry>>>) {
    (AllRead(a) <==> AllRead(b)) && multiset(Collected(a)) == multiset(Collected(b))
  }

  lemma {:induction false} CollectedSplit(a: seq<Option<seq<Entry>>>, b: seq<Option<seq<Entry>>>)
    ensures Collected(a + b) == Collected(a) + Collected(b)
  {
    if b == [] {
      assert a + b == a;
    } else {
      var n := |b| - 1;
      assert (a + b)[..|a| + n] == a + b[..n];
      CollectedSplit(a, b[..n]);
    }
  }

  lemma {:induction false} CollectedPermuted(a: seq<Option<seq<Entry>>>, b: seq<Option<seq<Entry>>>)
    requires multiset(a) == multiset(b)
    ensures multiset(Collected(a)) == multiset(Collected(b))
  {
    if a == [] {
      assert |multiset(b)| == 0;
    } else {
      hide Collected;
      var n := |a| - 1;
      var f := a[n];
      assert a == a[..n] + [f];
      assert f in multiset(b);
      var i :| 0 <= i < |b| && b[i] == f;
      var before, after := b[..i], b[i + 1..];
      assert b == before + ([f] + after);
      assert multiset(a[..n]) == multiset(a) - multiset{f};
      assert multiset(before + after) == multiset(b) - multiset{f};
      CollectedPermuted(a[..n], before + after);
      CollectedSplit(before, [f] + after);
      CollectedSplit([f], after);
      CollectedSplit(before, after);
      CollectedSplit(a[..n], [f]);
    }
  }

  /** Files in another order are rearranged, whether they can be read or not. */
  lemma PermutedRearranged(a: seq<Option<seq<Entry>>>, b: seq<Option<seq<Entry>>>)
    requires multiset(a) == multiset(b)
    ensures Rearranged(a, b)
  {
    CollectedPermuted(a, b);
    assert forall f :: f in a <==> f in multiset(a);
    assert forall f :: f in b <==> f in multiset(b);
    assert AllRead(a) <==> forall f :: f in a ==> f.Some?;
    assert AllRead(b) <==> forall f :: f in b ==> f.Some?;
  }

  /** Whether the files load, and to what, does not depend on the order of files and rules. */
  lemma LoadIgnoresOrder(a: seq<Option<seq<Entry>>>, b: seq<Option<seq<Entry>>>, x: seq<Rule>, y: seq<Rule>)
    requires multiset(a) == multiset(b) || Rearranged(a, b)
    ensures Loadable(a) <==> Loadable(b)
    ensures RulesOf(Collected(a), x) && RulesOf(Collected(b), y) ==> x == y
  {
    hide RulesOf, Collected;
    if multiset(a) == multiset(b) { PermutedRearranged(a, b); }
    var u, v := Collected(a), Collected(b);
    assert forall e :: e in u <==> e in multiset(u);
    assert forall e :: e in v <==> e in multiset(v);
    if IdsDistinct(u) { DistinctPermuted(u, v); }
    if IdsDistinct(v) { DistinctPermuted(v, u); }
    if RulesOf(u, x) && RulesOf(v, y) {
      RulesUnique(u, v, x, y);
    }
  }

  // ----- matching

  /** The rules whose selector matches, in order. */
  function MatchingRules(rules: seq<Rule>, subject: NodeId, path: PropertyPath): (r: seq<Rule>)
    ensures forall x :: x in r <==> x in rules && x.key.selector.Matches(subject, path)
  {
    if rules == [] then []
    else
      (if rules[0].key.selector.Matches(subject, path) then [rules[0]] else [])
      + MatchingRules(rules[1..], subject, path)
  }

  /** `k` is the key of a matching rule, and no matching rule is more specific. */
  ghost predicate IsTop(rules: seq<Rule>, subject: NodeId, path: PropertyPath, k: RuleKey) {
    && HasRule(rules, k) && k.selector.Matches(subject, path)
    && forall r :: r in rules && r.key.selector.Matches(subject, path) ==> r.key.selector.Rank() <= k.selector.Rank()
  }

  /** Two selectors of equal rank that match one property are the same selector. */
  lemma SelectorDetermined(a: Selector, b: Selector, subject: NodeId, path: PropertyPath)
    requires a.Matches(subject, path) && b.Matches(subject, path) && a.Rank() == b.Rank()
    ensures a == b
  {
  }

  /** Among loaded rules at most one is the most specific for any object and property. */
  lemma TopUnique(entries: seq<Entry>, rules: seq<Rule>, subject: NodeId, path: PropertyPath, k: RuleKey, l: RuleKey)
    requires Unambiguous(entries) && RulesOf(entries, rules)
    requires IsTop(rules, subject, path, k) && IsTop(rules, subject, path, l)
    ensures k == l
  {
  }

  /** A namespace that no rule names. */
  function FreshNamespace(rules: seq<Rule>): (n: string)
    ensures n != "" && forall r :: r in rules && r.key.selector.namespace.Some? ==> |r.key.selector.namespace.value| < |n|
  {
    if rules == [] then "n"
    else
      var n := FreshNamespace(rules[1..]);
      n + match rules[0].key.selector.namespace case None => "" case Some(m) => m
  }

  /** Two targets of one selector tie for some object of the selector's kind, with any logical id and parent. */
  lemma SelectorTies(rules: seq<Rule>, k: RuleKey, l: RuleKey, logicalId: string, parent: Option<NodeId>)
    returns (subject: NodeId)
    requires HasRule(rules, k) && HasRule(rules, l) && k.selector == l.selector
    ensures subject.kind == k.selector.kind && subject.logicalId == logicalId && subject.parent == parent
    ensures IsTop(rules, subject, k.selector.path, k) && IsTop(rules, subject, k.selector.path, l)
  {
    var s := k.selector;
    var namespace := match s.namespace case Some(n) => n case None => FreshNamespace(rules);
    subject := NodeId(namespace, s.kind, logicalId, parent);
  }

  /** No object and property has two most specific rules. */
  ghost predicate Untied(rules: seq<Rule>) {
    forall subject, path, k, l :: IsTop(rules, subject, path, k) && IsTop(rules, subject, path, l) ==> k == l
  }

  /** The loader refuses exactly the rule sets under which some property could have two most specific rules. */
  lemma UntiedExactly(entries: seq<Entry>, rules: seq<Rule>)
    requires RulesOf(entries, rules)
    ensures Untied(rules) <==> Unambiguous(entries)
  {
    if Unambiguous(entries) {
      forall subject, path, k, l | IsTop(rules, subject, path, k) && IsTop(rules, subject, path, l) ensures k == l {
        TopUnique(entries, rules, subject, path, k, l);
      }
    } else {
      var e, f :| e in entries && f in entries && e.key.selector == f.key.selector && e.key != f.key;
      var subject := SelectorTies(rules, e.key, f.key, "id", Some(NodeId("n", "table", "t", None)));
    }
  }
}
