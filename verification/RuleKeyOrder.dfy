/**
 The canonical order of authority rules, on keys as Python holds them: the order in which
 rules are loaded is forgotten except where two keys differ only in unjoined surrogates.
 */
module RuleKeyOrder {
  import opened Outcomes
  import opened Sorting
  import opened JsonText
  import opened JsonOrder
  import opened PythonStrings
  import Pointers
  import opened Authority

  /** The key of a rule, its property as a pointer. */
  datatype PyRuleKey = PyRuleKey(
    kind: PyString, namespace: Option<PyString>, property: PyString,
    providerType: PyString, sourceRef: Option<PyString>)

  function OptionalMember(name: string, s: Option<PyString>): seq<MemberOf<PyString>> {
    match s case None => [] case Some(t) => [Member(Points(name), Str(t))]
  }

  function PySelectorJson(k: PyRuleKey): PyJson {
    Obj([Member(Points("kind"), Str(k.kind))] + OptionalMember("namespace", k.namespace)
      + [Member(Points("property"), Str(k.property))])
  }

  function PyTargetJson(k: PyRuleKey): PyJson {
    Obj([Member(Points("provider_type"), Str(k.providerType))] + OptionalMember("source_ref", k.sourceRef))
  }

  function PyRuleKeyJson(k: PyRuleKey): PyJson {
    Obj([Member(Points("authority"), PyTargetJson(k)), Member(Points("select"), PySelectorJson(k))])
  }

  function PyKeyText(k: PyRuleKey): SortKey { [PyText(PyRuleKeyJson(k))] }

  function JoinOptional(s: Option<PyString>): Option<PyString> {
    match s case None => None case Some(t) => Some(JoinPairs(t))
  }

  function JoinKey(k: PyRuleKey): PyRuleKey {
    PyRuleKey(JoinPairs(k.kind), JoinOptional(k.namespace), JoinPairs(k.property), JoinPairs(k.providerType), JoinOptional(k.sourceRef))
  }

  // ----- keys of scalar texts are keys of code points

  function PointsOptional(s: Option<string>): Option<PyString> {
    match s case None => None case Some(t) => Some(Points(t))
  }

  function PointsKey(k: RuleKey): PyRuleKey {
    var s, t := k.selector, k.authority;
    PyRuleKey(Points(s.kind), PointsOptional(s.namespace), Points(Pointers.Print(s.path)),
      Points(t.providerType), PointsOptional(t.sourceRef))
  }

  lemma PointsMembers(u: seq<Member>, v: seq<MemberOf<PyString>>)
    requires |u| == |v|
    requires forall i :: 0 <= i < |u| ==> v[i].name == Points(u[i].name) && v[i].value == PointsValue(u[i].value)
    ensures PointsValue(Obj(u)) == Obj(v)
  {
    hide Points;
    var x := MapMembers(Points, u);
    assert forall i :: 0 <= i < |u| ==> x[i] == Member(Points(u[i].name), PointsValue(u[i].value));
    assert x == v;
  }

  lemma SelectorPoints(k: RuleKey)
    ensures PointsValue(SelectorJson(k.selector)) == PySelectorJson(PointsKey(k))
  {
    hide Points, Pointers.Print;
    PointsMembers(SelectorJson(k.selector).members, PySelectorJson(PointsKey(k)).members);
  }

  lemma TargetPoints(k: RuleKey)
    ensures PointsValue(TargetJson(k.authority)) == PyTargetJson(PointsKey(k))
  {
    hide Points;
    PointsMembers(TargetJson(k.authority).members, PyTargetJson(PointsKey(k)).members);
  }

  /** The text that orders a rule is that of its key as Python holds it. */
  lemma KeyTextPoints(k: RuleKey)
    ensures Authority.KeyText(k) == PyKeyText(PointsKey(k))
  {
    hide Points, PySelectorJson, PyTargetJson, SelectorJson, TargetJson, PointsKey;
    SelectorPoints(k);
    TargetPoints(k);
    PointsMembers(RuleKeyJson(k).members, PyRuleKeyJson(PointsKey(k)).members);
    PointsText(RuleKeyJson(k));
  }

  // ----- which keys have one text

  /** Members whose values join alike, one by one. */
  ghost predicate SameValues(u: seq<MemberOf<PyString>>, v: seq<MemberOf<PyString>>) {
    |u| == |v| && forall i :: 0 <= i < |u| ==>
      JoinPairs(u[i].name) == JoinPairs(v[i].name) && JoinValue(u[i].value) == JoinValue(v[i].value)
  }

  lemma SameMembers(u: seq<MemberOf<PyString>>, v: seq<MemberOf<PyString>>)
    ensures JoinValue(Obj(u)) == JoinValue(Obj(v)) <==> SameValues(u, v)
  {
    hide JoinPairs;
    var x, y := MapMembers(JoinString, u), MapMembers(JoinString, v);
    assert forall i :: 0 <= i < |u| ==> x[i] == Member(JoinString(u[i].name), JoinValue(u[i].value));
    assert forall i :: 0 <= i < |v| ==> y[i] == Member(JoinString(v[i].name), JoinValue(v[i].value));
    if SameValues(u, v) {
      assert x == y;
    }
    if x == y {
      forall i | 0 <= i < |u|
        ensures JoinPairs(u[i].name) == JoinPairs(v[i].name) && JoinValue(u[i].value) == JoinValue(v[i].value)
      {
        assert x[i] == y[i];
      }
    }
  }

  lemma SameStr(s: PyString, t: PyString)
    ensures JoinValue(Str(s)) == JoinValue(Str(t)) <==> JoinPairs(s) == JoinPairs(t)
  {
    hide JoinPairs;
  }

  lemma SameTarget(k: PyRuleKey, l: PyRuleKey)
    ensures JoinValue(PyTargetJson(k)) == JoinValue(PyTargetJson(l)) <==>
      JoinPairs(k.providerType) == JoinPairs(l.providerType) && JoinOptional(k.sourceRef) == JoinOptional(l.sourceRef)
  {
    hide JoinPairs, Points, JoinValue;
    var u, v := PyTargetJson(k).members, PyTargetJson(l).members;
    SameMembers(u, v);
    SameStr(k.providerType, l.providerType);
    if k.sourceRef.Some? && l.sourceRef.Some? {
      SameStr(k.sourceRef.value, l.sourceRef.value);
      assert SameValues(u, v) <==> JoinValue(u[0].value) == JoinValue(v[0].value) && JoinValue(u[1].value) == JoinValue(v[1].value);
    } else if k.sourceRef.None? && l.sourceRef.None? {
      assert SameValues(u, v) <==> JoinValue(u[0].value) == JoinValue(v[0].value);
    }
  }

  lemma SameSelector(k: PyRuleKey, l: PyRuleKey)
    ensures JoinValue(PySelectorJson(k)) == JoinValue(PySelectorJson(l)) <==>
      && JoinPairs(k.kind) == JoinPairs(l.kind) && JoinOptional(k.namespace) == JoinOptional(l.namespace)
      && JoinPairs(k.property) == JoinPairs(l.property)
  {
    hide JoinPairs, Points, JoinValue;
    var u, v := PySelectorJson(k).members, PySelectorJson(l).members;
    SameMembers(u, v);
    SameStr(k.kind, l.kind);
    SameStr(k.property, l.property);
    if k.namespace.Some? && l.namespace.Some? {
      SameStr(k.namespace.value, l.namespace.value);
      var last := JoinValue(u[2].value) == JoinValue(v[2].value);
      assert SameValues(u, v) <==> JoinValue(u[0].value) == JoinValue(v[0].value) && JoinValue(u[1].value) == JoinValue(v[1].value) && last;
    } else if k.namespace.None? && l.namespace.None? {
      assert SameValues(u, v) <==> JoinValue(u[0].value) == JoinValue(v[0].value) && JoinValue(u[1].value) == JoinValue(v[1].value);
    }
  }

  /** Two rule keys have one canonical text exactly if they are equal once joined. */
  lemma SameKeyTextExactly(k: PyRuleKey, l: PyRuleKey)
    ensures PyKeyText(k) == PyKeyText(l) <==> JoinKey(k) == JoinKey(l)
  {
    hide JoinPairs, Points, MapMembers, PyText, PySelectorJson, PyTargetJson;
    var u, v := PyRuleKeyJson(k).members, PyRuleKeyJson(l).members;
    assert PyKeyText(k) == PyKeyText(l) <==> PyKeyText(k)[0] == PyKeyText(l)[0];
    SameValueTextExactly(PyRuleKeyJson(k), PyRuleKeyJson(l));
    SameMembers(u, v);
    assert SameValues(u, v) <==> JoinValue(u[0].value) == JoinValue(v[0].value) && JoinValue(u[1].value) == JoinValue(v[1].value);
    SameTarget(k, l);
    SameSelector(k, l);
  }

  // ----- the order of rules

  /** The rules of different keys come out in one order, however they were loaded, exactly if no two keys are equal once joined. */
  lemma RuleOrderExactly(keys: seq<PyRuleKey>)
    requires NoRepeats(keys)
    ensures ForgetsOrder(PyKeyText, keys)
       <==> forall k, l :: k in keys && l in keys && JoinKey(k) == JoinKey(l) ==> k == l
  {
    hide ForgetsOrder, PyKeyText, JoinKey;
    ForgetsOrderExactly(PyKeyText, keys);
    forall k, l ensures PyKeyText(k) == PyKeyText(l) <==> JoinKey(k) == JoinKey(l) {
      SameKeyTextExactly(k, l);
    }
  }

  /** Two rules for different namespaces that stay in the order in which they were loaded. */
  lemma NamespacesTie(k: PyRuleKey)
    ensures var a, b := k.(namespace := Some([0xD83D, 0xDE00])), k.(namespace := Some([0x1F600]));
      && a != b && PyKeyText(a) == PyKeyText(b)
      && SortBy(PyKeyText, [a, b]) == [a, b] && SortBy(PyKeyText, [b, a]) == [b, a]
  {
    hide PyKeyText;
    var s: PyString, t: PyString := [0xD83D, 0xDE00], [0x1F600];
    var a, b := k.(namespace := Some(s)), k.(namespace := Some(t));
    assert |s| != |t|;
    assert a.namespace.value == s && b.namespace.value == t;
    SurrogatesCollide();
    SameTextExactly(s, t);
    SameKeyTextExactly(a, b);
    TieStays(PyKeyText, a, b);
    TieStays(PyKeyText, b, a);
  }
}
