/** The independent check of a persisted comparison, written against untrusted input. */
module ComparisonCheck {
  import opened Texts
  import opened Sorting
  import opened Outcomes
  import opened JsonText
  import opened JsonOrder
  import opened Pointers
  import opened Identities
  import opened Declarations
  import opened PropertyChecks
  import opened Comparisons
  import opened Artifacts
  import opened Projection

  // ----- what an acceptable comparison is

  /** Both sides were scanned by the same scanner, under the supported contract, from the same kind of system. */
  predicate ProducersAgree(c: Comparison) {
    && c.baseline.systemType == c.candidate.systemType
    && c.baseline.scanner == c.candidate.scanner
    && c.baseline.scannerContractVersion == SCANNER_CONTRACT_VERSION
    && c.candidate.scannerContractVersion == SCANNER_CONTRACT_VERSION
  }

  function ExpectedAlignment(baseline: string, candidate: string): Option<NamePair> {
    if baseline == candidate then None else Some(NamePair(baseline, candidate))
  }

  predicate AlignmentStated(c: Comparison) {
    && c.rootAlignment.source == ExpectedAlignment(c.baseline.sourceName, c.candidate.sourceName)
    && c.rootAlignment.database == ExpectedAlignment(c.baseline.databaseName, c.candidate.databaseName)
  }

  /** The stated parent is the one that the identity implies. */
  predicate ParentMatches(i: Identity, parent: Json)
    requires ValidIdentity(i)
  {
    match ExpectedParent(i)
    case None => parent == Null
    case Some(p) => ParseIdentity(parent) == Some(p)
  }

  /** A property change has a pointer and values that fit the object, and the values differ. */
  predicate PropertyAccepted(i: Identity, c: PropertyChange)
    requires ValidIdentity(i)
  {
    && Parse(c.property).Some? && ChangeCompatible(i.kind, c.property)
    && SideCompatible(i, c.property, c.baseline) && SideCompatible(i, c.property, c.candidate)
    && c.baseline != c.candidate
  }

  ghost predicate PropertiesAccepted(i: Identity, changes: seq<PropertyChange>)
    requires ValidIdentity(i)
  {
    && changes != [] && StrictlyOrdered(PointerKey, changes)
    && (forall c :: c in changes ==> PropertyAccepted(i, c))
    && (i.kind == ForeignKeyKind ==> ForeignKeyCoherent(changes))
  }

  ghost predicate EntryAccepted(c: ObjectChange) {
    var parsed := ParseIdentity(c.objectIdentity);
    && parsed.Some? && ParentMatches(parsed.value, c.parentIdentity)
    && (c.change == "added" || c.change == "removed" || c.change == "changed")
    && (if c.change == "changed" then PropertiesAccepted(parsed.value, c.propertyChanges) else c.propertyChanges == [])
  }

  /** No identity has two entries. */
  ghost predicate DistinctIdentities(changes: seq<ObjectChange>) {
    forall k, l :: 0 <= k < l < |changes| ==> changes[k].objectIdentity != changes[l].objectIdentity
  }

  predicate OneSided(c: ObjectChange) { c.change == "added" || c.change == "removed" }

  /** The two roots are on both sides. */
  predicate RootsMatched(changes: seq<ObjectChange>) {
    forall c :: c in changes && OneSided(c) && ParseIdentity(c.objectIdentity).Some? ==>
      ParseIdentity(c.objectIdentity).value.kind !in {DataSourceKind, DatabaseKind}
  }

  /** The first name change of the root of kind `k`. */
  function NameChange(changes: seq<ObjectChange>, k: Kind): Option<PropertyChange> {
    if changes == [] then None
    else
      var c := changes[0];
      var found := if ParseIdentity(c.objectIdentity) == Some(Identity(k, [])) && c.change == "changed"
        then FindChange(c.propertyChanges, "/name") else None;
      if found.Some? then found else NameChange(changes[1..], k)
  }

  /** The name change of a root tells exactly the names in the metadata. */
  predicate NamesTold(changes: seq<ObjectChange>, k: Kind, baseline: string, candidate: string) {
    NameChange(changes, k) ==
      if baseline == candidate then None
      else Some(PropertyChange("/name", Present(Str(baseline)), Present(Str(candidate))))
  }

  /** Whatever lies below an added or removed object is added or removed with it. */
  ghost predicate HierarchyConsistent(changes: seq<ObjectChange>) {
    forall c, d :: c in changes && d in changes && OneSided(d)
      && ParseIdentity(c.objectIdentity).Some? && ParseIdentity(d.objectIdentity).Some?
      && ParseIdentity(d.objectIdentity).value in IdentityAncestors(ParseIdentity(c.objectIdentity).value)
      ==> c.change == d.change
  }

  predicate StatusFits(c: Comparison) {
    (c.status == "identical" && c.objectChanges == []) || (c.status == "different" && c.objectChanges != [])
  }

  ghost predicate Accepts(c: Comparison) {
    && c.direction == DIRECTION && c.writesPerformed == 0
    && ProducersAgree(c) && AlignmentStated(c)
    && c.summary.unchangedObjects >= 0
    && (forall e :: e in c.objectChanges ==> EntryAccepted(e))
    && DistinctIdentities(c.objectChanges)
    && RootsMatched(c.objectChanges)
    && NamesTold(c.objectChanges, DataSourceKind, c.baseline.sourceName, c.candidate.sourceName)
    && NamesTold(c.objectChanges, DatabaseKind, c.baseline.databaseName, c.candidate.databaseName)
    && HierarchyConsistent(c.objectChanges)
    && StrictlyOrdered(ChangeKey, c.objectChanges)
    && SummaryCounts(c.objectChanges, c.summary)
    && StatusFits(c)
  }

  // ----- the check itself

  method CheckForeignKey(changes: seq<PropertyChange>) returns (ok: bool)
    ensures ok <==> ForeignKeyCoherent(changes)
  {
    var t, c := FindChange(changes, "/referenced_table_id"), FindChange(changes, "/referenced_column_ids");
    if t.None? || c.None? {
      return true;
    }
    var first := CheckSide(t.value.baseline, c.value.baseline);
    if !first {
      return false;
    }
    ok := CheckSide(t.value.candidate, c.value.candidate);
  }

  method CheckSide(table: Side, columns: Side) returns (ok: bool)
    ensures ok <==> SideCoherent(table, columns)
  {
    hide ParseIdentity;
    if table.Missing? || columns.Missing? {
      return true;
    }
    var tableIdentity := ParseIdentity(table.value);
    if tableIdentity.None? || !columns.value.Arr? {
      return false;
    }
    var items := columns.value.items;
    for k := 0 to |items|
      invariant forall l :: 0 <= l < k ==>
        var c := ParseIdentity(items[l]);
        c.Some? && FirstTwo(c.value.path) == tableIdentity.value.path
    {
      var columnIdentity := ParseIdentity(items[k]);
      if columnIdentity.None? || FirstTwo(columnIdentity.value.path) != tableIdentity.value.path {
        return false;
      }
    }
    ok := true;
  }

  lemma EmptyPointerIncompatible(k: Kind)
    ensures !ChangeCompatible(k, "")
  {
  }

  /** The loop over the property changes of one object: canonical pointers, no repeats, in order, fitting values. */
  method CheckProperties(i: Identity, changes: seq<PropertyChange>) returns (ok: bool)
    requires ValidIdentity(i)
    ensures ok <==> PropertiesAccepted(i, changes)
  {
    hide ChangeCompatible, SideCompatible, Parse, Print, ForeignKeyCoherent, SidesEqual;
    if |changes| == 0 {
      return false;
    }
    EmptyPointerIncompatible(i.kind);
    var seen: set<string> := {};
    var previous := "";
    for k := 0 to |changes|
      invariant forall l :: 0 <= l < k ==> PropertyAccepted(i, changes[l])
      invariant StrictlyOrdered(PointerKey, changes[..k])
      invariant forall p :: p in seen <==> exists l :: 0 <= l < k && changes[l].property == p
      invariant k > 0 ==> previous == changes[k - 1].property
      invariant k == 0 ==> previous == ""
      invariant "" !in seen
    {
      var c := changes[k];
      var parsed := Parse(c.property);
      if parsed.None? {
        assert !PropertyAccepted(i, c);
        return false;
      }
      PrintParsed(c.property);
      if Print(parsed.value) != c.property {
        return false;
      }
      if c.property in seen {
        RepeatedPointer(changes, k);
        return false;
      }
      seen := seen + {c.property};
      if previous != "" && Less(c.property, previous) {
        WrongOrder(changes, k);
        return false;
      }
      previous := c.property;
      if !ChangeCompatible(i.kind, c.property) || !SideCompatible(i, c.property, c.baseline) || !SideCompatible(i, c.property, c.candidate) {
        assert !PropertyAccepted(i, c);
        return false;
      }
      SidesEqualSame(c.baseline, c.candidate);
      if SidesEqual(c.baseline, c.candidate) {
        assert !PropertyAccepted(i, c);
        return false;
      }
      NextPointer(changes, k);
    }
    assert changes[..|changes|] == changes;
    if i.kind == ForeignKeyKind {
      ok := CheckForeignKey(changes);
    } else {
      ok := true;
    }
  }

  lemma RepeatedPointer(changes: seq<PropertyChange>, k: nat)
    requires k < |changes| && exists l :: 0 <= l < k && changes[l].property == changes[k].property
    ensures !StrictlyOrdered(PointerKey, changes)
  {
    var l :| 0 <= l < k && changes[l].property == changes[k].property;
    KeyLessTotal(PointerKey(changes[l]), PointerKey(changes[k]));
  }

  lemma WrongOrder(changes: seq<PropertyChange>, k: nat)
    requires 0 < k < |changes| && Less(changes[k].property, changes[k - 1].property)
    ensures !StrictlyOrdered(PointerKey, changes)
  {
    LessTotal(changes[k].property, changes[k - 1].property);
    assert !KeyLess(PointerKey(changes[k - 1]), PointerKey(changes[k]));
  }

  lemma NextPointer(changes: seq<PropertyChange>, k: nat)
    requires k < |changes| && StrictlyOrdered(PointerKey, changes[..k])
    requires k > 0 ==> !Less(changes[k].property, changes[k - 1].property) && changes[k].property != changes[k - 1].property
    ensures StrictlyOrdered(PointerKey, changes[..k + 1])
  {
    if k > 0 {
      LessTotal(changes[k].property, changes[k - 1].property);
      var last := PointerKey(changes[k - 1]);
      forall l | 0 <= l < k ensures KeyLess(PointerKey(changes[l]), PointerKey(changes[k])) {
        if l < k - 1 {
          assert KeyLess(PointerKey(changes[..k][l]), PointerKey(changes[..k][k - 1]));
          KeyLessTransitive(PointerKey(changes[l]), last, PointerKey(changes[k]));
        }
      }
    }
  }

  method CheckEntry(c: ObjectChange, i: Identity) returns (ok: bool)
    requires ParseIdentity(c.objectIdentity) == Some(i)
    ensures ok <==> EntryAccepted(c)
  {
    hide ParseIdentity, PropertiesAccepted;
    if !ParentMatches(i, c.parentIdentity) {
      return false;
    }
    if c.change == "added" || c.change == "removed" {
      ok := c.propertyChanges == [];
    } else if c.change == "changed" {
      ok := CheckProperties(i, c.propertyChanges);
    } else {
      ok := false;
    }
  }

  /** The loop over the entries: distinct identities, then each entry on its own. */
  method CheckEntries(changes: seq<ObjectChange>) returns (ok: bool, identities: seq<Identity>)
    ensures ok <==> DistinctIdentities(changes) && forall c :: c in changes ==> EntryAccepted(c)
    ensures ok ==> |identities| == |changes| && forall k :: 0 <= k < |changes| ==> ParseIdentity(changes[k].objectIdentity) == Some(identities[k])
  {
    hide ParseIdentity, EntryAccepted, IdentityKey;
    IdentityKeyInjective();
    var seen: set<SortKey> := {};
    identities := [];
    for k := 0 to |changes|
      invariant |identities| == k
      invariant forall l :: 0 <= l < k ==> EntryAccepted(changes[l]) && ParseIdentity(changes[l].objectIdentity) == Some(identities[l])
      invariant forall key :: key in seen <==> exists l :: 0 <= l < k && IdentityKey(identities[l]) == key
      invariant DistinctIdentities(changes[..k])
    {
      var c := changes[k];
      var parsed := ParseIdentity(c.objectIdentity);
      EntryParsed(c);
      if parsed.None? {
        assert !EntryAccepted(changes[k]);
        return false, identities;
      }
      ParsedIdentity(c.objectIdentity);
      var key := IdentityKey(parsed.value);
      if key in seen {
        ghost var l :| 0 <= l < k && IdentityKey(identities[l]) == key;
        ParsedIdentity(changes[l].objectIdentity);
        assert changes[l].objectIdentity == changes[k].objectIdentity;
        return false, identities;
      }
      seen := seen + {key};
      var fits := CheckEntry(c, parsed.value);
      if !fits {
        assert !EntryAccepted(changes[k]);
        return false, identities;
      }
      identities := identities + [parsed.value];
    }
    assert changes[..|changes|] == changes;
    ok := true;
  }

  lemma EntryParsed(c: ObjectChange)
    ensures EntryAccepted(c) ==> ParseIdentity(c.objectIdentity).Some?
  {
  }

  method CheckRoots(changes: seq<ObjectChange>, identities: seq<Identity>) returns (ok: bool)
    requires |identities| == |changes| && forall k :: 0 <= k < |changes| ==> ParseIdentity(changes[k].objectIdentity) == Some(identities[k])
    ensures ok <==> RootsMatched(changes)
  {
    hide ParseIdentity;
    for k := 0 to |changes|
      invariant forall l :: 0 <= l < k && OneSided(changes[l]) ==> identities[l].kind !in {DataSourceKind, DatabaseKind}
    {
      var isRoot := identities[k].kind in {DataSourceKind, DatabaseKind} && identities[k].path == [];
      if isRoot && (changes[k].change == "added" || changes[k].change == "removed") {
        assert changes[k] in changes;
        return false;
      }
      assert identities[k].kind in {DataSourceKind, DatabaseKind} ==> identities[k].path == [] by {
        RootPath(identities[k]);
      }
    }
    ok := true;
  }

  lemma RootPath(i: Identity)
    requires ValidIdentity(i)
    ensures i.kind in {DataSourceKind, DatabaseKind} ==> i.path == []
  {
  }

  lemma {:induction false} NameChangeDrop(changes: seq<ObjectChange>, k: Kind, n: nat)
    requires n <= |changes|
    requires forall l :: 0 <= l < n && ParseIdentity(changes[l].objectIdentity) == Some(Identity(k, [])) && changes[l].change == "changed" ==>
      FindChange(changes[l].propertyChanges, "/name").None?
    ensures NameChange(changes, k) == NameChange(changes[n..], k)
  {
    hide ParseIdentity;
    if n > 0 {
      NameChangeDrop(changes[1..], k, n - 1);
      assert changes[1..][n - 1..] == changes[n..];
    } else {
      assert changes[0..] == changes;
    }
  }

  /** The loop that looks for the name change of a root. */
  method FindNameChange(changes: seq<ObjectChange>, identities: seq<Identity>, kind: Kind) returns (r: Option<PropertyChange>)
    requires |identities| == |changes| && forall k :: 0 <= k < |changes| ==> ParseIdentity(changes[k].objectIdentity) == Some(identities[k])
    ensures r == NameChange(changes, kind)
  {
    hide ParseIdentity;
    for k := 0 to |changes|
      invariant forall l :: 0 <= l < k && ParseIdentity(changes[l].objectIdentity) == Some(Identity(kind, [])) && changes[l].change == "changed" ==>
        FindChange(changes[l].propertyChanges, "/name").None?
    {
      NameChangeDrop(changes, kind, k);
      if identities[k].kind != kind || identities[k].path != [] {
        continue;
      }
      if changes[k].change != "changed" {
        continue;
      }
      var found := FindChange(changes[k].propertyChanges, "/name");
      if found.Some? {
        assert changes[k..][0] == changes[k];
        return found;
      }
    }
    NameChangeDrop(changes, kind, |changes|);
    r := None;
  }

  method CheckName(changes: seq<ObjectChange>, identities: seq<Identity>, kind: Kind, baseline: string, candidate: string) returns (ok: bool)
    requires |identities| == |changes| && forall k :: 0 <= k < |changes| ==> ParseIdentity(changes[k].objectIdentity) == Some(identities[k])
    ensures ok <==> NamesTold(changes, kind, baseline, candidate)
  {
    hide ParseIdentity, NameChange;
    var found := FindNameChange(changes, identities, kind);
    NameChangeProperty(changes, kind);
    if baseline == candidate {
      return found.None?;
    }
    if found.None? {
      return false;
    }
    ok := found.value.baseline == Present(Str(baseline)) && found.value.candidate == Present(Str(candidate));
  }

  lemma {:induction false} NameChangeProperty(changes: seq<ObjectChange>, kind: Kind)
    ensures NameChange(changes, kind).Some? ==> NameChange(changes, kind).value.property == "/name"
  {
    hide ParseIdentity;
    if changes != [] {
      NameChangeProperty(changes[1..], kind);
    }
  }

  /** The change of each identity, as the hierarchy check looks it up. */
  ghost predicate Indexes(index: map<SortKey, string>, changes: seq<ObjectChange>, identities: seq<Identity>)
    requires |identities| == |changes|
  {
    && (forall k :: 0 <= k < |changes| ==> IdentityKey(identities[k]) in index && index[IdentityKey(identities[k])] == changes[k].change)
    && (forall key :: key in index ==> exists k :: 0 <= k < |changes| && IdentityKey(identities[k]) == key)
  }

  method IndexChanges(changes: seq<ObjectChange>, identities: seq<Identity>) returns (index: map<SortKey, string>)
    requires |identities| == |changes|
    requires forall k, l :: 0 <= k < l < |changes| ==> identities[k] != identities[l]
    ensures Indexes(index, changes, identities)
  {
    hide IdentityKey;
    IdentityKeyInjective();
    index := map[];
    for k := 0 to |changes|
      invariant forall l :: 0 <= l < k ==> IdentityKey(identities[l]) in index && index[IdentityKey(identities[l])] == changes[l].change
      invariant forall key :: key in index ==> exists l :: 0 <= l < k && IdentityKey(identities[l]) == key
    {
      index := index[IdentityKey(identities[k]) := changes[k].change];
    }
  }

  /** No ancestor of `i` is added or removed by another change than `change`. */
  ghost predicate FitsAncestors(changes: seq<ObjectChange>, identities: seq<Identity>, i: Identity, change: string, ancestors: seq<Identity>)
    requires |identities| == |changes|
  {
    forall l :: 0 <= l < |changes| && identities[l] in ancestors && OneSided(changes[l]) ==> changes[l].change == change
  }

  method CheckAncestors(index: map<SortKey, string>, ghost changes: seq<ObjectChange>, ghost identities: seq<Identity>, i: Identity, change: string)
    returns (ok: bool)
    requires ValidIdentity(i) && |identities| == |changes| && Indexes(index, changes, identities)
    ensures ok <==> FitsAncestors(changes, identities, i, change, IdentityAncestors(i))
  {
    hide IdentityKey;
    IdentityKeyInjective();
    var ancestors := CollectIdentityAncestors(i);
    for k := 0 to |ancestors|
      invariant FitsAncestors(changes, identities, i, change, ancestors[..k])
    {
      assert ancestors[..k + 1] == ancestors[..k] + [ancestors[k]];
      var key := IdentityKey(ancestors[k]);
      if key !in index {
        continue;
      }
      ghost var l :| 0 <= l < |changes| && IdentityKey(identities[l]) == key;
      assert identities[l] == ancestors[k];
      if index[key] != "added" && index[key] != "removed" {
        continue;
      }
      if change != index[key] {
        assert !FitsAncestors(changes, identities, i, change, ancestors);
        return false;
      }
    }
    assert ancestors[..|ancestors|] == ancestors;
    ok := true;
  }

  /** The hierarchy check: a dictionary of changes, then every entry against each of its ancestors. */
  method CheckHierarchy(changes: seq<ObjectChange>, identities: seq<Identity>) returns (ok: bool)
    requires |identities| == |changes| && forall k :: 0 <= k < |changes| ==> ParseIdentity(changes[k].objectIdentity) == Some(identities[k])
    requires DistinctIdentities(changes)
    ensures ok <==> HierarchyConsistent(changes)
  {
    hide ParseIdentity, Indexes, IdentityAncestors;
    forall k, l | 0 <= k < l < |changes| ensures identities[k] != identities[l] {
      ParsedIdentity(changes[k].objectIdentity);
      ParsedIdentity(changes[l].objectIdentity);
    }
    var index := IndexChanges(changes, identities);
    for k := 0 to |changes|
      invariant forall m :: 0 <= m < k ==> FitsAncestors(changes, identities, identities[m], changes[m].change, IdentityAncestors(identities[m]))
    {
      var fits := CheckAncestors(index, changes, identities, identities[k], changes[k].change);
      if !fits {
        assert changes[k] in changes;
        return false;
      }
    }
    ok := true;
  }

  /** The loop over the sort keys of neighbouring entries. */
  method CheckOrder(changes: seq<ObjectChange>, identities: seq<Identity>) returns (ok: bool)
    requires |identities| == |changes| && forall k :: 0 <= k < |changes| ==> ParseIdentity(changes[k].objectIdentity) == Some(identities[k])
    requires DistinctIdentities(changes)
    ensures ok <==> StrictlyOrdered(ChangeKey, changes)
  {
    hide ParseIdentity, KeyLess, IdentityJson, RankText;
    var previous: Option<SortKey> := None;
    for k := 0 to |changes|
      invariant StrictlyOrdered(ChangeKey, changes[..k])
      invariant previous == if k == 0 then None else Some(ChangeKey(changes[k - 1]))
    {
      ParsedIdentity(changes[k].objectIdentity);
      var key := [RankText(changes[k].change), Render(IdentityJson(identities[k]))];
      if previous.Some? && KeyLess(key, previous.value) {
        KeyLessTotal(key, previous.value);
        return false;
      }
      NextEntry(changes, k);
      previous := Some(key);
    }
    assert changes[..|changes|] == changes;
    ok := true;
  }

  lemma NextEntry(changes: seq<ObjectChange>, k: nat)
    requires k < |changes| && DistinctIdentities(changes) && StrictlyOrdered(ChangeKey, changes[..k])
    requires k > 0 ==> !KeyLess(ChangeKey(changes[k]), ChangeKey(changes[k - 1]))
    ensures StrictlyOrdered(ChangeKey, changes[..k + 1])
  {
    hide KeyLess, RankText;
    if k > 0 {
      var last, next := ChangeKey(changes[k - 1]), ChangeKey(changes[k]);
      if last == next {
        assert last[1] == next[1];
        RenderInjective(changes[k - 1].objectIdentity, changes[k].objectIdentity);
      }
      KeyLessTotal(last, next);
      forall l | 0 <= l < k ensures KeyLess(ChangeKey(changes[l]), next) {
        if l < k - 1 {
          assert KeyLess(ChangeKey(changes[..k][l]), ChangeKey(changes[..k][k - 1]));
          KeyLessTransitive(ChangeKey(changes[l]), last, next);
        }
      }
    }
  }

  method CheckProducers(c: Comparison) returns (ok: bool)
    ensures ok <==> ProducersAgree(c)
  {
    if c.baseline.systemType != c.candidate.systemType {
      return false;
    }
    if c.baseline.scanner != c.candidate.scanner {
      return false;
    }
    ok := true;
    for side := 0 to 2
      invariant ok && (side >= 1 ==> c.baseline.scannerContractVersion == SCANNER_CONTRACT_VERSION)
      invariant side >= 2 ==> c.candidate.scannerContractVersion == SCANNER_CONTRACT_VERSION
    {
      var meta := if side == 0 then c.baseline else c.candidate;
      if meta.scannerContractVersion != SCANNER_CONTRACT_VERSION {
        return false;
      }
    }
  }

  method CheckAlignment(c: Comparison) returns (ok: bool)
    ensures ok <==> AlignmentStated(c)
  {
    if c.baseline.sourceName == c.candidate.sourceName {
      if c.rootAlignment.source != None {
        return false;
      }
    } else if c.rootAlignment.source != Some(NamePair(c.baseline.sourceName, c.candidate.sourceName)) {
      return false;
    }
    if c.baseline.databaseName == c.candidate.databaseName {
      ok := c.rootAlignment.database == None;
    } else {
      ok := c.rootAlignment.database == Some(NamePair(c.baseline.databaseName, c.candidate.databaseName));
    }
  }

  /** The whole check, in the order of the source. */
  method ValidateComparison(c: Comparison) returns (ok: bool)
    ensures ok <==> Accepts(c)
  {
    hide EntryAccepted, ParseIdentity, HierarchyConsistent, StrictlyOrdered, NamesTold, RootsMatched, ProducersAgree, AlignmentStated, DistinctIdentities;
    if c.direction != DIRECTION || c.writesPerformed != 0 {
      return false;
    }
    ok := CheckProducers(c);
    if !ok { return; }
    ok := CheckAlignment(c);
    if !ok { return; }
    if c.summary.unchangedObjects < 0 {
      return false;
    }
    var changes, identities := c.objectChanges, [];
    ok, identities := CheckEntries(changes);
    if !ok { return; }
    ok := CheckRoots(changes, identities);
    if !ok { return; }
    ok := CheckName(changes, identities, DataSourceKind, c.baseline.sourceName, c.candidate.sourceName);
    if !ok { return; }
    ok := CheckName(changes, identities, DatabaseKind, c.baseline.databaseName, c.candidate.databaseName);
    if !ok { return; }
    ok := CheckHierarchy(changes, identities);
    if !ok { return; }
    ok := CheckOrder(changes, identities);
    if !ok { return; }
    var added, removed := Total(AddedWeight, changes), Total(RemovedWeight, changes);
    var changed, propertyChanges := Total(ChangedWeight, changes), Total(PropertyWeight, changes);
    EntriesCounted(changes);
    if c.summary.added != added || c.summary.removed != removed || c.summary.changed != changed || c.summary.propertyChanges != propertyChanges {
      return false;
    }
    if c.status == "identical" {
      ok := added + removed + changed == 0 && |changes| == 0;
    } else if c.status == "different" {
      ok := added + removed + changed > 0;
    } else {
      ok := false;
    }
  }

  /** Every accepted entry is counted once. */
  lemma {:induction false} EntriesCounted(changes: seq<ObjectChange>)
    requires forall c :: c in changes ==> EntryAccepted(c)
    ensures Total(AddedWeight, changes) + Total(RemovedWeight, changes) + Total(ChangedWeight, changes) == |changes|
  {
    if changes != [] {
      var n := |changes| - 1;
      hide ParseIdentity, PropertiesAccepted, ParentMatches;
      assert EntryAccepted(changes[n]);
      EntriesCounted(changes[..n]);
    }
  }
}
