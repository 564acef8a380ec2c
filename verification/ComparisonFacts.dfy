/** A built comparison, in terms of what the two snapshots say: which facts it lists, and with which values. */
module ComparisonFacts {
  import opened Outcomes
  import opened Sorting
  import opened JsonText
  import opened Identities
  import opened Snapshots
  import opened Declarations
  import opened PropertyChecks
  import opened Registry
  import opened Projection
  import opened ProjectionProofs
  import opened Comparisons
  import opened Artifacts
  import opened Build
  import opened ModelFacts
  import opened Texts
  import opened CanonicalOrders

  // ----- objects and facts

  /** The object holds what the fact tells. */
  ghost predicate Shows(obj: ComparableObject, f: Fact) {
    (forall pointer :: Lookup(obj.properties, pointer) == Told(f, pointer)) && ParentJson(obj.parentIdentity) == Container(f)
  }

  lemma ObjectFact(snap: Snapshot, p: Projected, i: Identity) returns (f: Fact)
    requires ModelOk(snap.model) && IsProjection(snap, p) && i in p.objects
    ensures States(snap, f) && Subject(f) == IdentityJson(i) && Shows(p.objects[i], f)
  {
    hide IsProjection, ModelOk, AllDecls, Says, Told, FinalObject, IdentityJson, Subject, Declared;
    OneDatabaseProjected(snap, p);
    AllDeclsMembers(snap);
    var d := DeclarationOf(snap, p, i);
    f := FactOf(snap, p, d);
    ShownFact(snap, p, d, f);
  }

  lemma ShownFact(snap: Snapshot, p: Projected, d: Decl, f: Fact)
    requires ModelOk(snap.model) && IsProjection(snap, p) && OneDatabase(snap) && Declared(snap, d) && Says(snap, d, f)
    ensures IdentityOf(d) in p.objects && Subject(f) == IdentityJson(IdentityOf(d)) && Shows(p.objects[IdentityOf(d)], f)
  {
    hide IsProjection, ModelOk, AllDecls, Says, Told, IdentityJson, Subject, Declared, PropsOf, References;
    AllDeclsMembers(snap);
    ObjectDeclared(snap, p, d);
    ProjectionTells(snap, p, d, f);
    SubjectOf(snap, d, f);
  }

  lemma FactObject(snap: Snapshot, p: Projected, f: Fact) returns (i: Identity)
    requires ModelOk(snap.model) && IsProjection(snap, p) && States(snap, f)
    ensures i in p.objects && IdentityJson(i) == Subject(f) && Shows(p.objects[i], f)
  {
    hide IsProjection, ModelOk, Says, Told, FinalObject, IdentityJson, Subject, Declared;
    var d :| Declared(snap, d) && Says(snap, d, f);
    i := IdentityOf(d);
    ShownFact(snap, p, d, f);
  }

  /** An accepted snapshot says one thing of each object. */
  lemma FactUnique(snap: Snapshot, f: Fact, g: Fact)
    requires ModelOk(snap.model) && (exists p :: IsProjection(snap, p))
    requires States(snap, f) && States(snap, g) && Subject(f) == Subject(g)
    ensures f == g
  {
    hide IsProjection, ModelOk, States, Told, IdentityJson, Subject;
    var p :| IsProjection(snap, p);
    var i := FactObject(snap, p, f);
    var j := FactObject(snap, p, g);
    IdentityJsonInjective(i, j);
    ToldInjective(f, g);
  }

  // ----- entries

  ghost predicate ListsSubject(x: Comparison, subject: Json) {
    exists e :: e in x.objectChanges && e.objectIdentity == subject
  }

  /** The snapshot says something of the object. */
  ghost predicate Knows(snap: Snapshot, subject: Json) {
    exists f :: States(snap, f) && Subject(f) == subject
  }

  /** The changes are those between the two facts: each property that differs, with both values, and no other. */
  ghost predicate ChangesBetween(f: Fact, g: Fact, changes: seq<PropertyChange>) {
    forall pointer, before, after :: PropertyChange(pointer, before, after) in changes <==>
      before == Told(f, pointer) && after == Told(g, pointer) && before != after
  }

  lemma DiffBetween(left: ComparableObject, right: ComparableObject, f: Fact, g: Fact, changes: seq<PropertyChange>)
    requires Shows(left, f) && Shows(right, g) && IsDiff(left.properties, right.properties, changes)
    ensures ChangesBetween(f, g, changes)
  {
    hide StrictlyOrdered, Told;
    forall pointer, before, after
      ensures PropertyChange(pointer, before, after) in changes <==>
        before == Told(f, pointer) && after == Told(g, pointer) && before != after
    {
      if before == Told(f, pointer) && after == Told(g, pointer) && before != after {
        assert Lists(changes, pointer);
        var c :| c in changes && c.property == pointer;
        assert ChangeOf(left.properties, right.properties, c);
      }
    }
  }

  lemma SameFact(left: ComparableObject, right: ComparableObject, f: Fact, g: Fact)
    requires Shows(left, f) && Shows(right, g) && Subject(f) == Subject(g)
    ensures SameProperties(left.properties, right.properties) <==> f == g
  {
    hide Told, Subject;
    if SameProperties(left.properties, right.properties) {
      forall pointer ensures Told(f, pointer) == Told(g, pointer) {
        assert Lookup(left.properties, pointer) == Lookup(right.properties, pointer);
      }
      ToldInjective(f, g);
    }
  }

  /** An object both snapshots know is listed exactly if they say different things of it, with exactly the differing properties. */
  lemma MatchedExactly(b: Snapshot, c: Snapshot, x: Comparison, f: Fact, g: Fact)
    requires ModelOk(b.model) && ModelOk(c.model) && IsBuilt(b, c, x)
    requires States(b, f) && States(c, g) && Subject(f) == Subject(g)
    ensures ListsSubject(x, Subject(f)) <==> f != g
    ensures forall e :: e in x.objectChanges && e.objectIdentity == Subject(f) ==>
      e.change == "changed" && e.parentIdentity == Container(f) && ChangesBetween(f, g, e.propertyChanges)
  {
    hide IsProjection, ModelOk, States, Subject, IdentityJson, IsDiff, SameProperties, SummaryOf, SummaryCounts, Shows, ChangesBetween, StrictlyOrdered, ParentJson, Container;
    var pb, pc :| BuiltFrom(b, c, pb, pc, x);
    var i := FactObject(b, pb, f);
    var j := FactObject(c, pc, g);
    IdentityJsonInjective(i, j);
    SameFact(pb.objects[i], pc.objects[i], f, g);
    forall e | e in x.objectChanges && e.objectIdentity == Subject(f)
      ensures f != g && e.change == "changed" && e.parentIdentity == Container(f) && ChangesBetween(f, g, e.propertyChanges)
    {
      var k :| Describes(pb.objects, pc.objects, k, e);
      IdentityJsonInjective(i, k);
      DiffBetween(pb.objects[i], pc.objects[i], f, g, e.propertyChanges);
      ShownContainer(pb.objects[i], f);
      SomethingDiffers(pb.objects[i].properties, pc.objects[i].properties, e.propertyChanges);
    }
    if f != g {
      assert Differs(pb.objects, pc.objects, i);
      assert ListsIdentity(x.objectChanges, i);
    }
  }

  lemma ShownContainer(obj: ComparableObject, f: Fact)
    requires Shows(obj, f)
    ensures ParentJson(obj.parentIdentity) == Container(f)
  {
  }

  lemma SomethingDiffers(left: Properties, right: Properties, changes: seq<PropertyChange>)
    requires IsDiff(left, right, changes) && changes != []
    ensures !SameProperties(left, right)
  {
    assert ChangeOf(left, right, changes[0]);
  }

  lemma KnownObject(snap: Snapshot, p: Projected, i: Identity)
    requires ModelOk(snap.model) && IsProjection(snap, p)
    ensures i in p.objects <==> Knows(snap, IdentityJson(i))
  {
    hide IsProjection, ModelOk, States, Subject, IdentityJson, Shows;
    if i in p.objects {
      var f := ObjectFact(snap, p, i);
    }
    if Knows(snap, IdentityJson(i)) {
      var f :| States(snap, f) && Subject(f) == IdentityJson(i);
      var j := FactObject(snap, p, f);
      IdentityJsonInjective(i, j);
    }
  }

  /** An object of the candidate is listed as added, under its container, exactly if the baseline does not know it. */
  lemma AddedExactly(b: Snapshot, c: Snapshot, x: Comparison, f: Fact)
    requires ModelOk(b.model) && ModelOk(c.model) && IsBuilt(b, c, x) && States(c, f)
    ensures ObjectChange("added", Subject(f), Container(f), []) in x.objectChanges <==> !Knows(b, Subject(f))
  {
    hide IsProjection, ModelOk, States, Subject, IdentityJson, IsDiff, SameProperties, SummaryOf, SummaryCounts, Shows, StrictlyOrdered, ParentJson, Container, Knows;
    var pb, pc :| BuiltFrom(b, c, pb, pc, x);
    var i := FactObject(c, pc, f);
    ShownContainer(pc.objects[i], f);
    KnownObject(b, pb, i);
    if ObjectChange("added", Subject(f), Container(f), []) in x.objectChanges {
      var k :| Describes(pb.objects, pc.objects, k, ObjectChange("added", Subject(f), Container(f), []));
      IdentityJsonInjective(i, k);
    }
    if i !in pb.objects {
      assert Differs(pb.objects, pc.objects, i);
      var e :| e in x.objectChanges && e.objectIdentity == IdentityJson(i);
      var k :| Describes(pb.objects, pc.objects, k, e);
      IdentityJsonInjective(i, k);
      assert e == ObjectChange("added", Subject(f), Container(f), []);
    }
  }

  /** An object of the baseline is listed as removed, under its container, exactly if the candidate does not know it. */
  lemma RemovedExactly(b: Snapshot, c: Snapshot, x: Comparison, f: Fact)
    requires ModelOk(b.model) && ModelOk(c.model) && IsBuilt(b, c, x) && States(b, f)
    ensures ObjectChange("removed", Subject(f), Container(f), []) in x.objectChanges <==> !Knows(c, Subject(f))
  {
    hide IsProjection, ModelOk, States, Subject, IdentityJson, IsDiff, SameProperties, SummaryOf, SummaryCounts, Shows, StrictlyOrdered, ParentJson, Container, Knows;
    var pb, pc :| BuiltFrom(b, c, pb, pc, x);
    var i := FactObject(b, pb, f);
    ShownContainer(pb.objects[i], f);
    KnownObject(c, pc, i);
    if ObjectChange("removed", Subject(f), Container(f), []) in x.objectChanges {
      var k :| Describes(pb.objects, pc.objects, k, ObjectChange("removed", Subject(f), Container(f), []));
      IdentityJsonInjective(i, k);
    }
    if i !in pc.objects {
      assert Differs(pb.objects, pc.objects, i);
      var e :| e in x.objectChanges && e.objectIdentity == IdentityJson(i);
      var k :| Describes(pb.objects, pc.objects, k, e);
      IdentityJsonInjective(i, k);
      assert e == ObjectChange("removed", Subject(f), Container(f), []);
    }
  }

  /** Nothing else is listed. */
  lemma EntryKnown(b: Snapshot, c: Snapshot, x: Comparison, e: ObjectChange)
    requires ModelOk(b.model) && ModelOk(c.model) && IsBuilt(b, c, x) && e in x.objectChanges
    ensures e.change == "added" ==> Knows(c, e.objectIdentity) && !Knows(b, e.objectIdentity)
    ensures e.change == "removed" ==> Knows(b, e.objectIdentity) && !Knows(c, e.objectIdentity)
    ensures e.change != "added" && e.change != "removed" ==>
      e.change == "changed" && Knows(b, e.objectIdentity) && Knows(c, e.objectIdentity)
  {
    hide IsProjection, ModelOk, IdentityJson, IsDiff, SameProperties, SummaryOf, SummaryCounts, StrictlyOrdered, ParentJson, Knows;
    var pb, pc :| BuiltFrom(b, c, pb, pc, x);
    var i :| Describes(pb.objects, pc.objects, i, e);
    KnownObject(b, pb, i);
    KnownObject(c, pc, i);
  }

  /** Two snapshots compare as identical exactly if they say the same, up to raw ids and order. */
  lemma IdenticalExactly(b: Snapshot, c: Snapshot, x: Comparison)
    requires ModelOk(b.model) && ModelOk(c.model) && IsBuilt(b, c, x)
    ensures x.status == "identical" <==> forall f :: States(b, f) <==> States(c, f)
  {
    hide IsProjection, ModelOk, States, Subject, Container, SummaryOf, SummaryCounts, StrictlyOrdered, Describes, Differs;
    assert x.status == "identical" <==> x.objectChanges == [];
    if x.objectChanges == [] {
      forall f ensures States(b, f) <==> States(c, f) {
        if States(b, f) {
          RemovedExactly(b, c, x, f);
          var g :| States(c, g) && Subject(g) == Subject(f);
          MatchedExactly(b, c, x, f, g);
        }
        if States(c, f) {
          AddedExactly(b, c, x, f);
          var g :| States(b, g) && Subject(g) == Subject(f);
          MatchedExactly(b, c, x, g, f);
        }
      }
    } else {
      var e := x.objectChanges[0];
      EntryKnown(b, c, x, e);
      if forall f :: States(b, f) <==> States(c, f) {
        KnowsAlike(b, c, e.objectIdentity);
        var f :| States(b, f) && Subject(f) == e.objectIdentity;
        MatchedExactly(b, c, x, f, f);
      }
    }
  }

  lemma KnowsAlike(b: Snapshot, c: Snapshot, subject: Json)
    requires forall f :: States(b, f) <==> States(c, f)
    ensures Knows(b, subject) <==> Knows(c, subject)
  {
    hide States, Subject;
  }

  // ----- columns, field by field

  /** `t` is a table of the database, in schema `s`. */
  ghost predicate HasTable(snap: Snapshot, s: Schema, t: Table) {
    exists ds, db :: ds in snap.model.dataSources && db in ds.databases && s in db.schemas && t in s.tables
  }

  lemma ColumnStated(snap: Snapshot, s: Schema, t: Table, u: Column)
    requires OneDatabase(snap) && HasTable(snap, s, t) && u in t.columns
    ensures States(snap, ColumnFact(s.name, t.name, u.name, u.dataType, u.ordinalPosition, u.nullable, u.description, u.technicalAttributes))
  {
    assert Declared(snap, ColumnDecl(s, t, u));
  }

  /** What the comparison says of two columns with one name, in tables of one name. */
  lemma ColumnsCompared(b: Snapshot, c: Snapshot, x: Comparison, s: Schema, t: Table, u: Column, s': Schema, t': Table, v: Column)
    requires ModelOk(b.model) && ModelOk(c.model) && IsBuilt(b, c, x)
    requires HasTable(b, s, t) && u in t.columns && HasTable(c, s', t') && v in t'.columns
    requires s.name == s'.name && t.name == t'.name && u.name == v.name
    ensures !ListsSubject(x, Named("column", [s.name, t.name, u.name])) <==>
      && u.dataType == v.dataType && u.ordinalPosition == v.ordinalPosition && u.nullable == v.nullable
      && u.description == v.description && u.technicalAttributes == v.technicalAttributes
    ensures forall e, before, after ::
      e in x.objectChanges && e.objectIdentity == Named("column", [s.name, t.name, u.name]) ==>
        (PropertyChange("/data_type", before, after) in e.propertyChanges <==>
          before == Present(Str(u.dataType)) && after == Present(Str(v.dataType)) && u.dataType != v.dataType)
  {
    hide IsProjection, ModelOk, States, SummaryOf, SummaryCounts, IsListing, HasTable, Named;
    var f := ColumnFact(s.name, t.name, u.name, u.dataType, u.ordinalPosition, u.nullable, u.description, u.technicalAttributes);
    var g := ColumnFact(s.name, t.name, v.name, v.dataType, v.ordinalPosition, v.nullable, v.description, v.technicalAttributes);
    BuiltOneDatabase(b, c, x);
    ColumnStated(b, s, t, u);
    ColumnStated(c, s', t', v);
    MatchedExactly(b, c, x, f, g);
  }

  lemma BuiltOneDatabase(b: Snapshot, c: Snapshot, x: Comparison)
    requires IsBuilt(b, c, x)
    ensures OneDatabase(b) && OneDatabase(c)
  {
    hide AllDecls, IsListing, SummaryOf, SummaryCounts;
  }

  // ----- the envelope

  /** A built comparison carries the two snapshots and what their envelopes say, each on its own side. */
  lemma EnvelopeTold(b: Snapshot, c: Snapshot, x: Comparison)
    requires IsBuilt(b, c, x)
    ensures x.baseline.contentIdentity.content == b && x.candidate.contentIdentity.content == c
    ensures x.baseline.sourceName == b.sourceName && x.candidate.sourceName == c.sourceName
    ensures x.baseline.databaseName == b.databaseName && x.candidate.databaseName == c.databaseName
    ensures x.baseline.systemType == b.systemType && x.candidate.systemType == c.systemType
    ensures x.baseline.scanner == b.scanner && x.candidate.scanner == c.scanner
    ensures x.baseline.scannerContractVersion == b.contractVersion && x.candidate.scannerContractVersion == c.contractVersion
    ensures x.rootAlignment.source == if b.sourceName == c.sourceName then None else Some(NamePair(b.sourceName, c.sourceName))
    ensures x.rootAlignment.database == if b.databaseName == c.databaseName then None else Some(NamePair(b.databaseName, c.databaseName))
    ensures x.direction == "baseline_to_candidate" && x.writesPerformed == 0
  {
    hide IsProjection, IsListing, SummaryOf, SummaryCounts;
  }

  /** The envelope repeats names and system type of the source, and names a scanner under contract 1. */
  predicate EnvelopeFits(snap: Snapshot, source: DataSource)
    requires |source.databases| == 1
  {
    && snap.sourceName == source.name && snap.databaseName == source.databases[0].name && snap.systemType == source.systemType
    && snap.systemType != "" && snap.scanner != "" && snap.contractVersion == "1"
  }

  /** The envelope of a snapshot that can be compared: it repeats the model, and names a scanner under contract 1. */
  lemma EnvelopeExactly(snap: Snapshot)
    requires OneDatabase(snap)
    ensures Projectable(snap) <==> Declarable(snap) && AllResolved(AllDecls(snap)) && EnvelopeFits(snap, snap.model.dataSources[0])
  {
    hide Declarable, AllResolved, AllDecls;
  }

  // ----- counts

  /** The positions of all listed property changes: the entry, and the change in it. */
  ghost function ChangePositions(changes: seq<ObjectChange>): set<(int, int)> {
    set k, l | 0 <= k < |changes| && 0 <= l < |changes[k].propertyChanges| :: (k, l)
  }

  lemma {:induction false} PropertyChangesCounted(changes: seq<ObjectChange>)
    ensures Total(PropertyWeight, changes) == |ChangePositions(changes)|
  {
    if changes == [] {
      assert ChangePositions(changes) == {};
    } else {
      var n := |changes| - 1;
      PropertyChangesCounted(changes[..n]);
      var last := set l | 0 <= l < |changes[n].propertyChanges| :: (n, l);
      RowCounted(n, |changes[n].propertyChanges|);
      assert ChangePositions(changes) == ChangePositions(changes[..n]) + last;
    }
  }

  lemma {:induction false} RowCounted(n: int, m: nat)
    ensures |set l | 0 <= l < m :: (n, l)| == m
  {
    var row := set l | 0 <= l < m :: (n, l);
    if m == 0 {
      assert row == {};
    } else {
      RowCounted(n, m - 1);
      assert row == (set l | 0 <= l < m - 1 :: (n, l)) + {(n, m - 1)};
    }
  }

  /** The summary of a built comparison counts its added, removed and changed entries and all property changes in them. */
  lemma SummaryTold(b: Snapshot, c: Snapshot, x: Comparison)
    requires IsBuilt(b, c, x)
    ensures x.summary.added == |EntriesWith(x.objectChanges, "added")|
    ensures x.summary.removed == |EntriesWith(x.objectChanges, "removed")|
    ensures x.summary.changed == |EntriesWith(x.objectChanges, "changed")|
    ensures x.summary.propertyChanges == |ChangePositions(x.objectChanges)|
  {
    hide IsProjection, IsListing, SummaryOf;
    PropertyChangesCounted(x.objectChanges);
    ChangesCounted(x.objectChanges, "added", AddedWeight);
    ChangesCounted(x.objectChanges, "removed", RemovedWeight);
    ChangesCounted(x.objectChanges, "changed", ChangedWeight);
    assert SummaryCounts(x.objectChanges, x.summary);
  }

  ghost function EntriesWith(changes: seq<ObjectChange>, change: string): set<int> {
    set k | 0 <= k < |changes| && changes[k].change == change
  }

  lemma {:induction false} ChangesCounted(changes: seq<ObjectChange>, change: string, weight: ObjectChange -> int)
    requires forall c :: weight(c) == if c.change == change then 1 else 0
    ensures Total(weight, changes) == |EntriesWith(changes, change)|
  {
    if changes == [] {
      assert EntriesWith(changes, change) == {};
    } else {
      var n := |changes| - 1;
      ChangesCounted(changes[..n], change, weight);
      assert EntriesWith(changes, change) == EntriesWith(changes[..n], change) + if changes[n].change == change then {n} else {};
    }
  }

  // ----- order

  function ChangeRank(change: string): int {
    if change == "added" then 0 else if change == "removed" then 1 else 2
  }

  /** Entries stand in the order added, removed, changed, and by the text of the identity within each. */
  lemma ListedInOrder(b: Snapshot, c: Snapshot, x: Comparison, i: nat, j: nat)
    requires IsBuilt(b, c, x) && i < j < |x.objectChanges|
    ensures var d, e := x.objectChanges[i], x.objectChanges[j];
      if d.change == e.change then Less(Render(d.objectIdentity), Render(e.objectIdentity)) else ChangeRank(d.change) < ChangeRank(e.change)
  {
    hide IsProjection, SummaryOf, SummaryCounts, Render, Describes, Differs;
    var pb, pc :| BuiltFrom(b, c, pb, pc, x);
    var d, e := x.objectChanges[i], x.objectChanges[j];
    assert KeyLess(ChangeKey(d), ChangeKey(e));
    EntryKind(pb.objects, pc.objects, x.objectChanges, d);
    EntryKind(pb.objects, pc.objects, x.objectChanges, e);
    assert ChangeKey(d)[1..] == [Render(d.objectIdentity)] && ChangeKey(e)[1..] == [Render(e.objectIdentity)];
    OneText(Render(d.objectIdentity), Render(e.objectIdentity));
    RanksLess(d.change, e.change);
  }

  lemma RanksLess(a: string, b: string)
    ensures Less(RankText(a), RankText(b)) <==> ChangeRank(a) < ChangeRank(b)
    ensures RankText(a) == RankText(b) <==> ChangeRank(a) == ChangeRank(b)
  {
    assert RankText(a)[0] == '0' + ChangeRank(a) as char && RankText(b)[0] == '0' + ChangeRank(b) as char;
  }

  lemma EntryKind(a: Objects, b: Objects, changes: seq<ObjectChange>, e: ObjectChange)
    requires IsListing(a, b, changes) && e in changes
    ensures e.change == "added" || e.change == "removed" || e.change == "changed"
  {
    hide IsDiff, StrictlyOrdered;
    var i :| Describes(a, b, i, e);
  }

  /** The text of an identity compares by kind, then by the first name on the path that differs. */
  lemma NamedOrder(kind: string, path: seq<string>, kind': string, path': seq<string>, i: nat)
    requires kind == kind' ==> i < |path| && i < |path'| && path[..i] == path'[..i] && path[i] != path'[i]
    ensures Less(Render(Named(kind, path)), Render(Named(kind', path'))) <==>
      if kind != kind' then TextBefore(kind, kind') else TextBefore(path[i], path'[i])
  {
    var u, v := Named(kind, path).members, Named(kind', path').members;
    if kind != kind' {
      ObjectOrder(u, v, 0);
    } else {
      var x, y := u[1].value.items, v[1].value.items;
      assert forall k :: 0 <= k < i ==> path[k] == path[..i][k] == path'[..i][k] == path'[k];
      assert x[..i] == y[..i];
      assert x[i] == Str(path[i]) && y[i] == Str(path'[i]);
      assert u[1].value != v[1].value;
      ArrayOrder(x, y, i);
      ObjectOrder(u, v, 1);
    }
  }
}
