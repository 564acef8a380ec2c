/** Whatever the producer builds, the independent check accepts. */
module ProducerSoundness {
  import opened Outcomes
  import opened Sorting
  import opened JsonText
  import opened Pointers
  import opened Identities
  import opened Snapshots
  import opened Declarations
  import opened Projection
  import opened PropertyChecks
  import opened ProjectionProofs
  import opened Comparisons
  import opened Inversion
  import opened Artifacts
  import opened ComparisonCheck
  import opened Build

  // ----- pointers

  lemma PlainName(name: string, p: string)
    requires '~' !in name && '/' !in name && p == "/" + name
    ensures Parse(p).Some?
  {
    hide Encode, Parse;
    EncodePlain(name);
    assert [name][1..] == [];
    assert Print([name]) == "/" + Encode(name);
    ParsePrinted([name]);
  }

  const VALUE_POINTERS := {"/name", "/system_type", "/description", "/ownership", "/data_type", "/ordinal_position", "/nullable"}

  lemma SubjectPointer(p: string)
    requires p in {"/name", "/system_type", "/description", "/ownership"}
    ensures Parse(p).Some?
  {
    hide Parse;
    if p == "/name" { PlainName("name", p); }
    if p == "/system_type" { PlainName("system_type", p); }
    if p == "/description" { PlainName("description", p); }
    if p == "/ownership" { PlainName("ownership", p); }
  }

  lemma ColumnPointer(p: string)
    requires p in {"/data_type", "/ordinal_position", "/nullable"}
    ensures Parse(p).Some?
  {
    hide Parse;
    if p == "/data_type" { PlainName("data_type", p); }
    if p == "/ordinal_position" { PlainName("ordinal_position", p); }
    if p == "/nullable" { PlainName("nullable", p); }
  }

  lemma ValuePointer(p: string)
    requires p in VALUE_POINTERS
    ensures Parse(p).Some?
  {
    hide Parse;
    if p in {"/data_type", "/ordinal_position", "/nullable"} { ColumnPointer(p); } else { SubjectPointer(p); }
  }

  lemma ReferencedTablePointer()
    ensures Parse("/referenced_table_id").Some?
  {
    hide Parse;
    PlainName("referenced_table_id", "/referenced_table_id");
  }

  lemma ReferencedColumnsPointer()
    ensures Parse("/referenced_column_ids").Some?
  {
    hide Parse;
    PlainName("referenced_column_ids", "/referenced_column_ids");
  }

  lemma ReferencePointer(p: string)
    requires p in REFERENCE_POINTERS
    ensures Parse(p).Some?
  {
    hide Parse;
    if p == "/column_ids" { PlainName("column_ids", p); }
    if p == "/referenced_table_id" { ReferencedTablePointer(); }
    if p == "/referenced_column_ids" { ReferencedColumnsPointer(); }
    if p == "/to_table_id" { PlainName("to_table_id", p); }
    if p == "/foreign_key_id" { PlainName("foreign_key_id", p); }
  }

  lemma FixedPointer(k: Kind, p: string)
    requires p in FixedPaths(k)
    ensures Parse(p).Some?
  {
    hide Parse;
    if p in VALUE_POINTERS { ValuePointer(p); } else { ReferencePointer(p); }
  }

  // ----- one property

  /** Both sides of one matched object. */
  ghost predicate Matched(i: Identity, left: Properties, right: Properties, b: Snapshot, c: Snapshot) {
    && ValidIdentity(i) && PropertiesOk(i, left) && PropertiesOk(i, right)
    && ValuesOk(i, left, b) && ValuesOk(i, right, c) && b.systemType == c.systemType
  }

  /** Names of objects below the roots, and system types, never differ. */
  lemma FixedChangeCompatible(i: Identity, left: Properties, right: Properties, b: Snapshot, c: Snapshot, p: string)
    requires Matched(i, left, right, b, c) && p in FixedPaths(i.kind) && Lookup(left, p) != Lookup(right, p)
    ensures ChangeCompatible(i.kind, p)
  {
    hide FixedValueOk, SideCoherent, PropertiesOk, FixedPaths;
    FixedNotTech(i.kind, p);
  }

  lemma FixedSideCompatible(i: Identity, props: Properties, snap: Snapshot, p: string)
    requires ValidIdentity(i) && ValuesOk(i, props, snap) && p in FixedPaths(i.kind) && ChangeCompatible(i.kind, p)
    ensures SideCompatible(i, p, Lookup(props, p))
  {
  }

  lemma PropertyOk(i: Identity, left: Properties, right: Properties, b: Snapshot, c: Snapshot, pc: PropertyChange)
    requires Matched(i, left, right, b, c) && ChangeOf(left, right, pc)
    ensures PropertyAccepted(i, pc)
  {
    hide ValuesOk, ChangeCompatible, SideCompatible, Parse, FixedPaths, TechPointer;
    var p := pc.property;
    assert p in left || p in right;
    if p in FixedPaths(i.kind) {
      FixedPointer(i.kind, p);
      FixedChangeCompatible(i, left, right, b, c, p);
      FixedSideCompatible(i, left, b, p);
      FixedSideCompatible(i, right, c, p);
    } else {
      var k :| p == TechPointer(k);
      TechPointerCompatible(k);
      TechSide(i, p, pc.baseline);
      TechSide(i, p, pc.candidate);
    }
  }

  lemma TechSide(i: Identity, p: string, side: Side)
    requires ValidIdentity(i) && IsTechPointer(p)
    ensures SideCompatible(i, p, side)
  {
  }

  /** The property changes of a matched object are acceptable. */
  lemma PropertiesAcceptable(i: Identity, left: Properties, right: Properties, b: Snapshot, c: Snapshot, changes: seq<PropertyChange>)
    requires Matched(i, left, right, b, c) && IsDiff(left, right, changes) && changes != []
    ensures PropertiesAccepted(i, changes)
  {
    hide PropertyAccepted, SideCoherent, PropertiesOk, StrictlyOrdered, FixedPaths, FixedValueOk;
    forall pc | pc in changes ensures PropertyAccepted(i, pc) {
      PropertyOk(i, left, right, b, c, pc);
    }
    var t, f := FindChange(changes, "/referenced_table_id"), FindChange(changes, "/referenced_column_ids");
    if i.kind == ForeignKeyKind && t.Some? && f.Some? {
      assert ChangeOf(left, right, t.value) && ChangeOf(left, right, f.value);
    }
  }

  // ----- one entry

  /** Both projections, in the form the comparison uses them. */
  ghost predicate Pair(a: Objects, b: Objects, base: Snapshot, cand: Snapshot) {
    WellProjected(a, base) && WellProjected(b, cand) && base.systemType == cand.systemType
  }

  lemma ParentAcceptable(i: Identity)
    requires ValidIdentity(i)
    ensures ParentMatches(i, ParentJson(ExpectedParent(i)))
  {
    hide IdentityJson, ParseIdentity;
    var p := ExpectedParent(i);
    if p.Some? {
      assert ValidIdentity(p.value);
      ParseIdentityJson(p.value);
    }
  }

  lemma ObjectFacts(objects: Objects, snap: Snapshot, i: Identity)
    requires WellProjected(objects, snap) && i in objects
    ensures ValidIdentity(i) && objects[i].parentIdentity == ExpectedParent(i)
    ensures PropertiesOk(i, objects[i].properties) && ValuesOk(i, objects[i].properties, snap)
    ensures ExpectedParent(i).Some? ==> ExpectedParent(i).value in objects
  {
    hide PropertiesOk, ValuesOk, ValidIdentity;
    assert ObjectOk(i, objects[i], snap);
  }

  lemma EntryOk(a: Objects, b: Objects, base: Snapshot, cand: Snapshot, i: Identity, c: ObjectChange)
    requires Pair(a, b, base, cand) && Describes(a, b, i, c)
    ensures EntryAccepted(c) && ParseIdentity(c.objectIdentity) == Some(i)
  {
    hide WellProjected, IdentityJson, ParseIdentity, ParentJson, ParentMatches, PropertiesAccepted, PropertiesOk, ValuesOk, IsDiff, ValidIdentity, ExpectedParent;
    if i in a { ObjectFacts(a, base, i); }
    if i in b { ObjectFacts(b, cand, i); }
    ParseIdentityJson(i);
    ParentAcceptable(i);
    if i in a && i in b {
      PropertiesAcceptable(i, a[i].properties, b[i].properties, base, cand, c.propertyChanges);
    }
  }

  lemma ParentsAgree(a: Objects, b: Objects, base: Snapshot, cand: Snapshot)
    requires WellProjected(a, base) && WellProjected(b, cand)
    ensures SameParents(a, b)
  {
    hide WellProjected, ValidIdentity, PropertiesOk, ValuesOk, ExpectedParent;
    forall i | i in a && i in b ensures a[i].parentIdentity == b[i].parentIdentity {
      ObjectFacts(a, base, i);
      ObjectFacts(b, cand, i);
    }
  }

  /** The identity behind an entry of a listing. */
  lemma EntryIdentity(a: Objects, b: Objects, base: Snapshot, cand: Snapshot, changes: seq<ObjectChange>, c: ObjectChange) returns (i: Identity)
    requires Pair(a, b, base, cand) && IsListing(a, b, changes) && c in changes
    ensures Describes(a, b, i, c) && ParseIdentity(c.objectIdentity) == Some(i) && EntryAccepted(c)
  {
    hide Pair, Describes, Differs, ParseIdentity, EntryAccepted;
    i :| Describes(a, b, i, c);
    EntryOk(a, b, base, cand, i, c);
  }

  // ----- the list

  lemma IdentitiesDistinct(a: Objects, b: Objects, changes: seq<ObjectChange>)
    requires IsListing(a, b, changes)
    ensures DistinctIdentities(changes)
  {
    hide Describes, Differs;
    forall k, l | 0 <= k < l < |changes| ensures changes[k].objectIdentity != changes[l].objectIdentity {
      assert changes[k] in changes && changes[l] in changes;
      var i :| Describes(a, b, i, changes[k]);
      var j :| Describes(a, b, j, changes[l]);
      if changes[k].objectIdentity == changes[l].objectIdentity {
        DescribesUnique(a, b, i, j, changes[k], changes[l]);
        KeyLessTotal(ChangeKey(changes[k]), ChangeKey(changes[l]));
      }
    }
  }

  /** An added or removed identity is on one side only. */
  lemma OneSidedEntry(a: Objects, b: Objects, i: Identity, c: ObjectChange)
    requires Describes(a, b, i, c)
    ensures i in a || i in b
    ensures OneSided(c) <==> !(i in a && i in b)
    ensures c.change == "added" <==> i !in a
    ensures c.change == "removed" <==> i !in b
  {
    hide IsDiff;
  }

  lemma RootsStay(a: Objects, b: Objects, base: Snapshot, cand: Snapshot, changes: seq<ObjectChange>)
    requires Pair(a, b, base, cand) && IsListing(a, b, changes)
    ensures RootsMatched(changes)
  {
    hide IsListing, Describes, ParseIdentity, EntryAccepted, ObjectOk;
    forall c | c in changes && OneSided(c)
      ensures ParseIdentity(c.objectIdentity).Some? && ParseIdentity(c.objectIdentity).value.kind !in {DataSourceKind, DatabaseKind}
    {
      var i := EntryIdentity(a, b, base, cand, changes, c);
      OneSidedEntry(a, b, i, c);
      RootPath(i);
      assert i.kind in {DataSourceKind, DatabaseKind} ==> i == Identity(i.kind, []);
    }
  }

  /** Ancestors of a projected object are projected. */
  lemma {:induction false} AncestorsPresent(objects: Objects, snap: Snapshot, i: Identity)
    requires WellProjected(objects, snap) && i in objects
    ensures ValidIdentity(i) && forall j :: j in IdentityAncestors(i) ==> j in objects
    decreases Height(i.kind)
  {
    hide WellProjected, PropertiesOk, ValuesOk, ValidIdentity;
    ObjectFacts(objects, snap, i);
    if ExpectedParent(i).Some? {
      AncestorsPresent(objects, snap, ExpectedParent(i).value);
    }
  }

  lemma HierarchyKept(a: Objects, b: Objects, base: Snapshot, cand: Snapshot, changes: seq<ObjectChange>)
    requires Pair(a, b, base, cand) && IsListing(a, b, changes)
    ensures HierarchyConsistent(changes)
  {
    hide IsListing, Describes, ParseIdentity, EntryAccepted, WellProjected, IdentityAncestors, OneSided;
    forall c, d | c in changes && d in changes && OneSided(d) && ParseIdentity(c.objectIdentity).Some? && ParseIdentity(d.objectIdentity).Some?
      && ParseIdentity(d.objectIdentity).value in IdentityAncestors(ParseIdentity(c.objectIdentity).value)
      ensures c.change == d.change
    {
      var i := EntryIdentity(a, b, base, cand, changes, c);
      var j := EntryIdentity(a, b, base, cand, changes, d);
      OneSidedEntry(a, b, i, c);
      OneSidedEntry(a, b, j, d);
      if i in a { AncestorsPresent(a, base, i); }
      if i in b { AncestorsPresent(b, cand, i); }
    }
  }

  // ----- names of the roots

  lemma NameChangeAt(changes: seq<ObjectChange>, k: Kind, c: ObjectChange)
    requires DistinctIdentities(changes) && c in changes && c.change == "changed"
    requires ParseIdentity(c.objectIdentity) == Some(Identity(k, []))
    ensures NameChange(changes, k) == FindChange(c.propertyChanges, "/name")
  {
    hide ParseIdentity, NameChange;
    var n :| 0 <= n < |changes| && changes[n] == c;
    forall l | 0 <= l < |changes| && ParseIdentity(changes[l].objectIdentity) == Some(Identity(k, [])) ensures l == n {
      ParsedIdentity(changes[l].objectIdentity);
      ParsedIdentity(changes[n].objectIdentity);
    }
    NameChangeDrop(changes, k, n);
    NameChangeHead(changes[n..], k);
    if FindChange(c.propertyChanges, "/name").None? {
      NameChangeDrop(changes, k, |changes|);
      assert changes[|changes|..] == [];
      NameChangeNone(k);
    }
  }

  lemma NameChangeHead(changes: seq<ObjectChange>, k: Kind)
    requires changes != [] && ParseIdentity(changes[0].objectIdentity) == Some(Identity(k, [])) && changes[0].change == "changed"
    ensures FindChange(changes[0].propertyChanges, "/name").Some? ==> NameChange(changes, k) == FindChange(changes[0].propertyChanges, "/name")
  {
    hide ParseIdentity;
  }

  lemma NameChangeNone(k: Kind)
    ensures NameChange([], k) == None
  {
  }

  lemma NoNameChange(changes: seq<ObjectChange>, k: Kind)
    requires forall c :: c in changes ==> ParseIdentity(c.objectIdentity) != Some(Identity(k, []))
    ensures NameChange(changes, k) == None
  {
  }

  /** The name entry of a root tells the names of the two projections. */
  lemma RootNameTold(a: Objects, b: Objects, base: Snapshot, cand: Snapshot, changes: seq<ObjectChange>, k: Kind)
    requires Pair(a, b, base, cand) && IsListing(a, b, changes) && (k == DataSourceKind || k == DatabaseKind)
    ensures NamesTold(changes, k, NameOf(Identity(k, []), base), NameOf(Identity(k, []), cand))
  {
    hide ObjectOk, Describes, ParseIdentity, EntryAccepted, IdentityJson, NameChange, Pair, Differs;
    var i := Identity(k, []);
    RootFacts(a, b, base, cand, i);
    var left, right := a[i].properties, b[i].properties;
    IdentitiesDistinct(a, b, changes);
    if ListsIdentity(changes, i) {
      var c :| c in changes && c.objectIdentity == IdentityJson(i);
      var j := EntryIdentity(a, b, base, cand, changes, c);
      ParseIdentityJson(i);
      RootEntry(a, b, i, c);
      NameChangeAt(changes, k, c);
      NameEntry(left, right, c.propertyChanges);
    } else {
      assert !Differs(a, b, i);
      RootUnchanged(a, b, i);
      assert Lookup(left, "/name") == Lookup(right, "/name");
      forall c | c in changes ensures ParseIdentity(c.objectIdentity) != Some(i) {
        ParsedIdentity(c.objectIdentity);
      }
      NoNameChange(changes, k);
    }
  }

  lemma RootFacts(a: Objects, b: Objects, base: Snapshot, cand: Snapshot, i: Identity)
    requires Pair(a, b, base, cand) && (i == Identity(DataSourceKind, []) || i == Identity(DatabaseKind, []))
    ensures i in a && i in b && ValidIdentity(i)
    ensures Lookup(a[i].properties, "/name") == Present(Str(NameOf(i, base)))
    ensures Lookup(b[i].properties, "/name") == Present(Str(NameOf(i, cand)))
  {
    assert i in a && i in b by { hide ObjectOk; }
    hide WellProjected, PropertiesOk, FixedValueOk, FixedPaths, SideCoherent;
    ObjectFacts(a, base, i);
    ObjectFacts(b, cand, i);
  }

  lemma RootEntry(a: Objects, b: Objects, i: Identity, c: ObjectChange)
    requires Describes(a, b, i, c) && i in a && i in b
    ensures c.change == "changed" && IsDiff(a[i].properties, b[i].properties, c.propertyChanges)
  {
    hide IsDiff;
  }

  lemma RootUnchanged(a: Objects, b: Objects, i: Identity)
    requires !Differs(a, b, i) && i in a && i in b
    ensures SameProperties(a[i].properties, b[i].properties)
  {
  }

  /** What a diff says about one property. */
  lemma NameEntry(left: Properties, right: Properties, changes: seq<PropertyChange>)
    requires IsDiff(left, right, changes)
    ensures FindChange(changes, "/name") ==
      if Lookup(left, "/name") == Lookup(right, "/name") then None
      else Some(PropertyChange("/name", Lookup(left, "/name"), Lookup(right, "/name")))
  {
  }

  // ----- the theorem

  /** Every comparison that is built from two well-formed snapshots is accepted. */
  lemma BuiltIsAccepted(base: Snapshot, cand: Snapshot, x: Comparison)
    requires ModelOk(base.model) && ModelOk(cand.model) && IsBuilt(base, cand, x)
    ensures Accepts(x)
  {
    hide ModelOk, IsProjection, WellProjected, IsListing, SummaryOf, SummaryCounts, EntryAccepted, NamesTold, HierarchyConsistent, RootsMatched, DistinctIdentities;
    var pb, pc :| BuiltFrom(base, cand, pb, pc, x);
    var a, b, changes := pb.objects, pc.objects, x.objectChanges;
    ProjectionSound(base, pb);
    ProjectionSound(cand, pc);
    assert Pair(a, b, base, cand);
    forall c | c in changes ensures EntryAccepted(c) {
      var i := EntryIdentity(a, b, base, cand, changes, c);
    }
    IdentitiesDistinct(a, b, changes);
    RootsStay(a, b, base, cand, changes);
    RootNameTold(a, b, base, cand, changes, DataSourceKind);
    RootNameTold(a, b, base, cand, changes, DatabaseKind);
    HierarchyKept(a, b, base, cand, changes);
    ListingOrdered(a, b, changes);
    EnvelopeVersion(base, pb);
    EnvelopeVersion(cand, pc);
    UnchangedCounted(a, b, x.summary);
  }

  lemma ListingOrdered(a: Objects, b: Objects, changes: seq<ObjectChange>)
    requires IsListing(a, b, changes)
    ensures StrictlyOrdered(ChangeKey, changes)
  {
  }

  lemma EnvelopeVersion(snap: Snapshot, p: Projected)
    requires IsProjection(snap, p)
    ensures snap.contractVersion == SCANNER_CONTRACT_VERSION
  {
  }

  lemma UnchangedCounted(a: Objects, b: Objects, s: Summary)
    requires SummaryOf(a, b, s)
    ensures s.unchangedObjects >= 0
  {
  }

  /** The producer and the check, run one after the other. */
  method BuildAndValidate(baseline: Snapshot, candidate: Snapshot, ack: RootAlignmentAck) returns (r: Result<Artifact>)
    requires ModelOk(baseline.model) && ModelOk(candidate.model)
    ensures r.Success? <==> Comparable(baseline, candidate, ack)
    ensures r.Success? ==> Accepts(r.value.payload)
  {
    r := BuildComparisonResult(baseline, candidate, ack);
    if r.Success? {
      BuiltIsAccepted(baseline, candidate, r.value.payload);
    }
  }
}
