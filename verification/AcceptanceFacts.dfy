/**
 What the independent check of a comparison accepts, spelled out in the persisted form: which
 parent an entry has, and which values a property of each kind of object may take.
 */
module AcceptanceFacts {
  import opened Outcomes
  import opened JsonText
  import opened Pointers
  import opened Identities
  import opened Snapshots
  import opened Declarations
  import opened PropertyChecks
  import opened Comparisons
  import opened Artifacts
  import opened ComparisonCheck
  import opened ModelFacts
  import opened ProducerSoundness

  // ----- identities and parents

  /** The persisted identities of an object and of its container. */
  predicate InContainer(subject: Json, container: Json, kind: string, path: seq<string>) {
    && subject == Named(kind, path) && "" !in path
    && match |path|
       case 0 => (kind == "data_source" && container == Null) || (kind == "database" && container == Named("data_source", []))
       case 1 => kind == "schema" && container == Named("database", [])
       case 2 => kind == "table" && container == Named("schema", [path[0]])
       case 3 => kind in {"column", "primary_key", "foreign_key", "relationship"} && container == Named("table", [path[0], path[1]])
       case _ => false
  }

  lemma ReadsExactly(j: Json, i: Identity)
    ensures ParseIdentity(j) == Some(i) <==> ValidIdentity(i) && j == Named(KindText(i.kind), i.path)
  {
    hide ParseIdentity, IdentityJson, Named;
    ParseIdentityJson(i);
    NamedIdentity(i);
    if ParseIdentity(j) == Some(i) { ParsedIdentity(j); }
  }

  /** An accepted entry names an object and, as its parent, the object one level up on the same path. */
  lemma ParentExactly(i: Identity, parent: Json)
    requires ValidIdentity(i)
    ensures ParentMatches(i, parent) <==> InContainer(Named(KindText(i.kind), i.path), parent, KindText(i.kind), i.path)
  {
    hide Named, ParseIdentity;
    if ExpectedParent(i).Some? {
      ReadsExactly(parent, ExpectedParent(i).value);
    }
    if |i.path| == 2 { assert i.path[..1] == [i.path[0]]; }
    if |i.path| == 3 { assert i.path[..2] == [i.path[0], i.path[1]]; }
  }

  lemma AcceptedEntryNamed(x: Comparison, e: ObjectChange)
    requires Accepts(x) && e in x.objectChanges
    ensures exists kind, path :: InContainer(e.objectIdentity, e.parentIdentity, kind, path)
  {
    hide InContainer, ParseIdentity, ParentMatches, PropertiesAccepted;
    assert EntryAccepted(e);
    var i := ParseIdentity(e.objectIdentity).value;
    ReadsExactly(e.objectIdentity, i);
    ParentExactly(i, e.parentIdentity);
  }

  // ----- values

  predicate IsText(v: Json) { v.Str? && NonBlank(v.s) }

  ghost predicate IsOwner(v: Json) {
    v == Null || exists name, kind ::
      NonBlank(name) && NonBlank(kind) && v == Obj([Member("owner_name", Str(name)), Member("owner_type", Str(kind))])
  }

  ghost predicate IsTable(v: Json) {
    exists s, t :: s != "" && t != "" && v == Named("table", [s, t])
  }

  /** Columns of one table: a list that is not empty. */
  ghost predicate AreColumns(v: Json, s: string, t: string) {
    s != "" && t != "" && exists names: seq<string> :: names != [] && "" !in names && v == NamedColumns(s, t, names)
  }

  /** The value of a property that is on both sides, by kind of object. */
  ghost predicate Allowed(i: Identity, pointer: string, v: Json)
    requires ValidIdentity(i)
  {
    match i.kind
    case DataSourceKind => (pointer == "/name" && IsText(v)) || pointer == "/description" || (pointer == "/ownership" && IsOwner(v))
    case DatabaseKind => (pointer == "/name" && IsText(v)) || pointer == "/description" || (pointer == "/ownership" && IsOwner(v))
    case SchemaKind => pointer == "/description" || (pointer == "/ownership" && IsOwner(v))
    case TableKind => pointer == "/description" || (pointer == "/ownership" && IsOwner(v))
    case ColumnKind =>
      || (pointer == "/data_type" && IsText(v)) || (pointer == "/ordinal_position" && v.Int? && v.n >= 1)
      || (pointer == "/nullable" && v.Bool?) || pointer == "/description"
    case PrimaryKeyKind => pointer == "/column_ids" && AreColumns(v, i.path[0], i.path[1])
    case ForeignKeyKind =>
      || (pointer == "/column_ids" && AreColumns(v, i.path[0], i.path[1]))
      || (pointer == "/referenced_table_id" && IsTable(v))
      || (pointer == "/referenced_column_ids" && exists s, t :: AreColumns(v, s, t))
    case RelationshipKind =>
      || (pointer == "/to_table_id" && IsTable(v)) || (pointer == "/foreign_key_id" && IsKeyOf(v, i.path[0], i.path[1]))
      || pointer == "/description"
  }

  /** No foreign key, or one of this table. */
  ghost predicate IsKeyOf(v: Json, s: string, t: string) {
    v == Null || exists k :: k != "" && v == Named("foreign_key", [s, t, k])
  }

  /** A technical attribute of an object that has such attributes. */
  ghost predicate IsTechnical(k: Kind, pointer: string) {
    k in {DataSourceKind, TableKind, ColumnKind} && exists key :: Parse(pointer) == Some(["technical_attributes", key])
  }

  lemma TechnicalRecognized(pointer: string)
    ensures (IsTechPointer(pointer) && Parse(pointer).Some? && |Parse(pointer).value| == 2 && Parse(pointer).value[0] == TECH)
       <==> exists key :: Parse(pointer) == Some(["technical_attributes", key])
  {
    hide Parse, IsTechPointer, Print;
    if Parse(pointer).Some? && |Parse(pointer).value| == 2 && Parse(pointer).value[0] == TECH {
      assert Parse(pointer).value == ["technical_attributes", Parse(pointer).value[1]];
    }
    if key :| Parse(pointer) == Some(["technical_attributes", key]) {
      PrintParsed(pointer);
      TechPointerPrint(key);
      TechPointerCompatible(key);
    }
  }

  lemma OwnerExactly(v: Json)
    ensures ValidOwnership(v) <==> IsOwner(v)
  {
    hide NonBlank;
    if ValidOwnership(v) && v != Null {
      var name, kind := v.members[0].value.s, v.members[1].value.s;
      assert v.members == [Member("owner_name", Str(name)), Member("owner_type", Str(kind))];
    }
  }

  lemma TableExactly(v: Json)
    ensures IsRef(v, TableKind) <==> IsTable(v)
  {
    hide ParseIdentity, Named;
    if IsRef(v, TableKind) {
      var i := ParseIdentity(v).value;
      ReadsExactly(v, i);
      assert i.path == [i.path[0], i.path[1]];
    }
    if s, t :| s != "" && t != "" && v == Named("table", [s, t]) {
      ReadsExactly(v, Identity(TableKind, [s, t]));
    }
  }

  lemma KeyExactly(v: Json, s: string, t: string)
    requires s != "" && t != ""
    ensures ValidForeignKeyRef(v, [s, t]) <==> IsKeyOf(v, s, t)
  {
    hide ParseIdentity, Named;
    if IsRef(v, ForeignKeyKind) && ParseIdentity(v).value.path[..2] == [s, t] {
      var i := ParseIdentity(v).value;
      ReadsExactly(v, i);
      assert i.path == i.path[..2] + [i.path[2]] == [s, t, i.path[2]];
    }
    if k :| k != "" && v == Named("foreign_key", [s, t, k]) {
      ReadsExactly(v, Identity(ForeignKeyKind, [s, t, k]));
      assert [s, t, k][..2] == [s, t];
    }
  }

  lemma ColumnExactly(v: Json, s: string, t: string)
    requires s != "" && t != ""
    ensures IsRef(v, ColumnKind) && TablePrefix(v) == [s, t] <==> exists c :: c != "" && v == Named("column", [s, t, c])
  {
    hide ParseIdentity, Named;
    if IsRef(v, ColumnKind) && TablePrefix(v) == [s, t] {
      var i := ParseIdentity(v).value;
      ReadsExactly(v, i);
      assert i.path == i.path[..2] + [i.path[2]] == [s, t, i.path[2]];
    }
    if c :| c != "" && v == Named("column", [s, t, c]) {
      ReadsExactly(v, Identity(ColumnKind, [s, t, c]));
      assert [s, t, c][..2] == [s, t];
    }
  }

  /** Each item refers to a column of the table. */
  ghost predicate EachColumn(items: seq<Json>, s: string, t: string) {
    forall i :: 0 <= i < |items| ==> IsRef(items[i], ColumnKind) && TablePrefix(items[i]) == [s, t]
  }

  lemma {:induction false} NamesOf(items: seq<Json>, s: string, t: string) returns (names: seq<string>)
    requires s != "" && t != "" && EachColumn(items, s, t)
    ensures "" !in names && Arr(items) == NamedColumns(s, t, names)
  {
    hide IsRef, TablePrefix, Named;
    names := [];
    if items != [] {
      var n := |items| - 1;
      assert items == items[..n] + [items[n]];
      var before := NamesOf(items[..n], s, t);
      ColumnExactly(items[n], s, t);
      var c :| c != "" && items[n] == Named("column", [s, t, c]);
      names := before + [c];
      assert items[..n] == NamedColumns(s, t, before).items;
    }
    assert items == NamedColumns(s, t, names).items;
  }

  lemma ColumnsExactly(v: Json, s: string, t: string)
    requires s != "" && t != ""
    ensures v.Arr? && v.items != [] && EachColumn(v.items, s, t) <==> AreColumns(v, s, t)
  {
    hide IsRef, TablePrefix, Named;
    if v.Arr? && v.items != [] && EachColumn(v.items, s, t) {
      var names := NamesOf(v.items, s, t);
      assert |names| == |v.items|;
    }
    if names: seq<string> :| names != [] && "" !in names && v == NamedColumns(s, t, names) {
      forall i | 0 <= i < |v.items| ensures IsRef(v.items[i], ColumnKind) && TablePrefix(v.items[i]) == [s, t] {
        assert names[i] in names;
        ColumnExactly(v.items[i], s, t);
      }
    }
  }

  lemma OwnColumnsExactly(v: Json, s: string, t: string)
    requires s != "" && t != ""
    ensures ValidColumnList(v, Some([s, t]), false) <==> AreColumns(v, s, t)
  {
    hide AreColumns, IsRef, TablePrefix;
    ColumnsExactly(v, s, t);
  }

  lemma SomeColumnsExactly(v: Json)
    ensures ValidColumnList(v, None, true) <==> exists s, t :: AreColumns(v, s, t)
  {
    hide IsRef, TablePrefix, NamedColumns;
    if ValidColumnList(v, None, true) {
      var s, t := FirstTable(v.items[0]);
      assert EachColumn(v.items, s, t);
      ColumnsExactly(v, s, t);
    }
    if s, t :| AreColumns(v, s, t) {
      ColumnsExactly(v, s, t);
    }
  }

  lemma FirstTable(v: Json) returns (s: string, t: string)
    requires IsRef(v, ColumnKind)
    ensures s != "" && t != "" && TablePrefix(v) == [s, t]
  {
    hide ParseIdentity;
    var path := ParseIdentity(v).value.path;
    s, t := path[0], path[1];
    assert s in path && t in path && path[..2] == [s, t];
  }

  lemma ContainerValue(i: Identity, pointer: string, v: Json)
    requires ValidIdentity(i) && !IsTechPointer(pointer) && i.kind in {DataSourceKind, DatabaseKind, SchemaKind, TableKind}
    ensures ChangeCompatible(i.kind, pointer) && ValidFixedValue(pointer, v, i) <==> Allowed(i, pointer, v)
  {
    hide ValidColumnList, ValidOwnership, IsOwner, IsRef, NonBlank, ValidForeignKeyRef, IsTechPointer;
    OwnerExactly(v);
  }

  lemma ColumnValue(i: Identity, pointer: string, v: Json)
    requires ValidIdentity(i) && !IsTechPointer(pointer) && i.kind == ColumnKind
    ensures ChangeCompatible(i.kind, pointer) && ValidFixedValue(pointer, v, i) <==> Allowed(i, pointer, v)
  {
    hide ValidColumnList, ValidOwnership, IsRef, NonBlank, ValidForeignKeyRef, IsTechPointer;
  }

  lemma KeyValue(i: Identity, pointer: string, v: Json)
    requires ValidIdentity(i) && !IsTechPointer(pointer) && i.kind in {PrimaryKeyKind, ForeignKeyKind}
    ensures ChangeCompatible(i.kind, pointer) && ValidFixedValue(pointer, v, i) <==> Allowed(i, pointer, v)
  {
    hide ValidColumnList, ValidOwnership, IsRef, IsTable, AreColumns, NonBlank, ValidForeignKeyRef, IsTechPointer;
    TableExactly(v);
    SomeColumnsExactly(v);
    assert i.path[0] in i.path && i.path[1] in i.path && i.path[..2] == [i.path[0], i.path[1]];
    OwnColumnsExactly(v, i.path[0], i.path[1]);
  }

  lemma RelationshipValue(i: Identity, pointer: string, v: Json)
    requires ValidIdentity(i) && !IsTechPointer(pointer) && i.kind == RelationshipKind
    ensures ChangeCompatible(i.kind, pointer) && ValidFixedValue(pointer, v, i) <==> Allowed(i, pointer, v)
  {
    hide ValidColumnList, ValidOwnership, IsRef, IsTable, IsKeyOf, NonBlank, ValidForeignKeyRef, IsTechPointer;
    TableExactly(v);
    assert i.path[0] in i.path && i.path[1] in i.path && i.path[..2] == [i.path[0], i.path[1]];
    KeyExactly(v, i.path[0], i.path[1]);
  }

  /** A value the check takes for a fixed property, given that the property may change at all. */
  lemma ValueExactly(i: Identity, pointer: string, v: Json)
    requires ValidIdentity(i) && !IsTechPointer(pointer)
    ensures ChangeCompatible(i.kind, pointer) && ValidFixedValue(pointer, v, i) <==> Allowed(i, pointer, v)
  {
    hide ChangeCompatible, ValidFixedValue, Allowed, IsTechPointer;
    match i.kind
    case ColumnKind => ColumnValue(i, pointer, v);
    case PrimaryKeyKind => KeyValue(i, pointer, v);
    case ForeignKeyKind => KeyValue(i, pointer, v);
    case RelationshipKind => RelationshipValue(i, pointer, v);
    case _ => ContainerValue(i, pointer, v);
  }

  /** The property is on both sides, with values of the form its kind allows. */
  ghost predicate BothAllowed(i: Identity, c: PropertyChange)
    requires ValidIdentity(i)
  {
    && c.baseline.Present? && c.candidate.Present?
    && Allowed(i, c.property, c.baseline.value) && Allowed(i, c.property, c.candidate.value)
  }

  /** An accepted property change: other values than before, of a technical attribute or of the form its kind allows. */
  lemma ChangeAcceptedExactly(i: Identity, c: PropertyChange)
    requires ValidIdentity(i)
    ensures PropertyAccepted(i, c) <==> c.baseline != c.candidate && (IsTechnical(i.kind, c.property) || BothAllowed(i, c))
  {
    hide Parse, IsTechPointer, ValidFixedValue, Allowed;
    TechnicalRecognized(c.property);
    NamesNotTechnical();
    if IsTechPointer(c.property) {
      if c.baseline.Present? { TechnicalNotAllowed(i, c.property, c.baseline.value); }
    } else {
      if c.baseline.Present? { ValueExactly(i, c.property, c.baseline.value); }
      if c.candidate.Present? { ValueExactly(i, c.property, c.candidate.value); }
      if ChangeCompatible(i.kind, c.property) { FixedPointer(i.kind, c.property); }
    }
  }

  lemma NamesNotTechnical()
    ensures !IsTechPointer("/name") && !IsTechPointer("/system_type")
  {
  }

  lemma TechnicalNotAllowed(i: Identity, pointer: string, v: Json)
    requires ValidIdentity(i) && IsTechPointer(pointer)
    ensures !Allowed(i, pointer, v)
  {
    hide Parse;
    assert pointer[1] == 't' && pointer[2] == 'e' && |pointer| >= 22;
  }
}
