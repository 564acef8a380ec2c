/**
 What a snapshot says, by names instead of raw ids: one fact for each object, with the fields of
 the domain model. A projection tells exactly these facts.
 */
module ModelFacts {
  import opened Outcomes
  import opened JsonText
  import opened Pointers
  import opened Identities
  import opened Snapshots
  import opened Declarations
  import opened Registry
  import opened PropertyChecks
  import opened Projection
  import opened ProjectionProofs

  datatype Fact =
    | SourceFact(name: string, systemType: string, description: Json, ownership: Option<Ownership>, technical: map<string, Json>)
    | DatabaseFact(name: string, description: Json, ownership: Option<Ownership>)
    | SchemaFact(schema: string, description: Json, ownership: Option<Ownership>)
    | TableFact(schema: string, table: string, description: Json, ownership: Option<Ownership>, technical: map<string, Json>)
    | ColumnFact(schema: string, table: string, column: string, dataType: string, ordinalPosition: int, nullable: bool,
        description: Json, technical: map<string, Json>)
    | PrimaryKeyFact(schema: string, table: string, key: string, columns: seq<string>)
    | ForeignKeyFact(schema: string, table: string, key: string, columns: seq<string>,
        toSchema: string, toTable: string, toColumns: seq<string>)
    | RelationshipFact(schema: string, table: string, relationship: string, toSchema: string, toTable: string,
        foreignKey: Option<string>, description: Json)

  // ----- the facts of a snapshot

  ghost predicate NamesColumn(t: Table, id: string, name: string) {
    exists c :: c in t.columns && c.id == id && c.name == name
  }

  /** The raw ids of columns of `t`, by the names of those columns. */
  ghost predicate NamesColumns(t: Table, ids: seq<string>, names: seq<string>) {
    |ids| == |names| && forall i :: 0 <= i < |ids| ==> NamesColumn(t, ids[i], names[i])
  }

  ghost predicate NamesForeignKey(t: Table, id: Option<string>, name: Option<string>) {
    match (id, name)
    case (None, None) => true
    case (Some(raw), Some(n)) => exists k :: k in t.foreignKeys && k.id == raw && k.name == n
    case _ => false
  }

  /** The table with raw id `id`, by its name and that of its schema. */
  ghost predicate NamesTable(snap: Snapshot, id: string, s: Schema, t: Table)
    requires OneDatabase(snap)
  {
    s in snap.model.dataSources[0].databases[0].schemas && t in s.tables && t.id == id
  }

  /** `f` is what `snap` says of the object `d`. */
  ghost predicate Says(snap: Snapshot, d: Decl, f: Fact)
    requires OneDatabase(snap)
  {
    match d
    case DataSourceDecl(ds) => f == SourceFact(ds.name, ds.systemType, ds.description, ds.ownership, ds.technicalAttributes)
    case DatabaseDecl(db) => f == DatabaseFact(db.name, db.description, db.ownership)
    case SchemaDecl(s) => f == SchemaFact(s.name, s.description, s.ownership)
    case TableDecl(s, t) => f == TableFact(s.name, t.name, t.description, t.ownership, t.technicalAttributes)
    case ColumnDecl(s, t, c) =>
      f == ColumnFact(s.name, t.name, c.name, c.dataType, c.ordinalPosition, c.nullable, c.description, c.technicalAttributes)
    case PrimaryKeyDecl(s, t, k) =>
      exists columns :: NamesColumns(t, k.columnIds, columns) && f == PrimaryKeyFact(s.name, t.name, k.name, columns)
    case ForeignKeyDecl(s, t, k) =>
      exists s', t', columns, toColumns ::
        && NamesTable(snap, k.referencedTableId, s', t')
        && NamesColumns(t, k.columnIds, columns) && NamesColumns(t', k.referencedColumnIds, toColumns)
        && f == ForeignKeyFact(s.name, t.name, k.name, columns, s'.name, t'.name, toColumns)
    case RelationshipDecl(s, t, r) =>
      exists s', t', foreignKey ::
        && NamesTable(snap, r.toTableId, s', t') && NamesForeignKey(t, r.foreignKeyId, foreignKey)
        && f == RelationshipFact(s.name, t.name, r.name, s'.name, t'.name, foreignKey, r.description)
  }

  ghost predicate States(snap: Snapshot, f: Fact) {
    OneDatabase(snap) && exists d :: Declared(snap, d) && Says(snap, d, f)
  }

  // ----- how facts are told

  /** The persisted form of an identity: its kind and its path of names. */
  function Named(kind: string, path: seq<string>): Json {
    Obj([Member("kind", Str(kind)), Member("path", Arr(seq(|path|, i requires 0 <= i < |path| => Str(path[i]))))])
  }

  function SubjectKind(f: Fact): string {
    match f
    case SourceFact(_, _, _, _, _) => "data_source"
    case DatabaseFact(_, _, _) => "database"
    case SchemaFact(_, _, _) => "schema"
    case TableFact(_, _, _, _, _) => "table"
    case ColumnFact(_, _, _, _, _, _, _, _) => "column"
    case PrimaryKeyFact(_, _, _, _) => "primary_key"
    case ForeignKeyFact(_, _, _, _, _, _, _) => "foreign_key"
    case RelationshipFact(_, _, _, _, _, _, _) => "relationship"
  }

  function SubjectPath(f: Fact): seq<string> {
    match f
    case SourceFact(_, _, _, _, _) => []
    case DatabaseFact(_, _, _) => []
    case SchemaFact(s, _, _) => [s]
    case TableFact(s, t, _, _, _) => [s, t]
    case ColumnFact(s, t, c, _, _, _, _, _) => [s, t, c]
    case PrimaryKeyFact(s, t, k, _) => [s, t, k]
    case ForeignKeyFact(s, t, k, _, _, _, _) => [s, t, k]
    case RelationshipFact(s, t, r, _, _, _, _) => [s, t, r]
  }

  /** The object a fact is about. */
  function Subject(f: Fact): Json { Named(SubjectKind(f), SubjectPath(f)) }

  /** The object that contains it. */
  function Container(f: Fact): Json {
    match f
    case SourceFact(_, _, _, _, _) => Null
    case DatabaseFact(_, _, _) => Named("data_source", [])
    case SchemaFact(_, _, _) => Named("database", [])
    case TableFact(s, _, _, _, _) => Named("schema", [s])
    case _ => Named("table", [f.schema, f.table])
  }

  function NamedColumns(schema: string, table: string, names: seq<string>): Json {
    Arr(seq(|names|, i requires 0 <= i < |names| => Named("column", [schema, table, names[i]])))
  }

  function NamedOwner(o: Option<Ownership>): Json {
    match o
    case None => Null
    case Some(w) => Obj([Member("owner_name", Str(w.ownerName)), Member("owner_type", Str(w.ownerType))])
  }

  /** The technical attribute that a pointer leads to. */
  function Technical(attributes: map<string, Json>, pointer: string): Side {
    match Parse(pointer)
    case None => Missing
    case Some(path) =>
      if |path| == 2 && path[0] == "technical_attributes" && path[1] in attributes then Present(attributes[path[1]]) else Missing
  }

  /** The value of a property, read off the fact. */
  function Told(f: Fact, pointer: string): Side {
    match f
    case SourceFact(name, systemType, description, ownership, technical) =>
      if pointer == "/name" then Present(Str(name))
      else if pointer == "/system_type" then Present(Str(systemType))
      else if pointer == "/description" then Present(description)
      else if pointer == "/ownership" then Present(NamedOwner(ownership))
      else Technical(technical, pointer)
    case DatabaseFact(name, description, ownership) =>
      if pointer == "/name" then Present(Str(name))
      else if pointer == "/description" then Present(description)
      else if pointer == "/ownership" then Present(NamedOwner(ownership))
      else Missing
    case SchemaFact(schema, description, ownership) =>
      if pointer == "/name" then Present(Str(schema))
      else if pointer == "/description" then Present(description)
      else if pointer == "/ownership" then Present(NamedOwner(ownership))
      else Missing
    case TableFact(_, table, description, ownership, technical) =>
      if pointer == "/name" then Present(Str(table))
      else if pointer == "/description" then Present(description)
      else if pointer == "/ownership" then Present(NamedOwner(ownership))
      else Technical(technical, pointer)
    case ColumnFact(_, _, column, dataType, ordinalPosition, nullable, description, technical) =>
      if pointer == "/name" then Present(Str(column))
      else if pointer == "/data_type" then Present(Str(dataType))
      else if pointer == "/ordinal_position" then Present(Int(ordinalPosition))
      else if pointer == "/nullable" then Present(Bool(nullable))
      else if pointer == "/description" then Present(description)
      else Technical(technical, pointer)
    case PrimaryKeyFact(schema, table, key, columns) =>
      if pointer == "/name" then Present(Str(key))
      else if pointer == "/column_ids" then Present(NamedColumns(schema, table, columns))
      else Missing
    case ForeignKeyFact(schema, table, key, columns, toSchema, toTable, toColumns) =>
      if pointer == "/name" then Present(Str(key))
      else if pointer == "/column_ids" then Present(NamedColumns(schema, table, columns))
      else if pointer == "/referenced_table_id" then Present(Named("table", [toSchema, toTable]))
      else if pointer == "/referenced_column_ids" then Present(NamedColumns(toSchema, toTable, toColumns))
      else Missing
    case RelationshipFact(schema, table, relationship, toSchema, toTable, foreignKey, description) =>
      if pointer == "/name" then Present(Str(relationship))
      else if pointer == "/to_table_id" then Present(Named("table", [toSchema, toTable]))
      else if pointer == "/foreign_key_id" then
        Present(match foreignKey case None => Null case Some(k) => Named("foreign_key", [schema, table, k]))
      else if pointer == "/description" then Present(description)
      else Missing
  }

  // ----- a projection tells the facts

  lemma NamedIdentity(i: Identity)
    ensures IdentityJson(i) == Named(KindText(i.kind), i.path)
  {
    assert Named(KindText(i.kind), i.path).members[1].value.items == Strings(i.path);
  }

  lemma NamedInjective(kind: string, kind': string, path: seq<string>, path': seq<string>)
    requires Named(kind, path) == Named(kind', path')
    ensures kind == kind' && path == path'
  {
    var u, v := Named(kind, path).members, Named(kind', path').members;
    assert u[0] == v[0] && u[1] == v[1];
    var x, y := u[1].value.items, v[1].value.items;
    assert |path| == |x| == |path'|;
    forall i | 0 <= i < |path| ensures path[i] == path'[i] { assert x[i] == y[i]; }
  }

  lemma SubjectOf(snap: Snapshot, d: Decl, f: Fact)
    requires OneDatabase(snap) && Says(snap, d, f)
    ensures Subject(f) == IdentityJson(IdentityOf(d))
    ensures Container(f) == match ParentOf(d) case None => Null case Some(p) => IdentityJson(p)
  {
    hide Named, IdentityJson, NamesColumns, NamesTable, NamesForeignKey;
    NamedIdentity(IdentityOf(d));
    if ParentOf(d).Some? { NamedIdentity(ParentOf(d).value); }
  }

  lemma OwnerTold(o: Option<Ownership>)
    ensures OwnershipJson(o) == NamedOwner(o)
  {
  }

  lemma TechnicalPresent(attributes: map<string, Json>, k: string)
    requires k in attributes
    ensures Technical(attributes, TechPointer(k)) == Present(attributes[k])
  {
    hide Parse, TechPointer;
    TechPointerText(k);
    assert [TECH, k][0] == "technical_attributes" && [TECH, k][1] == k;
  }

  lemma TechnicalPointer(attributes: map<string, Json>, pointer: string)
    requires Technical(attributes, pointer).Present?
    ensures exists k :: k in attributes && pointer == TechPointer(k)
  {
    hide Parse, Print;
    var path := Parse(pointer).value;
    PrintParsed(pointer);
    assert path == [TECH, path[1]];
    TechPointerPrint(path[1]);
  }

  lemma TechnicalProps(attributes: map<string, Json>, pointer: string)
    ensures Lookup(TechProps(attributes), pointer) == Technical(attributes, pointer)
  {
    hide TechProps, TechPointer, Technical;
    TechPropsMembers(attributes);
    if pointer in TechProps(attributes) {
      var k :| k in attributes && pointer == TechPointer(k);
      TechnicalPresent(attributes, k);
    } else if Technical(attributes, pointer).Present? {
      TechnicalPointer(attributes, pointer);
    }
  }

  /** Beyond its fixed properties an object has its technical attributes, and nothing else. */
  lemma TechnicalTold(raw: RawIndex, d: Decl, pointer: string)
    requires pointer !in FixedPaths(IdentityOf(d).kind)
    ensures Lookup(FinalObject(raw, d).properties, pointer) == Technical(TechAttributes(d), pointer)
  {
    hide FixedProps, References, TechProps, IdentityOf, FixedPaths, Technical, TechAttributes;
    FixedPropsKeys(d);
    ReferencesKeys(raw, d);
    TechnicalProps(TechAttributes(d), pointer);
  }

  lemma TechPointerPrint(key: string)
    ensures TechPointer(key) == Print([TECH, key])
  {
  }

  /** The fixed properties, except where references were patched in. */
  lemma FixedTold(raw: RawIndex, d: Decl, pointer: string)
    requires pointer in FixedPaths(IdentityOf(d).kind)
    ensures var props := FinalObject(raw, d).properties;
      Lookup(props, pointer) == if pointer in References(raw, d) then References(raw, d)[pointer] else Lookup(FixedProps(d), pointer)
  {
    hide FixedProps, References, FixedPaths, TechPointer, FinalObject, PropertiesOk;
    FinalProps(raw, d);
  }

  // ----- references tell names

  lemma RefTold(snap: Snapshot, raw: RawIndex, d: Decl)
    requires OneDatabase(snap) && Closed(AllDecls(snap), raw, snap) && d in AllDecls(snap)
    ensures RefOf(raw, RawId(d)) == Named(KindText(IdentityOf(d).kind), IdentityOf(d).path)
  {
    hide AllDecls, Distinct, DeclOk, Linked, Resolved, RawId, IdentityOf, Named, IdentityJson, KindText;
    NamedIdentity(IdentityOf(d));
  }

  lemma ColumnTold(snap: Snapshot, raw: RawIndex, s: Schema, t: Table, c: Column)
    requires OneDatabase(snap) && Closed(AllDecls(snap), raw, snap) && TableDecl(s, t) in AllDecls(snap) && c in t.columns
    ensures RefOf(raw, c.id) == Named("column", [s.name, t.name, c.name])
  {
    hide AllDecls, Closed, Named, RefOf, InDatabase;
    AllDeclsMembers(snap);
    assert Declared(snap, ColumnDecl(s, t, c)) by { ColumnInside(snap, s, t, c); }
    RefTold(snap, raw, ColumnDecl(s, t, c));
  }

  lemma ColumnInside(snap: Snapshot, s: Schema, t: Table, c: Column)
    requires OneDatabase(snap) && Declared(snap, TableDecl(s, t)) && c in t.columns
    ensures Declared(snap, ColumnDecl(s, t, c))
  {
  }

  lemma ColumnsTold(snap: Snapshot, raw: RawIndex, s: Schema, t: Table, ids: seq<string>, names: seq<string>)
    requires OneDatabase(snap) && Closed(AllDecls(snap), raw, snap) && TableDecl(s, t) in AllDecls(snap)
    requires NamesColumns(t, ids, names)
    ensures Arr(RefList(raw, ids)) == NamedColumns(s.name, t.name, names)
  {
    hide AllDecls, Closed, Named, RefOf, RefList;
    forall i | 0 <= i < |ids| ensures RefOf(raw, ids[i]) == Named("column", [s.name, t.name, names[i]]) {
      assert NamesColumn(t, ids[i], names[i]);
      var c :| c in t.columns && c.id == ids[i] && c.name == names[i];
      ColumnTold(snap, raw, s, t, c);
    }
    assert RefList(raw, ids) == NamedColumns(s.name, t.name, names).items;
  }

  lemma TableDeclared(snap: Snapshot, id: string, s: Schema, t: Table)
    requires OneDatabase(snap)
    ensures NamesTable(snap, id, s, t) <==> TableDecl(s, t) in AllDecls(snap) && t.id == id
  {
    hide AllDecls;
    AllDeclsMembers(snap);
  }

  lemma TableTold(snap: Snapshot, raw: RawIndex, id: string, s: Schema, t: Table)
    requires OneDatabase(snap) && Closed(AllDecls(snap), raw, snap) && NamesTable(snap, id, s, t)
    ensures TableDecl(s, t) in AllDecls(snap) && RefOf(raw, id) == Named("table", [s.name, t.name])
  {
    hide AllDecls, Closed, Named, RefOf, NamesTable;
    TableDeclared(snap, id, s, t);
    RefTold(snap, raw, TableDecl(s, t));
  }

  lemma KeyTold(snap: Snapshot, raw: RawIndex, s: Schema, t: Table, k: ForeignKey)
    requires OneDatabase(snap) && Closed(AllDecls(snap), raw, snap) && TableDecl(s, t) in AllDecls(snap) && k in t.foreignKeys
    ensures RefOf(raw, k.id) == Named("foreign_key", [s.name, t.name, k.name])
  {
    hide AllDecls, Closed, Named, RefOf;
    AllDeclsMembers(snap);
    assert Declared(snap, ForeignKeyDecl(s, t, k));
    RefTold(snap, raw, ForeignKeyDecl(s, t, k));
  }

  // ----- the properties of each kind

  lemma ContainedTold(snap: Snapshot, raw: RawIndex, d: Decl, f: Fact, pointer: string)
    requires OneDatabase(snap) && Says(snap, d, f)
    requires !d.PrimaryKeyDecl? && !d.ForeignKeyDecl? && !d.RelationshipDecl?
    ensures Lookup(FinalObject(raw, d).properties, pointer) == Told(f, pointer)
  {
    hide FinalObject, Technical, NamedOwner, OwnershipJson, PropsOf;
    if pointer in FixedPaths(IdentityOf(d).kind) {
      FixedTold(raw, d, pointer);
      if d.DataSourceDecl? { OwnerTold(d.ds.ownership); }
      if d.DatabaseDecl? { OwnerTold(d.db.ownership); }
      if d.SchemaDecl? { OwnerTold(d.s.ownership); }
      if d.TableDecl? { OwnerTold(d.t.ownership); }
    } else {
      TechnicalTold(raw, d, pointer);
      NoTechnical(pointer);
    }
  }

  lemma NoTechnical(pointer: string)
    ensures Technical(map[], pointer) == Missing
  {
  }

  lemma PrimaryKeyTold(snap: Snapshot, raw: RawIndex, d: Decl, f: Fact, pointer: string)
    requires OneDatabase(snap) && Closed(AllDecls(snap), raw, snap) && d in AllDecls(snap) && Says(snap, d, f) && d.PrimaryKeyDecl?
    ensures Lookup(FinalObject(raw, d).properties, pointer) == Told(f, pointer)
  {
    hide AllDecls, Closed, FinalObject, Technical, NamedColumns, RefList, NamesColumns, Resolved, DeclOk;
    NoTechnical(pointer);
    if pointer in FixedPaths(PrimaryKeyKind) {
      FixedTold(raw, d, pointer);
      PrimaryKeyFacts(AllDecls(snap), raw, snap, d);
      ColumnsTold(snap, raw, d.s, d.t, d.pk.columnIds, f.columns);
    } else {
      TechnicalTold(raw, d, pointer);
    }
  }

  lemma ForeignKeyTold(snap: Snapshot, raw: RawIndex, d: Decl, f: Fact, pointer: string)
    requires OneDatabase(snap) && Closed(AllDecls(snap), raw, snap) && d in AllDecls(snap) && Says(snap, d, f) && d.ForeignKeyDecl?
    ensures Lookup(FinalObject(raw, d).properties, pointer) == Told(f, pointer)
  {
    hide AllDecls, Closed, FinalObject, Technical, Named, NamedColumns, RefList, RefOf, NamesColumns, NamesTable, Resolved, DeclOk;
    NoTechnical(pointer);
    if pointer in FixedPaths(ForeignKeyKind) {
      FixedTold(raw, d, pointer);
      var s, t := ForeignKeyFacts(AllDecls(snap), raw, snap, d);
      var s', t', columns, toColumns :|
        && NamesTable(snap, d.fk.referencedTableId, s', t')
        && NamesColumns(d.t, d.fk.columnIds, columns) && NamesColumns(t', d.fk.referencedColumnIds, toColumns)
        && f == ForeignKeyFact(d.s.name, d.t.name, d.fk.name, columns, s'.name, t'.name, toColumns);
      TableTold(snap, raw, d.fk.referencedTableId, s', t');
      ColumnsTold(snap, raw, d.s, d.t, d.fk.columnIds, columns);
      ColumnsTold(snap, raw, s', t', d.fk.referencedColumnIds, toColumns);
    } else {
      TechnicalTold(raw, d, pointer);
    }
  }

  lemma RelationshipTold(snap: Snapshot, raw: RawIndex, d: Decl, f: Fact, pointer: string)
    requires OneDatabase(snap) && Closed(AllDecls(snap), raw, snap) && d in AllDecls(snap) && Says(snap, d, f) && d.RelationshipDecl?
    ensures Lookup(FinalObject(raw, d).properties, pointer) == Told(f, pointer)
  {
    hide AllDecls, Closed, FinalObject, Technical, Named, RefOf, NamesTable, Resolved, DeclOk;
    NoTechnical(pointer);
    if pointer in FixedPaths(RelationshipKind) {
      FixedTold(raw, d, pointer);
      RelationshipOrigin(AllDecls(snap), raw, snap, d);
      var s', t', foreignKey :|
        && NamesTable(snap, d.rel.toTableId, s', t') && NamesForeignKey(d.t, d.rel.foreignKeyId, foreignKey)
        && f == RelationshipFact(d.s.name, d.t.name, d.rel.name, s'.name, t'.name, foreignKey, d.rel.description);
      TableTold(snap, raw, d.rel.toTableId, s', t');
      if foreignKey.Some? {
        var k :| k in d.t.foreignKeys && k.id == d.rel.foreignKeyId.value && k.name == foreignKey.value;
        KeyTold(snap, raw, d.s, d.t, k);
      }
    } else {
      TechnicalTold(raw, d, pointer);
    }
  }

  /** Every object of a projection holds exactly the properties that the fact about it tells. */
  lemma ProjectionTells(snap: Snapshot, p: Projected, d: Decl, f: Fact)
    requires ModelOk(snap.model) && IsProjection(snap, p) && Declared(snap, d) && Says(snap, d, f)
    ensures IdentityOf(d) in p.objects
    ensures forall pointer :: Lookup(p.objects[IdentityOf(d)].properties, pointer) == Told(f, pointer)
  {
    hide IsProjection, ModelOk, AllDecls, Closed, Says, FinalObject, IdentityOf, Told, Declared;
    OneDatabaseProjected(snap, p);
    AllDeclsMembers(snap);
    ProjectionClosed(snap, p);
    ObjectDeclared(snap, p, d);
    var raw := p.rawToIdentity;
    forall pointer ensures Lookup(FinalObject(raw, d).properties, pointer) == Told(f, pointer) {
      match d
      case PrimaryKeyDecl(_, _, _) => PrimaryKeyTold(snap, raw, d, f, pointer);
      case ForeignKeyDecl(_, _, _) => ForeignKeyTold(snap, raw, d, f, pointer);
      case RelationshipDecl(_, _, _) => RelationshipTold(snap, raw, d, f, pointer);
      case _ => ContainedTold(snap, raw, d, f, pointer);
    }
  }

  // ----- every object has one fact, and its properties tell which

  lemma {:induction false} ColumnNames(t: Table, ids: seq<string>) returns (names: seq<string>)
    requires HasColumns(t, ids)
    ensures NamesColumns(t, ids, names)
  {
    names := [];
    if ids != [] {
      var n := |ids| - 1;
      assert HasColumn(t, ids[n]);
      var c :| c in t.columns && c.id == ids[n];
      var before := ColumnNames(t, ids[..n]);
      names := before + [c.name];
      forall i | 0 <= i < |ids| ensures NamesColumn(t, ids[i], names[i]) {
        if i < n { assert NamesColumn(t, ids[..n][i], before[i]); }
      }
    }
  }

  lemma FactOf(snap: Snapshot, p: Projected, d: Decl) returns (f: Fact)
    requires ModelOk(snap.model) && IsProjection(snap, p) && OneDatabase(snap) && Declared(snap, d)
    ensures Says(snap, d, f)
  {
    hide IsProjection, ModelOk, AllDecls, Closed, DeclOk, NamesTable, NamesColumns, HasColumns, Declared;
    AllDeclsMembers(snap);
    ProjectionClosed(snap, p);
    var log, raw := AllDecls(snap), p.rawToIdentity;
    match d {
      case DataSourceDecl(ds) => f := SourceFact(ds.name, ds.systemType, ds.description, ds.ownership, ds.technicalAttributes);
      case DatabaseDecl(db) => f := DatabaseFact(db.name, db.description, db.ownership);
      case SchemaDecl(s) => f := SchemaFact(s.name, s.description, s.ownership);
      case TableDecl(s, t) => f := TableFact(s.name, t.name, t.description, t.ownership, t.technicalAttributes);
      case ColumnDecl(s, t, c) =>
        f := ColumnFact(s.name, t.name, c.name, c.dataType, c.ordinalPosition, c.nullable, c.description, c.technicalAttributes);
      case PrimaryKeyDecl(s, t, k) =>
        PrimaryKeyFacts(log, raw, snap, d);
        var columns := ColumnNames(t, k.columnIds);
        f := PrimaryKeyFact(s.name, t.name, k.name, columns);
      case ForeignKeyDecl(s, t, k) =>
        var s', t' := ForeignKeyFacts(log, raw, snap, d);
        TableDeclared(snap, k.referencedTableId, s', t');
        var columns := ColumnNames(t, k.columnIds);
        var toColumns := ColumnNames(t', k.referencedColumnIds);
        f := ForeignKeyFact(s.name, t.name, k.name, columns, s'.name, t'.name, toColumns);
      case RelationshipDecl(s, t, r) =>
        var s', t' := RelationshipFacts(log, raw, snap, d);
        TableDeclared(snap, r.toTableId, s', t');
        var foreignKey: Option<string> := None;
        if r.foreignKeyId.Some? {
          var k := RelationshipJoin(log, raw, snap, d);
          KeyInside(snap, s, t, k);
          foreignKey := Some(k.name);
        }
        assert NamesForeignKey(t, r.foreignKeyId, foreignKey);
        f := RelationshipFact(s.name, t.name, r.name, s'.name, t'.name, foreignKey, r.description);
    }
  }

  lemma KeyInside(snap: Snapshot, s: Schema, t: Table, k: ForeignKey)
    requires OneDatabase(snap) && ForeignKeyDecl(s, t, k) in AllDecls(snap)
    ensures k in t.foreignKeys
  {
    hide AllDecls;
    AllDeclsMembers(snap);
  }

  lemma TechnicalInjective(a: map<string, Json>, b: map<string, Json>)
    requires forall k :: Technical(a, TechPointer(k)) == Technical(b, TechPointer(k))
    ensures a == b
  {
    hide TechPointer;
    forall k ensures k in a <==> k in b
      ensures k in a && k in b ==> a[k] == b[k]
    {
      TechPointerText(k);
      assert [TECH, k][0] == "technical_attributes" && [TECH, k][1] == k;
      assert Technical(a, TechPointer(k)) == Technical(b, TechPointer(k));
    }
  }

  lemma OwnerInjective(a: Option<Ownership>, b: Option<Ownership>)
    requires NamedOwner(a) == NamedOwner(b)
    ensures a == b
  {
    if a.Some? && b.Some? {
      var u, v := NamedOwner(a).members, NamedOwner(b).members;
      assert u[0] == v[0] && u[1] == v[1];
    }
  }

  lemma ColumnsInjective(s: string, t: string, a: seq<string>, b: seq<string>)
    requires NamedColumns(s, t, a) == NamedColumns(s, t, b)
    ensures a == b
  {
    hide Named;
    var u, v := NamedColumns(s, t, a).items, NamedColumns(s, t, b).items;
    assert |a| == |u| == |b|;
    forall i | 0 <= i < |a| ensures a[i] == b[i] {
      assert u[i] == v[i];
      NamedInjective("column", "column", [s, t, a[i]], [s, t, b[i]]);
      assert [s, t, a[i]][2] == [s, t, b[i]][2];
    }
  }

  ghost predicate ToldAlike(f: Fact, g: Fact) {
    forall pointer :: Told(f, pointer) == Told(g, pointer)
  }

  /** The pointers of technical attributes are not those of fixed properties. */
  lemma TechnicalApart(k: string, pointer: string)
    requires pointer in {"/name", "/system_type", "/description", "/ownership", "/data_type", "/ordinal_position", "/nullable"}
    ensures TechPointer(k) != pointer
  {
    hide TechPointer;
    TechPointerCompatible(k);
    if pointer in FixedPaths(DataSourceKind) {
      FixedNotTech(DataSourceKind, pointer);
    } else {
      FixedNotTech(ColumnKind, pointer);
    }
  }

  lemma SameTechnical(f: Fact, g: Fact)
    requires ToldAlike(f, g)
    requires (f.SourceFact? && g.SourceFact?) || (f.TableFact? && g.TableFact?) || (f.ColumnFact? && g.ColumnFact?)
    ensures f.technical == g.technical
  {
    hide TechPointer, Technical;
    forall k ensures Technical(f.technical, TechPointer(k)) == Technical(g.technical, TechPointer(k)) {
      TechnicalApart(k, "/name");
      TechnicalApart(k, "/system_type");
      TechnicalApart(k, "/description");
      TechnicalApart(k, "/ownership");
      TechnicalApart(k, "/data_type");
      TechnicalApart(k, "/ordinal_position");
      TechnicalApart(k, "/nullable");
      assert Told(f, TechPointer(k)) == Told(g, TechPointer(k));
    }
    TechnicalInjective(f.technical, g.technical);
  }

  lemma SameContainer(f: Fact, g: Fact)
    requires SamePath(f, g) && ToldAlike(f, g)
    requires f.SourceFact? || f.DatabaseFact? || f.SchemaFact? || f.TableFact?
    ensures f == g
  {
    hide NamedOwner, Technical;
    assert Told(f, "/name") == Told(g, "/name") && Told(f, "/description") == Told(g, "/description");
    assert Told(f, "/ownership") == Told(g, "/ownership");
    OwnerInjective(f.ownership, g.ownership);
    if f.SourceFact? { assert Told(f, "/system_type") == Told(g, "/system_type"); }
    if f.SourceFact? || f.TableFact? { SameTechnical(f, g); }
  }

  lemma SameColumn(f: Fact, g: Fact)
    requires SamePath(f, g) && ToldAlike(f, g) && f.ColumnFact?
    ensures f == g
  {
    hide Technical;
    assert Told(f, "/description") == Told(g, "/description");
    assert Told(f, "/data_type") == Told(g, "/data_type") && Told(f, "/ordinal_position") == Told(g, "/ordinal_position");
    assert Told(f, "/nullable") == Told(g, "/nullable");
    SameTechnical(f, g);
  }

  /** Facts about one object that tell the same properties are one fact. */
  lemma ToldInjective(f: Fact, g: Fact)
    requires Subject(f) == Subject(g) && ToldAlike(f, g)
    ensures f == g
  {
    hide ToldAlike, Subject, SamePath;
    SameSubject(f, g);
    match f
    case PrimaryKeyFact(_, _, _, _) => SameReferences(f, g);
    case ForeignKeyFact(_, _, _, _, _, _, _) => SameReferences(f, g);
    case RelationshipFact(_, _, _, _, _, _, _) => SameReferences(f, g);
    case ColumnFact(_, _, _, _, _, _, _, _) => SameColumn(f, g);
    case _ => SameContainer(f, g);
  }

  lemma SameReferences(f: Fact, g: Fact)
    requires SamePath(f, g) && ToldAlike(f, g)
    requires f.PrimaryKeyFact? || f.ForeignKeyFact? || f.RelationshipFact?
    ensures f == g
  {
    hide Named, NamedColumns;
    if f.RelationshipFact? {
      assert Told(f, "/description") == Told(g, "/description");
      assert Told(f, "/to_table_id") == Told(g, "/to_table_id");
      assert Told(f, "/foreign_key_id") == Told(g, "/foreign_key_id");
      SameTable(f.toSchema, f.toTable, g.toSchema, g.toTable);
      if f.foreignKey.Some? && g.foreignKey.Some? {
        var a, b := [f.schema, f.table, f.foreignKey.value], [g.schema, g.table, g.foreignKey.value];
        NamedInjective("foreign_key", "foreign_key", a, b);
        assert a[2] == b[2];
      } else {
        NamedNotNull("foreign_key", [f.schema, f.table, if f.foreignKey.Some? then f.foreignKey.value else ""]);
        NamedNotNull("foreign_key", [g.schema, g.table, if g.foreignKey.Some? then g.foreignKey.value else ""]);
      }
    } else {
      assert Told(f, "/column_ids") == Told(g, "/column_ids");
      ColumnsInjective(f.schema, f.table, f.columns, g.columns);
      if f.ForeignKeyFact? {
        assert Told(f, "/referenced_table_id") == Told(g, "/referenced_table_id");
        assert Told(f, "/referenced_column_ids") == Told(g, "/referenced_column_ids");
        SameTable(f.toSchema, f.toTable, g.toSchema, g.toTable);
        ColumnsInjective(f.toSchema, f.toTable, f.toColumns, g.toColumns);
      }
    }
  }

  lemma NamedNotNull(kind: string, path: seq<string>)
    ensures Named(kind, path) != Null
  {
  }

  lemma SameTable(s: string, t: string, s': string, t': string)
    requires Named("table", [s, t]) == Named("table", [s', t'])
    ensures s == s' && t == t'
  {
    NamedInjective("table", "table", [s, t], [s', t']);
    assert [s, t][0] == [s', t'][0] && [s, t][1] == [s', t'][1];
  }

  /** The facts are of one kind and about objects of the same name. */
  predicate SamePath(f: Fact, g: Fact) {
    match f
    case SourceFact(_, _, _, _, _) => g.SourceFact?
    case DatabaseFact(_, _, _) => g.DatabaseFact?
    case SchemaFact(_, _, _) => g.SchemaFact? && f.schema == g.schema
    case TableFact(_, _, _, _, _) => g.TableFact? && f.schema == g.schema && f.table == g.table
    case ColumnFact(_, _, _, _, _, _, _, _) => g.ColumnFact? && f.schema == g.schema && f.table == g.table && f.column == g.column
    case PrimaryKeyFact(_, _, _, _) => g.PrimaryKeyFact? && f.schema == g.schema && f.table == g.table && f.key == g.key
    case ForeignKeyFact(_, _, _, _, _, _, _) => g.ForeignKeyFact? && f.schema == g.schema && f.table == g.table && f.key == g.key
    case RelationshipFact(_, _, _, _, _, _, _) =>
      g.RelationshipFact? && f.schema == g.schema && f.table == g.table && f.relationship == g.relationship
  }

  lemma KindsApart(f: Fact, g: Fact)
    requires SubjectKind(f) == SubjectKind(g)
    ensures f.SourceFact? == g.SourceFact? && f.DatabaseFact? == g.DatabaseFact? && f.SchemaFact? == g.SchemaFact?
    ensures f.TableFact? == g.TableFact? && f.ColumnFact? == g.ColumnFact? && f.PrimaryKeyFact? == g.PrimaryKeyFact?
    ensures f.ForeignKeyFact? == g.ForeignKeyFact? && f.RelationshipFact? == g.RelationshipFact?
  {
    var a, b := SubjectKind(f), SubjectKind(g);
    assert |a| == |b| && a[0] == b[0];
  }

  lemma SameSubject(f: Fact, g: Fact)
    requires Subject(f) == Subject(g)
    ensures SamePath(f, g)
  {
    hide Named;
    var k, l, p, q := SubjectKind(f), SubjectKind(g), SubjectPath(f), SubjectPath(g);
    NamedInjective(k, l, p, q);
    KindsApart(f, g);
    if |p| >= 1 { assert p[0] == q[0]; }
    if |p| >= 2 { assert p[1] == q[1]; }
    if |p| >= 3 { assert p[2] == q[2]; }
  }
}
