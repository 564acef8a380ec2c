/**
 What a snapshot declares: each object with its raw id, its structured identity, its parent
 and the properties it is compared by. The projection registers declarations one by one.
 */
module Declarations {
  import opened Outcomes
  import opened JsonText
  import opened Pointers
  import opened Identities
  import opened Snapshots

  /** A presence-aware property value. */
  datatype Side = Missing | Present(value: Json)

  type Properties = map<string, Side>

  /** The value of a property; absent when there is none. */
  function Lookup(props: Properties, pointer: string): Side {
    if pointer in props then props[pointer] else Missing
  }

  datatype ComparableObject = ComparableObject(objectIdentity: Identity, parentIdentity: Option<Identity>, properties: Properties)

  /** One object of a snapshot, with the containers it was declared in. */
  datatype Decl =
    | DataSourceDecl(ds: DataSource)
    | DatabaseDecl(db: Database)
    | SchemaDecl(s: Schema)
    | TableDecl(s: Schema, t: Table)
    | ColumnDecl(s: Schema, t: Table, c: Column)
    | PrimaryKeyDecl(s: Schema, t: Table, pk: PrimaryKey)
    | ForeignKeyDecl(s: Schema, t: Table, fk: ForeignKey)
    | RelationshipDecl(s: Schema, t: Table, rel: Relationship)

  function RawId(d: Decl): string {
    match d
    case DataSourceDecl(ds) => ds.id
    case DatabaseDecl(db) => db.id
    case SchemaDecl(s) => s.id
    case TableDecl(s, t) => t.id
    case ColumnDecl(s, t, c) => c.id
    case PrimaryKeyDecl(s, t, pk) => pk.id
    case ForeignKeyDecl(s, t, fk) => fk.id
    case RelationshipDecl(s, t, rel) => rel.id
  }

  function IdentityOf(d: Decl): Identity {
    match d
    case DataSourceDecl(_) => Identity(DataSourceKind, [])
    case DatabaseDecl(_) => Identity(DatabaseKind, [])
    case SchemaDecl(s) => Identity(SchemaKind, [s.name])
    case TableDecl(s, t) => Identity(TableKind, [s.name, t.name])
    case ColumnDecl(s, t, c) => Identity(ColumnKind, [s.name, t.name, c.name])
    case PrimaryKeyDecl(s, t, pk) => Identity(PrimaryKeyKind, [s.name, t.name, pk.name])
    case ForeignKeyDecl(s, t, fk) => Identity(ForeignKeyKind, [s.name, t.name, fk.name])
    case RelationshipDecl(s, t, rel) => Identity(RelationshipKind, [s.name, t.name, rel.name])
  }

  /** The parent passed when the object is registered: the identity of its container. */
  function ParentOf(d: Decl): Option<Identity> {
    match d
    case DataSourceDecl(_) => None
    case DatabaseDecl(_) => Some(Identity(DataSourceKind, []))
    case SchemaDecl(_) => Some(Identity(DatabaseKind, []))
    case TableDecl(s, _) => Some(Identity(SchemaKind, [s.name]))
    case _ => Some(Identity(TableKind, [d.s.name, d.t.name]))
  }

  // ----- properties

  const TECH := "technical_attributes"

  function TechPointer(key: string): string {
    Print([TECH, key])
  }

  lemma TechPointerInjective()
    ensures forall k, l :: TechPointer(k) == TechPointer(l) ==> k == l
  {
    forall k, l | TechPointer(k) == TechPointer(l) ensures k == l {
      PrintInjective([TECH, k], [TECH, l]);
      assert [TECH, k][1] == [TECH, l][1];
    }
  }

  /** The properties of technical attributes: one pointer for each key. */
  function TechProps(attributes: map<string, Json>): Properties {
    TechPointerInjective();
    map k | k in attributes :: TechPointer(k) := Present(attributes[k])
  }

  lemma TechPropsMembers(attributes: map<string, Json>)
    ensures forall k :: k in attributes ==> TechPointer(k) in TechProps(attributes) && TechProps(attributes)[TechPointer(k)] == Present(attributes[k])
    ensures forall p :: p in TechProps(attributes) ==> exists k :: k in attributes && p == TechPointer(k)
  {
    hide TechPointer;
    TechPointerInjective();
  }

  lemma TechPropsStep(attributes: map<string, Json>, key: string, value: Json)
    ensures TechProps(attributes[key := value]) == TechProps(attributes)[TechPointer(key) := Present(value)]
  {
    hide TechPointer, TechProps;
    TechPointerInjective();
    TechPropsMembers(attributes);
    TechPropsMembers(attributes[key := value]);
  }

  /** The loop that adds the technical attributes to the base properties, in any order. */
  method AddTechProps(base: Properties, attributes: map<string, Json>) returns (props: Properties)
    ensures props == base + TechProps(attributes)
  {
    hide TechPointer, TechProps;
    props := base;
    var rest := attributes.Keys;
    TechPropsMembers(map[]);
    assert attributes - rest == map[];
    while rest != {}
      invariant rest <= attributes.Keys
      invariant props == base + TechProps(attributes - rest)
    {
      var key :| key in rest;
      TechPropsStep(attributes - rest, key, attributes[key]);
      assert attributes - (rest - {key}) == (attributes - rest)[key := attributes[key]];
      props := props[TechPointer(key) := Present(attributes[key])];
      rest := rest - {key};
    }
    assert attributes - rest == attributes;
  }

  function OwnershipJson(o: Option<Ownership>): Json {
    match o
    case None => Null
    case Some(w) => Obj([Member("owner_name", Str(w.ownerName)), Member("owner_type", Str(w.ownerType))])
  }

  /** The pointers every object of a kind has. */
  function FixedPaths(k: Kind): set<string> {
    match k
    case DataSourceKind => {"/name", "/system_type", "/description", "/ownership"}
    case DatabaseKind => {"/name", "/description", "/ownership"}
    case SchemaKind => {"/name", "/description", "/ownership"}
    case TableKind => {"/name", "/description", "/ownership"}
    case ColumnKind => {"/name", "/data_type", "/ordinal_position", "/nullable", "/description"}
    case PrimaryKeyKind => {"/name", "/column_ids"}
    case ForeignKeyKind => {"/name", "/column_ids", "/referenced_table_id", "/referenced_column_ids"}
    case RelationshipKind => {"/name", "/to_table_id", "/foreign_key_id", "/description"}
  }

  /** The kinds that carry technical attributes. */
  predicate HasTech(k: Kind) {
    k == DataSourceKind || k == TableKind || k == ColumnKind
  }

  function TechAttributes(d: Decl): map<string, Json> {
    match d
    case DataSourceDecl(ds) => ds.technicalAttributes
    case TableDecl(_, t) => t.technicalAttributes
    case ColumnDecl(_, _, c) => c.technicalAttributes
    case _ => map[]
  }

  /** The fixed properties as first registered; references are placeholders until they are patched. */
  function FixedProps(d: Decl): Properties {
    match d
    case DataSourceDecl(ds) =>
      map["/name" := Present(Str(ds.name)), "/system_type" := Present(Str(ds.systemType)),
          "/description" := Present(ds.description), "/ownership" := Present(OwnershipJson(ds.ownership))]
    case DatabaseDecl(db) =>
      map["/name" := Present(Str(db.name)), "/description" := Present(db.description),
          "/ownership" := Present(OwnershipJson(db.ownership))]
    case SchemaDecl(s) =>
      map["/name" := Present(Str(s.name)), "/description" := Present(s.description),
          "/ownership" := Present(OwnershipJson(s.ownership))]
    case TableDecl(_, t) =>
      map["/name" := Present(Str(t.name)), "/description" := Present(t.description),
          "/ownership" := Present(OwnershipJson(t.ownership))]
    case ColumnDecl(_, _, c) =>
      map["/name" := Present(Str(c.name)), "/data_type" := Present(Str(c.dataType)),
          "/ordinal_position" := Present(Int(c.ordinalPosition)), "/nullable" := Present(Bool(c.nullable)),
          "/description" := Present(c.description)]
    case PrimaryKeyDecl(_, _, pk) =>
      map["/name" := Present(Str(pk.name)), "/column_ids" := Present(Arr([]))]
    case ForeignKeyDecl(_, _, fk) =>
      map["/name" := Present(Str(fk.name)), "/column_ids" := Present(Arr([])),
          "/referenced_table_id" := Present(NoTable()), "/referenced_column_ids" := Present(Arr([]))]
    case RelationshipDecl(_, _, rel) =>
      map["/name" := Present(Str(rel.name)), "/to_table_id" := Present(NoTable()),
          "/foreign_key_id" := Present(Null), "/description" := Present(rel.description)]
  }

  /** The placeholder of an unresolved table reference. */
  function NoTable(): Json {
    Obj([Member("kind", Str("table")), Member("path", Arr([]))])
  }

  function PropsOf(d: Decl): Properties {
    FixedProps(d) + TechProps(TechAttributes(d))
  }

  function ObjectOf(d: Decl): ComparableObject {
    ComparableObject(IdentityOf(d), ParentOf(d), PropsOf(d))
  }

  // ----- references, once raw ids are resolved

  type RawIndex = map<string, Identity>

  function RefOf(raw: RawIndex, id: string): Json {
    if id in raw then IdentityJson(raw[id]) else Null
  }

  function RefList(raw: RawIndex, ids: seq<string>): (r: seq<Json>)
    ensures |r| == |ids| && forall i :: 0 <= i < |ids| ==> r[i] == RefOf(raw, ids[i])
  {
    if ids == [] then [] else RefList(raw, ids[..|ids| - 1]) + [RefOf(raw, ids[|ids| - 1])]
  }

  /** The references that replace the placeholders of a key, foreign key or relationship. */
  function References(raw: RawIndex, d: Decl): Properties {
    match d
    case PrimaryKeyDecl(_, _, pk) => map["/column_ids" := Present(Arr(RefList(raw, pk.columnIds)))]
    case ForeignKeyDecl(_, _, fk) =>
      map["/column_ids" := Present(Arr(RefList(raw, fk.columnIds))),
          "/referenced_table_id" := Present(RefOf(raw, fk.referencedTableId)),
          "/referenced_column_ids" := Present(Arr(RefList(raw, fk.referencedColumnIds)))]
    case RelationshipDecl(_, _, rel) =>
      map["/to_table_id" := Present(RefOf(raw, rel.toTableId)),
          "/foreign_key_id" := Present(match rel.foreignKeyId case None => Null case Some(f) => RefOf(raw, f))]
    case _ => map[]
  }

  function FinalObject(raw: RawIndex, d: Decl): ComparableObject {
    ComparableObject(IdentityOf(d), ParentOf(d), PropsOf(d) + References(raw, d))
  }

  // ----- what a snapshot declares

  predicate InTable(s: Schema, t: Table, d: Decl) {
    match d
    case TableDecl(s', t') => s' == s && t' == t
    case ColumnDecl(s', t', c) => s' == s && t' == t && c in t.columns
    case PrimaryKeyDecl(s', t', pk) => s' == s && t' == t && t.primaryKey == Some(pk)
    case ForeignKeyDecl(s', t', fk) => s' == s && t' == t && fk in t.foreignKeys
    case _ => false
  }

  /** Everything declared inside one schema. */
  predicate InSchema(s: Schema, d: Decl) {
    match d
    case SchemaDecl(s') => s' == s
    case TableDecl(_, t) => t in s.tables && InTable(s, t, d)
    case ColumnDecl(_, t, _) => t in s.tables && InTable(s, t, d)
    case PrimaryKeyDecl(_, t, _) => t in s.tables && InTable(s, t, d)
    case ForeignKeyDecl(_, t, _) => t in s.tables && InTable(s, t, d)
    case _ => false
  }

  /** A snapshot of the accepted shape: one data source with one database. */
  predicate OneDatabase(snap: Snapshot) {
    |snap.model.dataSources| == 1 && |snap.model.dataSources[0].databases| == 1
  }

  function TheSource(snap: Snapshot): DataSource
    requires OneDatabase(snap)
  {
    snap.model.dataSources[0]
  }

  function TheDatabase(snap: Snapshot): Database
    requires OneDatabase(snap)
  {
    TheSource(snap).databases[0]
  }

  predicate InDatabase(db: Database, d: Decl) {
    match d
    case DataSourceDecl(_) => false
    case DatabaseDecl(db') => db' == db
    case RelationshipDecl(_, _, _) => false
    case _ => d.s in db.schemas && InSchema(d.s, d)
  }

  /** Everything a snapshot declares. A relationship belongs to the table it starts from. */
  predicate Declared(snap: Snapshot, d: Decl)
    requires OneDatabase(snap)
  {
    match d
    case DataSourceDecl(ds) => ds == TheSource(snap)
    case RelationshipDecl(s, t, rel) =>
      rel in snap.model.relationships && InDatabase(TheDatabase(snap), TableDecl(s, t)) && rel.fromTableId == t.id
    case _ => InDatabase(TheDatabase(snap), d)
  }

  /** The back references of an object name its container. */
  predicate Linked(snap: Snapshot, d: Decl)
    requires OneDatabase(snap)
  {
    match d
    case DataSourceDecl(_) => true
    case DatabaseDecl(db) => db.datasourceId == TheSource(snap).id
    case SchemaDecl(s) => s.databaseId == TheDatabase(snap).id
    case TableDecl(s, t) => t.schemaId == s.id
    case ColumnDecl(_, _, _) => true
    case PrimaryKeyDecl(_, t, pk) => pk.tableId == t.id
    case ForeignKeyDecl(_, t, fk) => fk.tableId == t.id
    case RelationshipDecl(_, _, _) => true
  }

  predicate HasColumn(t: Table, id: string) {
    exists c :: c in t.columns && c.id == id
  }

  predicate HasColumns(t: Table, ids: seq<string>) {
    forall i :: 0 <= i < |ids| ==> HasColumn(t, ids[i])
  }

  /** A foreign key refers to `t`, column by column. */
  predicate RefersTo(fk: ForeignKey, t: Table) {
    t.id == fk.referencedTableId && HasColumns(t, fk.referencedColumnIds) && |fk.columnIds| == |fk.referencedColumnIds|
  }

  /** The foreign key of a relationship joins the same two tables. */
  predicate Joins(fk: ForeignKey, rel: Relationship) {
    rel.foreignKeyId == Some(fk.id) && fk.tableId == rel.fromTableId && fk.referencedTableId == rel.toTableId
  }

  /** All references of `d` resolve among the declarations `log`. */
  ghost predicate Resolved(log: set<Decl>, d: Decl) {
    match d
    case PrimaryKeyDecl(_, t, pk) => HasColumns(t, pk.columnIds)
    case ForeignKeyDecl(_, t, fk) =>
      HasColumns(t, fk.columnIds) && exists s', t' :: TableDecl(s', t') in log && RefersTo(fk, t')
    case RelationshipDecl(_, _, rel) =>
      && (exists s', t' :: TableDecl(s', t') in log && t'.id == rel.toTableId)
      && (rel.foreignKeyId.Some? ==> exists s', t', fk :: ForeignKeyDecl(s', t', fk) in log && Joins(fk, rel))
    case _ => true
  }

  // ----- the same declarations, collected

  ghost function ColumnDecls(s: Schema, t: Table, columns: seq<Column>): set<Decl> {
    set c | c in columns :: ColumnDecl(s, t, c)
  }

  ghost function ForeignKeyDecls(s: Schema, t: Table, fks: seq<ForeignKey>): set<Decl> {
    set fk | fk in fks :: ForeignKeyDecl(s, t, fk)
  }

  ghost function PrimaryKeyDecls(s: Schema, t: Table): set<Decl> {
    if t.primaryKey.Some? then {PrimaryKeyDecl(s, t, t.primaryKey.value)} else {}
  }

  ghost function TableDecls(s: Schema, t: Table): set<Decl> {
    {TableDecl(s, t)} + ColumnDecls(s, t, t.columns) + PrimaryKeyDecls(s, t) + ForeignKeyDecls(s, t, t.foreignKeys)
  }

  ghost function TablesDecls(s: Schema, tables: seq<Table>): set<Decl> {
    set t, d | t in tables && d in TableDecls(s, t) :: d
  }

  ghost function SchemaDecls(s: Schema): set<Decl> {
    {SchemaDecl(s)} + TablesDecls(s, s.tables)
  }

  ghost function SchemasDecls(schemas: seq<Schema>): set<Decl> {
    set s, d | s in schemas && d in SchemaDecls(s) :: d
  }

  /** The relationships that start from one of the tables in `log`. */
  ghost function RelationshipDecls(log: set<Decl>, rels: seq<Relationship>): set<Decl> {
    set d, rel | d in log && d.TableDecl? && rel in rels && rel.fromTableId == d.t.id :: RelationshipDecl(d.s, d.t, rel)
  }

  ghost function ContainedDecls(snap: Snapshot): set<Decl>
    requires OneDatabase(snap)
  {
    {DataSourceDecl(TheSource(snap)), DatabaseDecl(TheDatabase(snap))} + SchemasDecls(TheDatabase(snap).schemas)
  }

  ghost function AllDecls(snap: Snapshot): set<Decl>
    requires OneDatabase(snap)
  {
    ContainedDecls(snap) + RelationshipDecls(ContainedDecls(snap), snap.model.relationships)
  }

  lemma TableDeclsMembers(s: Schema, t: Table)
    ensures forall d :: d in TableDecls(s, t) <==> InTable(s, t, d)
  {
  }

  lemma SchemaDeclsMembers(s: Schema)
    ensures forall d :: d in SchemaDecls(s) <==> InSchema(s, d)
  {
    hide TableDecls;
    forall t { TableDeclsMembers(s, t); }
    forall d | d in TablesDecls(s, s.tables) ensures InSchema(s, d) {
      var t :| t in s.tables && d in TableDecls(s, t);
      assert InTable(s, t, d);
    }
    forall d | InSchema(s, d) && !d.SchemaDecl? ensures d in TablesDecls(s, s.tables) {
      assert d.t in s.tables && d in TableDecls(s, d.t);
    }
  }

  lemma ContainedDeclsMembers(snap: Snapshot)
    requires OneDatabase(snap)
    ensures forall d :: d in ContainedDecls(snap) <==> d == DataSourceDecl(TheSource(snap)) || InDatabase(TheDatabase(snap), d)
  {
    hide SchemaDecls;
    forall s { SchemaDeclsMembers(s); }
    var db := TheDatabase(snap);
    forall d | d in SchemasDecls(db.schemas) ensures InDatabase(db, d) {
      var s :| s in db.schemas && d in SchemaDecls(s);
      assert InSchema(s, d);
    }
    forall d | InDatabase(db, d) && !d.DatabaseDecl? ensures d in SchemasDecls(db.schemas) {
      assert d.s in db.schemas && d in SchemaDecls(d.s);
    }
  }

  /** The collected declarations are exactly the declared ones. */
  lemma AllDeclsMembers(snap: Snapshot)
    requires OneDatabase(snap)
    ensures forall d :: d in AllDecls(snap) <==> Declared(snap, d)
  {
    hide ContainedDecls, InDatabase;
    ContainedDeclsMembers(snap);
    NotRelationship(snap);
    forall d | Declared(snap, d) && d.RelationshipDecl? ensures d in AllDecls(snap) {
      assert TableDecl(d.s, d.t) in ContainedDecls(snap);
    }
  }

  lemma NotRelationship(snap: Snapshot)
    requires OneDatabase(snap)
    ensures forall d :: InDatabase(TheDatabase(snap), d) ==> !d.RelationshipDecl? && !d.DataSourceDecl?
  {
  }
}
