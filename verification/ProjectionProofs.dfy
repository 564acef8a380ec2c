/** What a successful projection guarantees: closure under parents, a bijection of ids, resolved references. */
module ProjectionProofs {
  import opened Outcomes
  import opened JsonText
  import opened Identities
  import opened Snapshots
  import opened Declarations
  import opened Registry
  import opened Projection
  import opened PropertyChecks

  /** The name property of an object that is not a root repeats the last segment of its path. */
  function NameOf(i: Identity, snap: Snapshot): string
    requires ValidIdentity(i)
  {
    match i.kind
    case DataSourceKind => snap.sourceName
    case DatabaseKind => snap.databaseName
    case _ => i.path[|i.path| - 1]
  }

  /** Every property is present and is a fixed one of the kind or, where the kind has them, a technical one. */
  ghost predicate PropertiesOk(i: Identity, props: Properties) {
    && (forall p :: p in FixedPaths(i.kind) ==> p in props)
    && (forall p :: p in props ==> props[p].Present? && (p in FixedPaths(i.kind) || (HasTech(i.kind) && exists k :: p == TechPointer(k))))
  }

  /** A fixed value has the shape that an independent check asks for. */
  predicate FixedValueOk(i: Identity, pointer: string, side: Side)
    requires ValidIdentity(i)
  {
    side.Present? && (pointer != "/system_type" ==> ValidFixedValue(pointer, side.value, i))
  }

  ghost predicate ValuesOk(i: Identity, props: Properties, snap: Snapshot)
    requires ValidIdentity(i)
  {
    && (forall p :: p in FixedPaths(i.kind) ==> FixedValueOk(i, p, Lookup(props, p)))
    && Lookup(props, "/name") == Present(Str(NameOf(i, snap)))
    && (i.kind == DataSourceKind ==> Lookup(props, "/system_type") == Present(Str(snap.systemType)))
    && (i.kind == ForeignKeyKind ==> SideCoherent(Lookup(props, "/referenced_table_id"), Lookup(props, "/referenced_column_ids")))
  }

  /** One object of a projection: its own identity, the parent its path implies, well-formed properties. */
  ghost predicate ObjectOk(i: Identity, obj: ComparableObject, snap: Snapshot) {
    && ValidIdentity(i) && obj.objectIdentity == i && obj.parentIdentity == ExpectedParent(i)
    && PropertiesOk(i, obj.properties) && ValuesOk(i, obj.properties, snap)
  }

  /** The objects of a projection, closed under parents and with both roots. */
  ghost predicate WellProjected(objects: map<Identity, ComparableObject>, snap: Snapshot) {
    && Identity(DataSourceKind, []) in objects && Identity(DatabaseKind, []) in objects
    && (forall i :: i in objects ==> ObjectOk(i, objects[i], snap))
    && (forall i :: i in objects && ExpectedParent(i).Some? ==> ExpectedParent(i).value in objects)
  }

  // ----- declarations of a well-formed model

  /** The constructor checks that hold of a declared object and its containers. */
  predicate DeclOk(d: Decl) {
    match d
    case DataSourceDecl(ds) => DataSourceOk(ds)
    case DatabaseDecl(db) => DatabaseOk(db)
    case SchemaDecl(s) => SchemaOk(s)
    case TableDecl(s, t) => SchemaOk(s) && TableOk(t)
    case ColumnDecl(s, t, c) => SchemaOk(s) && TableOk(t) && ColumnOk(c)
    case PrimaryKeyDecl(s, t, pk) => SchemaOk(s) && TableOk(t) && PrimaryKeyOk(pk)
    case ForeignKeyDecl(s, t, fk) => SchemaOk(s) && TableOk(t) && ForeignKeyOk(fk)
    case RelationshipDecl(s, t, rel) => SchemaOk(s) && TableOk(t) && RelationshipOk(rel)
  }

  lemma DeclaredOk(snap: Snapshot, d: Decl)
    requires ModelOk(snap.model) && OneDatabase(snap) && d in AllDecls(snap)
    ensures DeclOk(d)
  {
    hide AllDecls, OwnershipOk, NonBlank, ColumnOk, PrimaryKeyOk, ForeignKeyOk, RelationshipOk;
    AllDeclsMembers(snap);
    assert TheSource(snap) in snap.model.dataSources && TheDatabase(snap) in TheSource(snap).databases;
  }

  lemma IdentityOk(d: Decl)
    requires DeclOk(d)
    ensures ValidIdentity(IdentityOf(d)) && ParentOf(d) == ExpectedParent(IdentityOf(d))
  {
    hide OwnershipOk, ColumnOk, PrimaryKeyOk;
    match d
    case SchemaDecl(s) =>
    case TableDecl(s, t) => assert [s.name, t.name][..1] == [s.name];
    case ColumnDecl(s, t, c) => assert [s.name, t.name, c.name][..2] == [s.name, t.name]; ColumnNamed(c);
    case PrimaryKeyDecl(s, t, pk) => assert [s.name, t.name, pk.name][..2] == [s.name, t.name]; PrimaryKeyNamed(pk);
    case ForeignKeyDecl(s, t, fk) => assert [s.name, t.name, fk.name][..2] == [s.name, t.name];
    case RelationshipDecl(s, t, rel) => assert [s.name, t.name, rel.name][..2] == [s.name, t.name];
    case _ =>
  }

  lemma ColumnNamed(c: Column)
    requires ColumnOk(c)
    ensures c.name != ""
  {
  }

  lemma PrimaryKeyNamed(pk: PrimaryKey)
    requires PrimaryKeyOk(pk)
    ensures pk.name != ""
  {
  }

  // ----- properties of a declared object

  lemma FixedNotTech(k: Kind, p: string)
    requires p in FixedPaths(k)
    ensures !IsTechPointer(p)
  {
    assert TECH_PREFIX[1] == 't' && |TECH_PREFIX| == 22;
    assert |p| >= 22 ==> p[1] == 'r';
  }

  lemma FixedPropsKeys(d: Decl)
    ensures FixedProps(d).Keys == FixedPaths(IdentityOf(d).kind)
    ensures forall p :: p in FixedProps(d) ==> FixedProps(d)[p].Present?
  {
  }

  lemma ReferencesKeys(raw: RawIndex, d: Decl)
    ensures References(raw, d).Keys <= FixedPaths(IdentityOf(d).kind)
    ensures forall p :: p in References(raw, d) ==> References(raw, d)[p].Present?
  {
    hide RefList, RefOf;
  }

  /** What `props` takes over: references where the patch passes wrote them, fixed properties elsewhere. */
  ghost predicate TakesOver(d: Decl, raw: RawIndex, props: Properties) {
    forall p :: p in FixedPaths(IdentityOf(d).kind) ==>
      Lookup(props, p) == (if p in References(raw, d) then Lookup(References(raw, d), p) else Lookup(FixedProps(d), p))
  }

  /** The properties of a final object: fixed ones, some of them references, and technical ones. */
  lemma FinalProps(raw: RawIndex, d: Decl)
    ensures var props := FinalObject(raw, d).properties;
      PropertiesOk(IdentityOf(d), props) && TakesOver(d, raw, props)
  {
    hide FixedProps, References, TechPointer, TechProps, IdentityOf, FixedPaths, ParentOf;
    FixedPropsKeys(d);
    ReferencesKeys(raw, d);
    TechPropsMembers(TechAttributes(d));
    assert TechAttributes(d) != map[] ==> HasTech(IdentityOf(d).kind) by { TechKinds(d); }
    forall p | p in FixedPaths(IdentityOf(d).kind) ensures p !in TechProps(TechAttributes(d)) {
      FixedNotTech(IdentityOf(d).kind, p);
      forall k ensures p != TechPointer(k) { TechPointerCompatible(k); }
    }
  }

  lemma TechKinds(d: Decl)
    ensures TechAttributes(d) != map[] ==> HasTech(IdentityOf(d).kind)
  {
  }

  // ----- values, kind by kind

  lemma OwnershipValueOk(o: Option<Ownership>)
    requires OwnershipOk(o)
    ensures ValidOwnership(OwnershipJson(o))
  {
  }

  /** The fixed properties that `props` takes over unchanged from `d`. */
  ghost predicate Keeps(d: Decl, props: Properties, p: string) {
    Lookup(props, p) == Lookup(FixedProps(d), p)
  }

  lemma DataSourceValues(d: Decl, snap: Snapshot, props: Properties)
    requires d.DataSourceDecl? && DeclOk(d) && d.ds.name == snap.sourceName && d.ds.systemType == snap.systemType
    requires forall p :: p in FixedPaths(DataSourceKind) ==> Keeps(d, props, p)
    ensures ValuesOk(IdentityOf(d), props, snap)
  {
    assert Keeps(d, props, "/name") && Keeps(d, props, "/system_type");
    OwnershipValueOk(d.ds.ownership);
    hide NonBlank, OwnershipOk, ValidOwnership, OwnershipJson, DatabaseOk;
  }

  lemma DatabaseValues(d: Decl, snap: Snapshot, props: Properties)
    requires d.DatabaseDecl? && DeclOk(d) && d.db.name == snap.databaseName
    requires forall p :: p in FixedPaths(DatabaseKind) ==> Keeps(d, props, p)
    ensures ValuesOk(IdentityOf(d), props, snap)
  {
    assert Keeps(d, props, "/name");
    OwnershipValueOk(d.db.ownership);
    hide NonBlank, OwnershipOk, ValidOwnership, OwnershipJson, SchemaOk;
  }

  lemma ContainerValues(d: Decl, snap: Snapshot, props: Properties)
    requires DeclOk(d) && (d.SchemaDecl? || d.TableDecl?)
    requires forall p :: p in FixedPaths(IdentityOf(d).kind) ==> Keeps(d, props, p)
    ensures ValidIdentity(IdentityOf(d)) && ValuesOk(IdentityOf(d), props, snap)
  {
    IdentityOk(d);
    assert Keeps(d, props, "/name");
    hide NonBlank;
    OwnershipValueOk(if d.SchemaDecl? then d.s.ownership else d.t.ownership);
    hide OwnershipOk, ValidOwnership, OwnershipJson, ColumnOk, PrimaryKeyOk, ForeignKeyOk;
  }

  lemma ColumnValues(d: Decl, snap: Snapshot, props: Properties)
    requires DeclOk(d) && d.ColumnDecl?
    requires forall p :: p in FixedPaths(ColumnKind) ==> Keeps(d, props, p)
    ensures ValidIdentity(IdentityOf(d)) && ValuesOk(IdentityOf(d), props, snap)
  {
    IdentityOk(d);
    assert Keeps(d, props, "/name");
    hide NonBlank, TableOk, SchemaOk;
  }

  // ----- values that are references

  /** The declarations of an accepted snapshot, with their raw ids. */
  ghost predicate Closed(log: set<Decl>, raw: RawIndex, snap: Snapshot) {
    && OneDatabase(snap) && Distinct(log) && TablesClosed(log)
    && (forall d :: d in log ==> RawId(d) in raw && raw[RawId(d)] == IdentityOf(d))
    && (forall d :: d in log ==> DeclOk(d) && Linked(snap, d) && Resolved(log, d))
    && (forall d :: d in log && d.RelationshipDecl? ==> TableDecl(d.s, d.t) in log && d.rel.fromTableId == d.t.id)
  }

  /** The reference to a declared object reads back as its identity. */
  lemma RefReads(log: set<Decl>, raw: RawIndex, snap: Snapshot, d: Decl)
    requires Closed(log, raw, snap) && d in log
    ensures ParseIdentity(RefOf(raw, RawId(d))) == Some(IdentityOf(d))
    ensures ValidIdentity(IdentityOf(d))
  {
    hide Linked, Resolved, Distinct, TablesClosed, RawId, IdentityOf, IdentityJson, ParseIdentity, ValidIdentity;
    IdentityOk(d);
    ParseIdentityJson(IdentityOf(d));
  }

  /** The column that a reference names, among the declarations. */
  lemma ColumnDeclared(log: set<Decl>, raw: RawIndex, snap: Snapshot, s: Schema, t: Table, id: string) returns (c: Column)
    requires Closed(log, raw, snap) && TableDecl(s, t) in log && HasColumn(t, id)
    ensures ColumnDecl(s, t, c) in log && c.id == id
  {
    hide Distinct, DeclOk, Linked, Resolved, RawId, IdentityOf;
    c :| c in t.columns && c.id == id;
    assert ColumnDecl(s, t, c) in TableDecls(s, t);
  }

  lemma ColumnRef(log: set<Decl>, raw: RawIndex, snap: Snapshot, s: Schema, t: Table, id: string)
    requires Closed(log, raw, snap) && TableDecl(s, t) in log && HasColumn(t, id)
    ensures IsRef(RefOf(raw, id), ColumnKind) && TablePrefix(RefOf(raw, id)) == [s.name, t.name]
  {
    hide Closed, ParseIdentity, RefOf, HasColumn;
    var c := ColumnDeclared(log, raw, snap, s, t, id);
    RefReads(log, raw, snap, ColumnDecl(s, t, c));
    assert [s.name, t.name, c.name][..2] == [s.name, t.name];
  }

  /** Column references resolve to columns of the table they were resolved in. */
  lemma ColumnRefs(log: set<Decl>, raw: RawIndex, snap: Snapshot, s: Schema, t: Table, ids: seq<string>)
    requires Closed(log, raw, snap) && TableDecl(s, t) in log && HasColumns(t, ids)
    ensures ColumnsOf(RefList(raw, ids), [s.name, t.name])
  {
    hide Closed, HasColumn, IsRef, TablePrefix, RefOf;
    forall i | 0 <= i < |ids|
      ensures IsRef(RefOf(raw, ids[i]), ColumnKind) && TablePrefix(RefOf(raw, ids[i])) == [s.name, t.name]
    {
      ColumnRef(log, raw, snap, s, t, ids[i]);
    }
  }

  /** All items refer to columns of the table at `prefix`. */
  predicate ColumnsOf(items: seq<Json>, prefix: seq<string>) {
    forall i :: 0 <= i < |items| ==> IsRef(items[i], ColumnKind) && TablePrefix(items[i]) == prefix
  }

  lemma ColumnListOk(items: seq<Json>, prefix: seq<string>)
    requires items != [] && ColumnsOf(items, prefix)
    ensures ValidColumnList(Arr(items), Some(prefix), false) && ValidColumnList(Arr(items), None, true)
  {
    hide IsRef, TablePrefix;
  }

  lemma CoherentOk(table: Json, items: seq<Json>, prefix: seq<string>)
    requires ParseIdentity(table) == Some(Identity(TableKind, prefix)) && ColumnsOf(items, prefix)
    ensures SideCoherent(Present(table), Present(Arr(items)))
  {
  }

  lemma PrimaryKeyFacts(log: set<Decl>, raw: RawIndex, snap: Snapshot, d: Decl)
    requires Closed(log, raw, snap) && d in log && d.PrimaryKeyDecl?
    ensures DeclOk(d) && TableDecl(d.s, d.t) in log && HasColumns(d.t, d.pk.columnIds) && d.pk.columnIds != []
  {
    assert Resolved(log, d);
    hide HasColumns, NonBlank, SchemaOk, TableOk, Distinct, RawId, IdentityOf, Linked;
  }

  lemma PrimaryKeyValues(log: set<Decl>, raw: RawIndex, snap: Snapshot, d: Decl, props: Properties)
    requires Closed(log, raw, snap) && d in log && d.PrimaryKeyDecl?
    requires Keeps(d, props, "/name") && Lookup(props, "/column_ids") == Present(Arr(RefList(raw, d.pk.columnIds)))
    ensures ValidIdentity(IdentityOf(d)) && ValuesOk(IdentityOf(d), props, snap)
  {
    hide Closed, NonBlank, TableOk, SchemaOk, IsRef, TablePrefix, HasColumns, ColumnsOf, RefList, ValidColumnList;
    PrimaryKeyFacts(log, raw, snap, d);
    ColumnRefs(log, raw, snap, d.s, d.t, d.pk.columnIds);
    IdentityOk(d);
    assert IdentityOf(d).path[..2] == [d.s.name, d.t.name];
    ColumnListOk(RefList(raw, d.pk.columnIds), [d.s.name, d.t.name]);
  }

  lemma ForeignKeyFacts(log: set<Decl>, raw: RawIndex, snap: Snapshot, d: Decl) returns (s': Schema, t': Table)
    requires Closed(log, raw, snap) && d in log && d.ForeignKeyDecl?
    ensures DeclOk(d) && TableDecl(d.s, d.t) in log && HasColumns(d.t, d.fk.columnIds) && d.fk.columnIds != []
    ensures TableDecl(s', t') in log && t'.id == d.fk.referencedTableId && HasColumns(t', d.fk.referencedColumnIds)
    ensures d.fk.referencedColumnIds != []
  {
    assert Resolved(log, d);
    hide HasColumns, NonBlank, SchemaOk, TableOk, Distinct, RawId, IdentityOf, Linked;
    s', t' :| TableDecl(s', t') in log && RefersTo(d.fk, t');
  }

  lemma ForeignKeyValues(log: set<Decl>, raw: RawIndex, snap: Snapshot, d: Decl, props: Properties)
    requires Closed(log, raw, snap) && d in log && d.ForeignKeyDecl?
    requires Keeps(d, props, "/name")
    requires Lookup(props, "/column_ids") == Present(Arr(RefList(raw, d.fk.columnIds)))
    requires Lookup(props, "/referenced_table_id") == Present(RefOf(raw, d.fk.referencedTableId))
    requires Lookup(props, "/referenced_column_ids") == Present(Arr(RefList(raw, d.fk.referencedColumnIds)))
    ensures ValidIdentity(IdentityOf(d)) && ValuesOk(IdentityOf(d), props, snap)
  {
    hide Closed, NonBlank, TableOk, SchemaOk, HasColumns, ColumnsOf, RefList, RefOf, ValidColumnList, ParseIdentity, SideCoherent;
    var s', t' := ForeignKeyFacts(log, raw, snap, d);
    ColumnRefs(log, raw, snap, d.s, d.t, d.fk.columnIds);
    ColumnRefs(log, raw, snap, s', t', d.fk.referencedColumnIds);
    RefReads(log, raw, snap, TableDecl(s', t'));
    IdentityOk(d);
    assert IdentityOf(d).path[..2] == [d.s.name, d.t.name];
    ColumnListOk(RefList(raw, d.fk.columnIds), [d.s.name, d.t.name]);
    ColumnListOk(RefList(raw, d.fk.referencedColumnIds), [s'.name, t'.name]);
    CoherentOk(RefOf(raw, t'.id), RefList(raw, d.fk.referencedColumnIds), [s'.name, t'.name]);
  }

  lemma RelationshipFacts(log: set<Decl>, raw: RawIndex, snap: Snapshot, d: Decl) returns (s': Schema, t': Table)
    requires Closed(log, raw, snap) && d in log && d.RelationshipDecl?
    ensures DeclOk(d) && TableDecl(s', t') in log && t'.id == d.rel.toTableId
  {
    assert Resolved(log, d);
    hide HasColumns, NonBlank, SchemaOk, TableOk, Distinct, RawId, IdentityOf, Linked, Joins;
    s', t' :| TableDecl(s', t') in log && t'.id == d.rel.toTableId;
  }

  lemma RelationshipValues(log: set<Decl>, raw: RawIndex, snap: Snapshot, d: Decl, props: Properties)
    requires Closed(log, raw, snap) && d in log && d.RelationshipDecl?
    requires Keeps(d, props, "/name") && Keeps(d, props, "/description")
    requires Lookup(props, "/to_table_id") == Present(RefOf(raw, d.rel.toTableId))
    requires Lookup(props, "/foreign_key_id")
      == Present(match d.rel.foreignKeyId case None => Null case Some(f) => RefOf(raw, f))
    ensures ValidIdentity(IdentityOf(d)) && ValuesOk(IdentityOf(d), props, snap)
  {
    hide Closed, NonBlank, TableOk, SchemaOk, RefOf, ParseIdentity, ValidForeignKeyRef;
    var s', t' := RelationshipFacts(log, raw, snap, d);
    RefReads(log, raw, snap, TableDecl(s', t'));
    IdentityOk(d);
    assert IdentityOf(d).path[..2] == [d.s.name, d.t.name];
    NoForeignKeyOk([d.s.name, d.t.name]);
    if d.rel.foreignKeyId.Some? {
      RelationshipForeignKey(log, raw, snap, d);
    }
  }

  lemma NoForeignKeyOk(prefix: seq<string>)
    ensures ValidForeignKeyRef(Null, prefix)
  {
  }

  /** A foreign key that starts from the table with id `t.id` is declared in `t`. */
  lemma ForeignKeyOwner(log: set<Decl>, raw: RawIndex, snap: Snapshot, s: Schema, t: Table, fs: Schema, ft: Table, fk: ForeignKey)
    requires Closed(log, raw, snap) && TableDecl(s, t) in log && ForeignKeyDecl(fs, ft, fk) in log && fk.tableId == t.id
    ensures fs == s && ft == t
  {
    hide DeclOk, Resolved, IdentityOf, TableDecls;
    assert Linked(snap, ForeignKeyDecl(fs, ft, fk)) && TableDecl(fs, ft) in log;
    assert RawId(TableDecl(fs, ft)) == RawId(TableDecl(s, t));
  }

  lemma RelationshipOrigin(log: set<Decl>, raw: RawIndex, snap: Snapshot, d: Decl)
    requires Closed(log, raw, snap) && d in log && d.RelationshipDecl?
    ensures TableDecl(d.s, d.t) in log && d.rel.fromTableId == d.t.id && Resolved(log, d)
  {
    hide DeclOk, Resolved, IdentityOf, TablesClosed, Distinct, RawId;
  }

  /** The foreign key of a relationship is declared in the table the relationship starts from. */
  lemma RelationshipJoin(log: set<Decl>, raw: RawIndex, snap: Snapshot, d: Decl) returns (fk: ForeignKey)
    requires Closed(log, raw, snap) && d in log && d.RelationshipDecl? && d.rel.foreignKeyId.Some?
    ensures ForeignKeyDecl(d.s, d.t, fk) in log && d.rel.foreignKeyId.value == fk.id && fk.referencedTableId == d.rel.toTableId
  {
    hide Closed;
    RelationshipOrigin(log, raw, snap, d);
    var fs, ft;
    fs, ft, fk :| ForeignKeyDecl(fs, ft, fk) in log && Joins(fk, d.rel);
    ForeignKeyOwner(log, raw, snap, d.s, d.t, fs, ft, fk);
  }

  lemma RelationshipForeignKey(log: set<Decl>, raw: RawIndex, snap: Snapshot, d: Decl)
    requires Closed(log, raw, snap) && d in log && d.RelationshipDecl? && d.rel.foreignKeyId.Some?
    ensures ValidForeignKeyRef(RefOf(raw, d.rel.foreignKeyId.value), [d.s.name, d.t.name])
  {
    hide Closed, ParseIdentity, RefOf;
    var fk := RelationshipJoin(log, raw, snap, d);
    var f := ForeignKeyDecl(d.s, d.t, fk);
    RefReads(log, raw, snap, f);
    assert IdentityOf(f).path[..2] == [d.s.name, d.t.name];
  }

  // ----- the main results

  /** What one declared object contributes to the projection is well formed. */
  lemma FinalObjectOk(log: set<Decl>, raw: RawIndex, snap: Snapshot, d: Decl)
    requires Closed(log, raw, snap) && d in log && RootsNamed(snap, d)
    ensures ObjectOk(IdentityOf(d), FinalObject(raw, d), snap)
  {
    hide Closed, PropertiesOk, ValuesOk, FixedPaths, FixedProps, TechPointer, DeclOk, PropsOf, RefList, RefOf, ValidIdentity;
    ClosedDeclOk(log, raw, snap, d);
    IdentityOk(d);
    FinalProps(raw, d);
    var props := FinalObject(raw, d).properties;
    FinalValues(log, raw, snap, d, props);
  }

  /** The envelope names the roots. */
  predicate RootsNamed(snap: Snapshot, d: Decl) {
    match d
    case DataSourceDecl(ds) => ds.name == snap.sourceName && ds.systemType == snap.systemType
    case DatabaseDecl(db) => db.name == snap.databaseName
    case _ => true
  }

  lemma ClosedDeclOk(log: set<Decl>, raw: RawIndex, snap: Snapshot, d: Decl)
    requires Closed(log, raw, snap) && d in log
    ensures DeclOk(d)
  {
    hide DeclOk, Linked, Resolved, Distinct, TablesClosed;
  }

  lemma ContainedValues(raw: RawIndex, snap: Snapshot, d: Decl, props: Properties)
    requires DeclOk(d) && RootsNamed(snap, d) && ValidIdentity(IdentityOf(d)) && TakesOver(d, raw, props)
    requires !d.PrimaryKeyDecl? && !d.ForeignKeyDecl? && !d.RelationshipDecl?
    ensures ValuesOk(IdentityOf(d), props, snap)
  {
    hide ValuesOk, FixedProps, DeclOk, FixedPaths;
    assert References(raw, d) == map[];
    assert forall p :: p in FixedPaths(IdentityOf(d).kind) ==> Keeps(d, props, p);
    match d
    case DataSourceDecl(_) => DataSourceValues(d, snap, props);
    case DatabaseDecl(_) => DatabaseValues(d, snap, props);
    case SchemaDecl(_) => ContainerValues(d, snap, props);
    case TableDecl(_, _) => ContainerValues(d, snap, props);
    case ColumnDecl(_, _, _) => ColumnValues(d, snap, props);
  }

  lemma FinalValues(log: set<Decl>, raw: RawIndex, snap: Snapshot, d: Decl, props: Properties)
    requires Closed(log, raw, snap) && d in log && RootsNamed(snap, d) && DeclOk(d) && ValidIdentity(IdentityOf(d))
    requires TakesOver(d, raw, props)
    ensures ValuesOk(IdentityOf(d), props, snap)
  {
    hide Closed, ValuesOk, FixedProps, DeclOk, RefList, RefOf;
    match d
    case PrimaryKeyDecl(_, _, _) =>
      assert "/name" in FixedPaths(PrimaryKeyKind) && "/column_ids" in FixedPaths(PrimaryKeyKind);
      PrimaryKeyValues(log, raw, snap, d, props);
    case ForeignKeyDecl(_, _, _) =>
      assert forall p :: p in {"/name", "/column_ids", "/referenced_table_id", "/referenced_column_ids"} ==> p in FixedPaths(ForeignKeyKind);
      ForeignKeyValues(log, raw, snap, d, props);
    case RelationshipDecl(_, _, _) =>
      assert forall p :: p in {"/name", "/to_table_id", "/foreign_key_id", "/description"} ==> p in FixedPaths(RelationshipKind);
      RelationshipValues(log, raw, snap, d, props);
    case _ => ContainedValues(raw, snap, d, props);
  }

  lemma ProjectionClosed(snap: Snapshot, p: Projected)
    requires ModelOk(snap.model) && IsProjection(snap, p)
    ensures Closed(AllDecls(snap), p.rawToIdentity, snap)
    ensures forall d :: d in AllDecls(snap) ==> RootsNamed(snap, d)
  {
    hide ModelOk, DeclOk, Linked, Resolved, FinalObject, TablesClosed, RawId, IdentityOf, AllDecls, Distinct, ContainedDecls, InDatabase;
    var log := AllDecls(snap);
    ContainedClosed(snap);
    AllDeclsMembers(snap);
    forall d | d in log ensures DeclOk(d) && RawId(d) in p.rawToIdentity && p.rawToIdentity[RawId(d)] == IdentityOf(d) && RootsNamed(snap, d) {
      DeclaredOk(snap, d);
      assert SomeIdentity(d).Some?;
      DeclaredRoots(snap, d);
    }
    forall d | d in log && d.RelationshipDecl? ensures TableDecl(d.s, d.t) in log && d.rel.fromTableId == d.t.id {
      assert Declared(snap, TableDecl(d.s, d.t));
    }
  }

  lemma DeclaredRoots(snap: Snapshot, d: Decl)
    requires OneDatabase(snap) && EnvelopeOk(snap) && Declared(snap, d)
    ensures RootsNamed(snap, d)
  {
  }

  /** The declaration behind an object of a projection. */
  lemma DeclarationOf(snap: Snapshot, p: Projected, i: Identity) returns (d: Decl)
    requires IsProjection(snap, p) && i in p.objects
    ensures d in AllDecls(snap) && IdentityOf(d) == i && p.objects[i] == FinalObject(p.rawToIdentity, d)
  {
    hide Distinct, Tabulates, Linked, Resolved, IdentityOf, FinalObject, AllDecls;
    d :| d in AllDecls(snap) && IdentityOf(d) == i;
  }

  lemma ObjectDeclared(snap: Snapshot, p: Projected, d: Decl)
    requires IsProjection(snap, p) && d in AllDecls(snap)
    ensures IdentityOf(d) in p.objects && p.objects[IdentityOf(d)] == FinalObject(p.rawToIdentity, d)
  {
    hide Distinct, Tabulates, Linked, Resolved, IdentityOf, FinalObject, AllDecls;
  }

  /** Parents are declared with their children. */
  lemma ParentDeclared(snap: Snapshot, d: Decl)
    requires OneDatabase(snap) && d in AllDecls(snap) && ParentOf(d).Some?
    ensures exists e :: e in AllDecls(snap) && IdentityOf(e) == ParentOf(d).value
  {
    hide AllDecls, ContainedDecls;
    AllDeclsMembers(snap);
    var e := match d
      case DatabaseDecl(_) => DataSourceDecl(TheSource(snap))
      case SchemaDecl(_) => DatabaseDecl(TheDatabase(snap))
      case TableDecl(s, _) => SchemaDecl(s)
      case ColumnDecl(s, t, _) => TableDecl(s, t)
      case PrimaryKeyDecl(s, t, _) => TableDecl(s, t)
      case ForeignKeyDecl(s, t, _) => TableDecl(s, t)
      case RelationshipDecl(s, t, _) => TableDecl(s, t)
      case _ => d;
    assert Declared(snap, e);
  }

  /** A successful projection has both roots, is closed under parents, and every object in it is well formed. */
  lemma ProjectionSound(snap: Snapshot, p: Projected)
    requires ModelOk(snap.model) && IsProjection(snap, p)
    ensures WellProjected(p.objects, snap)
  {
    hide IsProjection, ModelOk, Closed, ObjectOk, FinalObject, ParentOf, AllDecls, RootsNamed;
    OneDatabaseProjected(snap, p);
    ProjectionClosed(snap, p);
    RootsDeclared(snap);
    ObjectDeclared(snap, p, DataSourceDecl(TheSource(snap)));
    ObjectDeclared(snap, p, DatabaseDecl(TheDatabase(snap)));
    hide IdentityOf;
    forall i | i in p.objects
      ensures ObjectOk(i, p.objects[i], snap) && ValidIdentity(i)
      ensures ValidIdentity(i) && ExpectedParent(i).Some? ==> ExpectedParent(i).value in p.objects
    {
      var d := DeclarationOf(snap, p, i);
      FinalObjectOk(AllDecls(snap), p.rawToIdentity, snap, d);
      ClosedDeclOk(AllDecls(snap), p.rawToIdentity, snap, d);
      IdentityOk(d);
      if ParentOf(d).Some? {
        ParentDeclared(snap, d);
        var e :| e in AllDecls(snap) && IdentityOf(e) == ParentOf(d).value;
        ObjectDeclared(snap, p, e);
      }
    }
  }

  lemma OneDatabaseProjected(snap: Snapshot, p: Projected)
    requires IsProjection(snap, p)
    ensures OneDatabase(snap)
  {
  }

  lemma RootsDeclared(snap: Snapshot)
    requires OneDatabase(snap)
    ensures DataSourceDecl(TheSource(snap)) in AllDecls(snap) && DatabaseDecl(TheDatabase(snap)) in AllDecls(snap)
  {
    hide SchemasDecls;
  }

  /** Raw ids and structured identities are in bijection. */
  lemma IdsBijective(snap: Snapshot, p: Projected)
    requires IsProjection(snap, p)
    ensures forall id :: id in p.rawToIdentity ==> p.rawToIdentity[id] in p.objects
    ensures forall i :: i in p.objects ==> exists id :: id in p.rawToIdentity && p.rawToIdentity[id] == i
    ensures forall id, id' :: id in p.rawToIdentity && id' in p.rawToIdentity && p.rawToIdentity[id] == p.rawToIdentity[id'] ==> id == id'
  {
    hide AllDecls, Linked, Resolved, RawId, IdentityOf, FinalObject, EnvelopeOk;
    var log := AllDecls(snap);
    forall d | d in log ensures RawId(d) in p.rawToIdentity && p.rawToIdentity[RawId(d)] == IdentityOf(d) {
      assert SomeIdentity(d).Some?;
    }
    forall id | id in p.rawToIdentity ensures exists d :: d in log && RawId(d) == id && IdentityOf(d) == p.rawToIdentity[id] {
      var d := Tabulated(log, p.rawToIdentity, RawId, SomeIdentity, id);
    }
  }

  // ----- references name registered objects

  /** The pointers whose values are references. */
  const REFERENCE_POINTERS := {"/column_ids", "/referenced_table_id", "/referenced_column_ids", "/to_table_id", "/foreign_key_id"}

  /** A reference, or each reference of a list, names a registered object. */
  ghost predicate Names(objects: map<Identity, ComparableObject>, value: Json) {
    match value
    case Null => true
    case Arr(items) => forall i :: 0 <= i < |items| ==> ParseIdentity(items[i]).Some? && ParseIdentity(items[i]).value in objects
    case _ => ParseIdentity(value).Some? && ParseIdentity(value).value in objects
  }

  lemma RefNames(snap: Snapshot, p: Projected, d: Decl)
    requires ModelOk(snap.model) && IsProjection(snap, p) && d in AllDecls(snap)
    ensures Names(p.objects, RefOf(p.rawToIdentity, RawId(d)))
    ensures ParseIdentity(RefOf(p.rawToIdentity, RawId(d))) == Some(IdentityOf(d)) && IdentityOf(d) in p.objects
  {
    hide IsProjection, ModelOk, Closed, FinalObject, ParseIdentity, IdentityOf, RawId, AllDecls;
    OneDatabaseProjected(snap, p);
    ProjectionClosed(snap, p);
    RefReads(AllDecls(snap), p.rawToIdentity, snap, d);
    ObjectDeclared(snap, p, d);
    assert !RefOf(p.rawToIdentity, RawId(d)).Arr? by { NotAList(p.rawToIdentity, RawId(d)); }
  }

  lemma NotAList(raw: RawIndex, id: string)
    ensures !RefOf(raw, id).Arr?
  {
  }

  lemma ColumnsName(snap: Snapshot, p: Projected, s: Schema, t: Table, ids: seq<string>)
    requires ModelOk(snap.model) && IsProjection(snap, p) && TableDecl(s, t) in AllDecls(snap) && HasColumns(t, ids)
    ensures Names(p.objects, Arr(RefList(p.rawToIdentity, ids)))
  {
    hide IsProjection, ModelOk, Closed, FinalObject, ParseIdentity, HasColumn, AllDecls, RefOf;
    OneDatabaseProjected(snap, p);
    ProjectionClosed(snap, p);
    forall i | 0 <= i < |ids|
      ensures ParseIdentity(RefOf(p.rawToIdentity, ids[i])).Some? && ParseIdentity(RefOf(p.rawToIdentity, ids[i])).value in p.objects
    {
      assert HasColumn(t, ids[i]);
      var c := ColumnDeclared(AllDecls(snap), p.rawToIdentity, snap, s, t, ids[i]);
      RefNames(snap, p, ColumnDecl(s, t, c));
    }
  }

  /** What the patch passes wrote for a declaration names registered objects. */
  ghost predicate NamesAll(objects: map<Identity, ComparableObject>, references: Properties) {
    forall q :: q in references ==> references[q].Present? && Names(objects, references[q].value)
  }

  lemma KeyNames(snap: Snapshot, p: Projected, d: Decl)
    requires ModelOk(snap.model) && IsProjection(snap, p) && d in AllDecls(snap) && (d.PrimaryKeyDecl? || d.ForeignKeyDecl?)
    ensures NamesAll(p.objects, References(p.rawToIdentity, d))
  {
    hide IsProjection, ModelOk, Closed, AllDecls, RefOf, RefList, Names, HasColumns, DeclOk;
    OneDatabaseProjected(snap, p);
    ProjectionClosed(snap, p);
    var raw, log := p.rawToIdentity, AllDecls(snap);
    match d
    case PrimaryKeyDecl(s, t, pk) =>
      PrimaryKeyFacts(log, raw, snap, d);
      ColumnsName(snap, p, s, t, pk.columnIds);
    case ForeignKeyDecl(s, t, fk) =>
      var s', t' := ForeignKeyFacts(log, raw, snap, d);
      ColumnsName(snap, p, s, t, fk.columnIds);
      ColumnsName(snap, p, s', t', fk.referencedColumnIds);
      RefNames(snap, p, TableDecl(s', t'));
  }

  lemma RelationshipNames(snap: Snapshot, p: Projected, d: Decl)
    requires ModelOk(snap.model) && IsProjection(snap, p) && d in AllDecls(snap) && d.RelationshipDecl?
    ensures NamesAll(p.objects, References(p.rawToIdentity, d))
  {
    hide IsProjection, ModelOk, Closed, AllDecls, RefOf, Names, DeclOk;
    OneDatabaseProjected(snap, p);
    ProjectionClosed(snap, p);
    NullNames(p.objects);
    var raw, log := p.rawToIdentity, AllDecls(snap);
    var s', t' := RelationshipFacts(log, raw, snap, d);
    RefNames(snap, p, TableDecl(s', t'));
    if d.rel.foreignKeyId.Some? {
      var fk := RelationshipJoin(log, raw, snap, d);
      RefNames(snap, p, ForeignKeyDecl(d.s, d.t, fk));
    }
  }

  /** After the patch passes every reference of a key, foreign key or relationship names a registered object. */
  lemma ReferencesRegistered(snap: Snapshot, p: Projected, i: Identity, pointer: string)
    requires ModelOk(snap.model) && IsProjection(snap, p) && i in p.objects
    requires pointer in REFERENCE_POINTERS && pointer in FixedPaths(i.kind)
    ensures Lookup(p.objects[i].properties, pointer).Present? && Names(p.objects, Lookup(p.objects[i].properties, pointer).value)
  {
    hide IsProjection, ModelOk, AllDecls, RefOf, RefList, Names, PropsOf, ParentOf;
    var d := DeclarationOf(snap, p, i);
    assert pointer in References(p.rawToIdentity, d);
    if d.RelationshipDecl? { RelationshipNames(snap, p, d); } else { KeyNames(snap, p, d); }
  }

  lemma NullNames(objects: map<Identity, ComparableObject>)
    ensures Names(objects, Null)
  {
  }

  /** `k` is the foreign key that relationship `i` names, of the same table, and both lead to the same table. */
  ghost predicate FollowsForeignKey(objects: map<Identity, ComparableObject>, i: Identity, k: Identity) {
    && i in objects && k in objects && k.kind == ForeignKeyKind && FirstTwo(k.path) == FirstTwo(i.path)
    && Lookup(objects[i].properties, "/foreign_key_id") == Present(IdentityJson(k))
    && Lookup(objects[k].properties, "/referenced_table_id") == Lookup(objects[i].properties, "/to_table_id")
  }

  /** A relationship leads to the table that its foreign key refers to. */
  lemma RelationshipFollowsForeignKey(snap: Snapshot, p: Projected, i: Identity)
    requires ModelOk(snap.model) && IsProjection(snap, p) && i in p.objects && i.kind == RelationshipKind
    requires Lookup(p.objects[i].properties, "/foreign_key_id") != Present(Null)
    ensures exists k :: FollowsForeignKey(p.objects, i, k)
  {
    hide IsProjection, ModelOk, Closed, AllDecls, PropsOf, ParentOf, DeclOk, IdentityJson;
    var d := DeclarationOf(snap, p, i);
    OneDatabaseProjected(snap, p);
    ProjectionClosed(snap, p);
    var raw, log := p.rawToIdentity, AllDecls(snap);
    assert d.RelationshipDecl?;
    assert d.rel.foreignKeyId.Some?;
    var fk := RelationshipJoin(log, raw, snap, d);
    var f := ForeignKeyDecl(d.s, d.t, fk);
    ObjectDeclared(snap, p, f);
    RawOf(log, raw, snap, f);
    var k := IdentityOf(f);
    assert k.path[..2] == [d.s.name, d.t.name] == i.path[..2];
    assert Lookup(p.objects[i].properties, "/foreign_key_id") == Present(IdentityJson(k));
    assert Lookup(p.objects[k].properties, "/referenced_table_id") == Present(RefOf(raw, fk.referencedTableId));
    assert FollowsForeignKey(p.objects, i, k);
  }

  lemma RawOf(log: set<Decl>, raw: RawIndex, snap: Snapshot, d: Decl)
    requires Closed(log, raw, snap) && d in log
    ensures RawId(d) in raw && raw[RawId(d)] == IdentityOf(d)
  {
    hide DeclOk, Linked, Resolved, Distinct, TablesClosed, RawId, IdentityOf;
  }

  /** A snapshot has one projection. */
  lemma ProjectionUnique(snap: Snapshot, p: Projected, q: Projected)
    requires IsProjection(snap, p) && IsProjection(snap, q)
    ensures p == q
  {
    hide AllDecls, Linked, Resolved, RawId, IdentityOf, FinalObject, EnvelopeOk, Distinct;
    var log := AllDecls(snap);
    TabulatesUnique(log, p.rawToIdentity, q.rawToIdentity, RawId, SomeIdentity);
    forall i ensures i in p.objects <==> i in q.objects {
      if i in p.objects { var d :| d in log && IdentityOf(d) == i; }
      if i in q.objects { var d :| d in log && IdentityOf(d) == i; }
    }
    forall i | i in p.objects ensures p.objects[i] == q.objects[i] {
      var d :| d in log && IdentityOf(d) == i;
    }
    assert p.objects == q.objects;
  }

  lemma TabulatesUnique<K, V>(log: set<Decl>, m: map<K, V>, n: map<K, V>, key: Decl -> K, val: Decl -> Option<V>)
    requires Tabulates(log, m, key, val) && Tabulates(log, n, key, val)
    ensures m == n
  {
  }
}
