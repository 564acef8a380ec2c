/**
 What the dictionaries of a projection mean: which declarations have been registered, when another
 one can be, and what the second pass can look up.
 */
module Registry {
  import opened Outcomes
  import opened Identities
  import opened Snapshots
  import opened Declarations
  import opened Sorting

  /** No two declarations share a raw id or a structured identity. */
  ghost predicate Distinct(log: set<Decl>) {
    forall d, e :: d in log && e in log && (RawId(d) == RawId(e) || IdentityOf(d) == IdentityOf(e)) ==> d == e
  }

  /** `m` maps the key of each declaration that has a value to that value, and holds nothing else. */
  ghost predicate Tabulates<K, V>(log: set<Decl>, m: map<K, V>, key: Decl -> K, val: Decl -> Option<V>) {
    && (forall d :: d in log && val(d).Some? ==> key(d) in m && m[key(d)] == val(d).value)
    && (forall k :: k in m ==> exists d :: d in log && key(d) == k && val(d) == Some(m[k]))
  }

  function Updated<K, V>(m: map<K, V>, k: K, v: Option<V>): map<K, V> {
    if v.Some? then m[k := v.value] else m
  }

  lemma TabulateStep<K, V>(log: set<Decl>, m: map<K, V>, key: Decl -> K, val: Decl -> Option<V>, d: Decl)
    requires Tabulates(log, m, key, val) && forall e :: e in log ==> key(e) != key(d)
    ensures Tabulates(log + {d}, Updated(m, key(d), val(d)), key, val)
  {
    var n := Updated(m, key(d), val(d));
    assert d in log + {d};
    forall k | k in n ensures exists e :: e in log + {d} && key(e) == k && val(e) == Some(n[k]) {
      if k in m && k != key(d) {
        var e :| e in log && key(e) == k && val(e) == Some(m[k]);
        assert e in log + {d};
      }
    }
  }

  function SomeIdentity(d: Decl): Option<Identity> { Some(IdentityOf(d)) }
  function SomeRawId(d: Decl): Option<string> { Some(RawId(d)) }
  function SomeObject(d: Decl): Option<ComparableObject> { Some(ObjectOf(d)) }
  function SchemaOf(d: Decl): Option<Schema> { if d.SchemaDecl? then Some(d.s) else None }
  function TableOf(d: Decl): Option<Table> { if d.TableDecl? then Some(d.t) else None }
  function ColumnOf(d: Decl): Option<Column> { if d.ColumnDecl? then Some(d.c) else None }
  function ForeignKeyOf(d: Decl): Option<ForeignKey> { if d.ForeignKeyDecl? then Some(d.fk) else None }

  /** The dictionaries by raw id and by identity that the loops of the projection fill. */
  datatype Tables = Tables(
    raw: RawIndex, back: map<Identity, string>,
    schemas: map<string, Schema>, tables: map<string, Table>, columns: map<string, Column>, fks: map<string, ForeignKey>)

  /** The dictionaries hold exactly the declarations of `log`; the two id dictionaries are inverse. */
  ghost predicate Agrees(log: set<Decl>, x: Tables) {
    && Distinct(log)
    && Tabulates(log, x.raw, RawId, SomeIdentity)
    && Tabulates(log, x.back, IdentityOf, SomeRawId)
    && Tabulates(log, x.schemas, RawId, SchemaOf)
    && Tabulates(log, x.tables, RawId, TableOf)
    && Tabulates(log, x.columns, RawId, ColumnOf)
    && Tabulates(log, x.fks, RawId, ForeignKeyOf)
  }

  function After(x: Tables, d: Decl): Tables {
    Tables(
      Updated(x.raw, RawId(d), SomeIdentity(d)), Updated(x.back, IdentityOf(d), SomeRawId(d)),
      Updated(x.schemas, RawId(d), SchemaOf(d)), Updated(x.tables, RawId(d), TableOf(d)),
      Updated(x.columns, RawId(d), ColumnOf(d)), Updated(x.fks, RawId(d), ForeignKeyOf(d)))
  }

  /** Registering a declaration with a new raw id and a new identity keeps the dictionaries in step. */
  lemma AgreesStep(log: set<Decl>, x: Tables, d: Decl)
    requires Agrees(log, x) && RawId(d) !in x.raw && IdentityOf(d) !in x.back
    ensures Agrees(log + {d}, After(x, d))
  {
    hide Tabulates, Distinct, Updated, ObjectOf, RawId, IdentityOf, SomeIdentity, SomeRawId, SomeObject, SchemaOf, TableOf, ColumnOf, ForeignKeyOf;
    FreshDecl(log, x, d);
    DistinctStep(log, d);
    TabulateStep(log, x.raw, RawId, SomeIdentity, d);
    TabulateStep(log, x.back, IdentityOf, SomeRawId, d);
    TabulateStep(log, x.schemas, RawId, SchemaOf, d);
    TabulateStep(log, x.tables, RawId, TableOf, d);
    TabulateStep(log, x.columns, RawId, ColumnOf, d);
    TabulateStep(log, x.fks, RawId, ForeignKeyOf, d);
  }

  lemma ObjectsStep(log: set<Decl>, x: Tables, objects: map<Identity, ComparableObject>, d: Decl)
    requires Agrees(log, x) && RawId(d) !in x.raw && IdentityOf(d) !in x.back && Tabulates(log, objects, IdentityOf, SomeObject)
    ensures Tabulates(log + {d}, objects[IdentityOf(d) := ObjectOf(d)], IdentityOf, SomeObject)
  {
    hide Agrees, Tabulates, RawId, IdentityOf, ObjectOf;
    FreshDecl(log, x, d);
    TabulateStep(log, objects, IdentityOf, SomeObject, d);
  }

  lemma UpdatedPresent<K, V>(m: map<K, V>, k: K, v: V)
    ensures Updated(m, k, Some(v)) == m[k := v]
  {
  }

  lemma DistinctStep(log: set<Decl>, d: Decl)
    requires Distinct(log) && forall e :: e in log ==> RawId(e) != RawId(d) && IdentityOf(e) != IdentityOf(d)
    ensures Distinct(log + {d})
  {
    hide RawId, IdentityOf;
  }

  lemma FreshDecl(log: set<Decl>, x: Tables, d: Decl)
    requires Agrees(log, x) && RawId(d) !in x.raw && IdentityOf(d) !in x.back
    ensures forall e :: e in log ==> RawId(e) != RawId(d) && IdentityOf(e) != IdentityOf(d)
  {
    hide RawId, IdentityOf, ObjectOf;
    forall e | e in log ensures RawId(e) != RawId(d) && IdentityOf(e) != IdentityOf(d) {
      assert SomeIdentity(e).Some? && SomeRawId(e).Some?;
    }
  }

  /** Neither the raw id nor the identity of `d` is taken. */
  ghost predicate Fresh(log: set<Decl>, d: Decl) {
    forall e :: e in log ==> RawId(e) != RawId(d) && IdentityOf(e) != IdentityOf(d)
  }

  /** The declarations `more` can join those of `log` without any duplicate. */
  ghost predicate Admits(log: set<Decl>, more: set<Decl>) {
    Distinct(log + more) && log !! more
  }

  /** A new raw id and a new identity are exactly those of no declaration so far. */
  lemma FreshKeys(log: set<Decl>, x: Tables, d: Decl)
    requires Agrees(log, x)
    ensures RawId(d) !in x.raw && IdentityOf(d) !in x.back <==> Fresh(log, d)
  {
    hide RawId, IdentityOf;
    if RawId(d) !in x.raw && IdentityOf(d) !in x.back {
      FreshDecl(log, x, d);
    }
    if RawId(d) in x.raw {
      var e :| e in log && RawId(e) == RawId(d);
    }
    if IdentityOf(d) in x.back {
      var e :| e in log && IdentityOf(e) == IdentityOf(d);
    }
  }

  lemma AdmitStep(log: set<Decl>, done: set<Decl>, d: Decl)
    ensures Admits(log, done) && Fresh(log + done, d) <==> Admits(log, done + {d}) && d !in done
  {
    hide RawId, IdentityOf;
  }

  lemma AdmitParts(log: set<Decl>, a: set<Decl>, b: set<Decl>)
    ensures Admits(log, a) && Admits(log + a, b) <==> Admits(log, a + b) && a !! b
  {
    hide RawId, IdentityOf;
    assert (log + a) + b == log + (a + b);
  }

  lemma NoRepeatsSnoc<T(!new)>(s: seq<T>, x: T)
    ensures NoRepeats(s + [x]) <==> NoRepeats(s) && x !in s
  {
    var t := s + [x];
    if NoRepeats(t) {
      forall i, j | 0 <= i < j < |s| ensures s[i] != s[j] { assert t[i] != t[j]; }
      forall i | 0 <= i < |s| ensures s[i] != x { assert t[i] != t[|s|]; }
    }
  }

  /** Nothing is listed twice inside a table. */
  ghost predicate TableListed(t: Table) {
    NoRepeats(t.columns) && NoRepeats(t.foreignKeys)
  }

  ghost predicate TablesListed(tables: seq<Table>) {
    NoRepeats(tables) && forall t :: t in tables ==> TableListed(t)
  }

  ghost predicate SchemasListed(schemas: seq<Schema>) {
    NoRepeats(schemas) && forall s :: s in schemas ==> TablesListed(s.tables)
  }

  /** A table is declared with everything in it, and nothing in a table is declared without it. */
  ghost predicate TablesClosed(log: set<Decl>) {
    && (forall s, t :: TableDecl(s, t) in log ==> TableDecls(s, t) <= log)
    && (forall d :: d in log && (d.ColumnDecl? || d.PrimaryKeyDecl? || d.ForeignKeyDecl?) ==>
          TableDecl(d.s, d.t) in log && d in TableDecls(d.s, d.t))
  }

  ghost predicate AllResolved(log: set<Decl>) {
    forall d :: d in log ==> Resolved(log, d)
  }

  /** The columns of a table are found by raw id. */
  ghost predicate ColumnsKnown(x: Tables, t: Table) {
    forall c :: c in t.columns ==> c.id in x.columns && c.id in x.raw && x.raw[c.id].kind == ColumnKind
  }

  lemma ColumnsIndexed(log: set<Decl>, x: Tables, s: Schema, t: Table)
    requires Agrees(log, x) && TablesClosed(log) && TableDecl(s, t) in log
    ensures ColumnsKnown(x, t)
  {
    hide Distinct, Tabulates;
    forall c | c in t.columns ensures c.id in x.columns && c.id in x.raw && x.raw[c.id].kind == ColumnKind {
      var d := ColumnDecl(s, t, c);
      assert d in TableDecls(s, t);
      RawKnown(log, x, d);
      ColumnIndexed(log, x, d);
    }
  }

  lemma ColumnIndexed(log: set<Decl>, x: Tables, d: Decl)
    requires Agrees(log, x) && d in log && d.ColumnDecl?
    ensures d.c.id in x.columns
  {
    hide Distinct;
    assert ColumnOf(d).Some?;
  }

  lemma PrimaryKeyResolvable(log: set<Decl>, x: Tables, s: Schema, t: Table, pk: PrimaryKey)
    requires Agrees(log, x) && TableDecl(s, t) in log
    ensures Resolved(log, PrimaryKeyDecl(s, t, pk)) <==> HasColumns(t, pk.columnIds)
    ensures TablesClosed(log) ==> ColumnsKnown(x, t)
  {
    hide Agrees, TablesClosed, HasColumns, ColumnsKnown;
    if TablesClosed(log) { ColumnsIndexed(log, x, s, t); }
  }

  lemma ForeignKeyResolved(log: set<Decl>, s: Schema, t: Table, fk: ForeignKey, s': Schema, t': Table)
    requires TableDecl(s', t') in log && HasColumns(t, fk.columnIds) && t'.id == fk.referencedTableId
    requires HasColumns(t', fk.referencedColumnIds) && |fk.columnIds| == |fk.referencedColumnIds|
    ensures Resolved(log, ForeignKeyDecl(s, t, fk))
  {
    hide HasColumns;
    assert RefersTo(fk, t');
  }

  lemma JoinsTables(fk: ForeignKey, rel: Relationship)
    requires rel.foreignKeyId == Some(fk.id) && fk.tableId == rel.fromTableId && fk.referencedTableId == rel.toTableId
    ensures Joins(fk, rel)
  {
  }

  lemma RelationshipResolved(log: set<Decl>, s: Schema, t: Table, rel: Relationship, s': Schema, t': Table)
    requires TableDecl(s', t') in log && t'.id == rel.toTableId
    requires rel.foreignKeyId.Some? ==> exists fs, ft, fk :: ForeignKeyDecl(fs, ft, fk) in log && Joins(fk, rel)
    ensures Resolved(log, RelationshipDecl(s, t, rel))
  {
    hide Joins;
  }

  /** A resolvable foreign key finds its referenced table and the columns of both tables. */
  lemma ForeignKeyResolvable(log: set<Decl>, x: Tables, s: Schema, t: Table, fk: ForeignKey)
    requires Agrees(log, x) && TablesClosed(log) && TableDecl(s, t) in log && Resolved(log, ForeignKeyDecl(s, t, fk))
    ensures t.id in x.tables && x.tables[t.id] == t && ColumnsKnown(x, t) && HasColumns(t, fk.columnIds)
    ensures var id := fk.referencedTableId;
      && id in x.raw && x.raw[id].kind == TableKind && id in x.tables && ColumnsKnown(x, x.tables[id])
      && HasColumns(x.tables[id], fk.referencedColumnIds) && |fk.columnIds| == |fk.referencedColumnIds|
  {
    hide Agrees, TablesClosed, HasColumns, ColumnsKnown;
    var s', t' :| TableDecl(s', t') in log && RefersTo(fk, t');
    TableKnown(log, x, s, t);
    TableKnown(log, x, s', t');
    RawKnown(log, x, TableDecl(s', t'));
    ColumnsIndexed(log, x, s, t);
    ColumnsIndexed(log, x, s', t');
  }

  /** The table a relationship starts from is declared with its schema. */
  ghost predicate OwnersKnown(log: set<Decl>) {
    forall d :: d in log && d.RelationshipDecl? ==>
      TableDecl(d.s, d.t) in log && SchemaDecl(d.s) in log && d.rel.fromTableId == d.t.id && d.t.schemaId == d.s.id
  }

  lemma ForeignKeyKnown(log: set<Decl>, x: Tables, d: Decl)
    requires Agrees(log, x) && d in log && d.ForeignKeyDecl?
    ensures d.fk.id in x.fks && x.fks[d.fk.id] == d.fk
  {
    hide Distinct;
    assert ForeignKeyOf(d).Some?;
  }

  lemma RelationshipResolvable(log: set<Decl>, x: Tables, s: Schema, t: Table, rel: Relationship)
    requires Agrees(log, x) && OwnersKnown(log) && RelationshipDecl(s, t, rel) in log && Resolved(log, RelationshipDecl(s, t, rel))
    ensures rel.toTableId in x.raw && x.raw[rel.toTableId].kind == TableKind
    ensures rel.fromTableId in x.tables && x.tables[rel.fromTableId].schemaId in x.schemas
    ensures rel.foreignKeyId.Some? ==>
      var id := rel.foreignKeyId.value;
      && id in x.fks && id in x.raw && x.raw[id].kind == ForeignKeyKind
      && x.fks[id].tableId == rel.fromTableId && x.fks[id].referencedTableId == rel.toTableId
  {
    hide Agrees;
    var s', t' :| TableDecl(s', t') in log && t'.id == rel.toTableId;
    RawKnown(log, x, TableDecl(s', t'));
    TableKnown(log, x, s, t);
    SchemaKnown(log, x, s);
    if rel.foreignKeyId.Some? {
      var fs, ft, fk :| ForeignKeyDecl(fs, ft, fk) in log && Joins(fk, rel);
      RawKnown(log, x, ForeignKeyDecl(fs, ft, fk));
      ForeignKeyKnown(log, x, ForeignKeyDecl(fs, ft, fk));
    }
  }

  lemma SameRawId(log: set<Decl>, x: Tables, d: Decl, e: Decl)
    requires Agrees(log, x) && d in log && e in log && RawId(d) == RawId(e)
    ensures d == e
  {
    DeclsDistinct(log, x);
  }

  lemma SameTable(log: set<Decl>, x: Tables, s: Schema, s': Schema, t: Table)
    requires Agrees(log, x) && TableDecl(s, t) in log && TableDecl(s', t) in log
    ensures s == s'
  {
    hide Agrees;
    SameRawId(log, x, TableDecl(s, t), TableDecl(s', t));
  }

  function Overwritten(objects: map<Identity, ComparableObject>, identity: Identity, changes: Properties): map<Identity, ComparableObject>
    requires identity in objects
  {
    var obj := objects[identity];
    objects[identity := ComparableObject(obj.objectIdentity, obj.parentIdentity, obj.properties + changes)]
  }

  /** The objects of `done` carry their references, the others still their placeholders. */
  ghost predicate Patched(log: set<Decl>, raw: RawIndex, objects: map<Identity, ComparableObject>, done: set<Decl>) {
    forall d :: d in log ==> IdentityOf(d) in objects && objects[IdentityOf(d)] == (if d in done then FinalObject(raw, d) else ObjectOf(d))
  }

  lemma PatchStep(log: set<Decl>, x: Tables, objects: map<Identity, ComparableObject>, done: set<Decl>, d: Decl, changes: Properties)
    requires Agrees(log, x) && Patched(log, x.raw, objects, done) && d in log && changes == References(x.raw, d)
    ensures IdentityOf(d) in objects
    ensures Patched(log, x.raw, Overwritten(objects, IdentityOf(d), changes), done + {d})
  {
    hide IdentityOf, RawId, ObjectOf, References, Tabulates, PropsOf, ParentOf;
    assert ObjectOf(d) == ComparableObject(IdentityOf(d), ParentOf(d), PropsOf(d)) by { ObjectParts(d); }
    assert PropsOf(d) + References(x.raw, d) + References(x.raw, d) == PropsOf(d) + References(x.raw, d);
  }

  lemma ObjectParts(d: Decl)
    ensures ObjectOf(d) == ComparableObject(IdentityOf(d), ParentOf(d), PropsOf(d))
  {
  }

  lemma SingleAdmitted(log: set<Decl>, d: Decl)
    ensures Distinct(log) ==> (Fresh(log, d) <==> Admits(log, {d}))
  {
    hide RawId, IdentityOf;
    AdmitStep(log, {}, d);
    assert log + {} == log && {} + {d} == {d};
  }

  /** The parts of a table are admitted one after the other exactly when they are admitted together. */
  lemma TableAdmitted(log: set<Decl>, s: Schema, t: Table)
    ensures Distinct(log) ==>
      (Admits(log, TableDecls(s, t)) <==>
        var log1 := log + {TableDecl(s, t)};
        var log2 := log1 + ColumnDecls(s, t, t.columns);
        && Fresh(log, TableDecl(s, t)) && Admits(log1, ColumnDecls(s, t, t.columns))
        && Admits(log2, PrimaryKeyDecls(s, t)) && Admits(log2 + PrimaryKeyDecls(s, t), ForeignKeyDecls(s, t, t.foreignKeys)))
  {
    hide Fresh, Admits, Distinct;
    var a, b, c, d := {TableDecl(s, t)}, ColumnDecls(s, t, t.columns), PrimaryKeyDecls(s, t), ForeignKeyDecls(s, t, t.foreignKeys);
    SingleAdmitted(log, TableDecl(s, t));
    AdmitParts(log, a, b);
    AdmitParts(log, a + b, c);
    AdmitParts(log, a + b + c, d);
    assert log + (a + b) == log + a + b && log + (a + b + c) == log + a + b + c;
  }

  lemma LinkedTable(snap: Snapshot, s: Schema, t: Table)
    requires OneDatabase(snap)
    ensures AllLinked(snap, TableDecls(s, t)) <==>
      && t.schemaId == s.id && (t.primaryKey.Some? ==> t.primaryKey.value.tableId == t.id)
      && forall fk :: fk in t.foreignKeys ==> fk.tableId == t.id
  {
    if AllLinked(snap, TableDecls(s, t)) {
      assert Linked(snap, TableDecl(s, t));
      if t.primaryKey.Some? { assert Linked(snap, PrimaryKeyDecl(s, t, t.primaryKey.value)); }
      forall fk | fk in t.foreignKeys ensures fk.tableId == t.id {
        assert Linked(snap, ForeignKeyDecl(s, t, fk));
      }
    }
  }

  lemma NoTables(s: Schema, log: set<Decl>)
    ensures TablesDecls(s, []) == {} && log + TablesDecls(s, []) == log && TablesListed([])
    ensures Distinct(log) ==> Admits(log, TablesDecls(s, []))
  {
    hide RawId, IdentityOf;
  }

  lemma TablesSnoc(snap: Snapshot, log: set<Decl>, s: Schema, tables: seq<Table>, t: Table)
    requires OneDatabase(snap)
    ensures var a, b := TablesDecls(s, tables), TableDecls(s, t);
      && (AllLinked(snap, TablesDecls(s, tables + [t])) <==> AllLinked(snap, a) && AllLinked(snap, b))
      && (Admits(log, a) && Admits(log + a, b) && TablesListed(tables) && TableListed(t)
        <==> Admits(log, TablesDecls(s, tables + [t])) && TablesListed(tables + [t]))
  {
    hide Linked, Admits, TableDecls, TableListed, NoRepeats;
    var a, b := TablesDecls(s, tables), TableDecls(s, t);
    TablesDeclsSnoc(s, tables, t);
    AdmitParts(log, a, b);
    NoRepeatsSnoc(tables, t);
    assert a !! b <==> t !in tables by { TablesApart(s, tables, t); }
  }

  lemma TablesApart(s: Schema, tables: seq<Table>, t: Table)
    ensures TablesDecls(s, tables) !! TableDecls(s, t) <==> t !in tables
  {
    assert TableDecl(s, t) in TableDecls(s, t);
    forall d | d in TablesDecls(s, tables) ensures InTable(s, d.t, d) && d.t in tables {
      var t' :| t' in tables && d in TableDecls(s, t');
      TableDeclsMembers(s, t');
    }
    TableDeclsMembers(s, t);
  }

  lemma SchemaAdmitted(snap: Snapshot, log: set<Decl>, s: Schema)
    requires OneDatabase(snap)
    ensures var a, b := {SchemaDecl(s)}, TablesDecls(s, s.tables);
      && (Admits(log, a) && Admits(log + a, b) <==> Admits(log, SchemaDecls(s)))
      && (AllLinked(snap, SchemaDecls(s)) <==> s.databaseId == TheDatabase(snap).id && AllLinked(snap, b))
  {
    var a, b := {SchemaDecl(s)}, TablesDecls(s, s.tables);
    assert a !! b;
    hide Admits, TablesDecls;
    AdmitParts(log, a, b);
    assert Linked(snap, SchemaDecl(s)) <==> s.databaseId == TheDatabase(snap).id;
    assert a + b == SchemaDecls(s);
  }

  ghost predicate AllLinked(snap: Snapshot, log: set<Decl>)
    requires OneDatabase(snap)
  {
    forall d :: d in log ==> Linked(snap, d)
  }

  /** The schema of every declared table is declared. */
  ghost predicate SchemasKnown(log: set<Decl>) {
    forall d :: d in log && d.TableDecl? ==> SchemaDecl(d.s) in log
  }

  lemma TablesDeclsSnoc(s: Schema, tables: seq<Table>, t: Table)
    ensures TablesDecls(s, tables + [t]) == TablesDecls(s, tables) + TableDecls(s, t)
  {
    hide TableDecls;
  }

  /** The table and the schema found for a relationship are those it was declared under. */
  lemma RelationshipOwner(snap: Snapshot, base: set<Decl>, log: set<Decl>, x: Tables, rel: Relationship)
    requires OneDatabase(snap) && Agrees(log, x) && base <= log && SchemasKnown(base) && AllLinked(snap, base)
    requires forall d :: d in log && d.TableDecl? ==> d in base
    requires rel.fromTableId in x.tables && x.tables[rel.fromTableId].schemaId in x.schemas
    ensures var t := x.tables[rel.fromTableId];
      var s := x.schemas[t.schemaId];
      RelationshipDecls(base, [rel]) == {RelationshipDecl(s, t, rel)}
  {
    hide Agrees;
    var t := x.tables[rel.fromTableId];
    var s := x.schemas[t.schemaId];
    var s' := TableFound(log, x, rel.fromTableId);
    SchemaFound(log, x, t.schemaId);
    DeclsDistinct(log, x);
    var d := TableDecl(s', t);
    assert SchemaDecl(s') in log && Linked(snap, d);
    assert RawId(SchemaDecl(s')) == RawId(SchemaDecl(s));
    forall f | f in base && f.TableDecl? && rel.fromTableId == f.t.id ensures f == d {
      assert RawId(f) == RawId(d);
    }
    OnlyRelationship(base, d, rel);
  }

  /** A relationship has an owner exactly when the table it starts from is found with its schema. */
  lemma OwnerIndexed(snap: Snapshot, base: set<Decl>, log: set<Decl>, x: Tables, rel: Relationship)
    requires OneDatabase(snap) && Agrees(log, x) && base <= log && SchemasKnown(base) && AllLinked(snap, base)
    requires forall d :: d in log && d.TableDecl? ==> d in base
    ensures RelationshipDecls(base, [rel]) != {} <==>
      rel.fromTableId in x.tables && x.tables[rel.fromTableId].schemaId in x.schemas
  {
    hide Agrees;
    if rel.fromTableId in x.tables {
      var s := TableFound(log, x, rel.fromTableId);
      assert RelationshipDecl(s, x.tables[rel.fromTableId], rel) in RelationshipDecls(base, [rel]);
    }
    if RelationshipDecls(base, [rel]) != {} {
      var r :| r in RelationshipDecls(base, [rel]);
      var d :| d in base && d.TableDecl? && rel.fromTableId == d.t.id;
      TableKnown(log, x, d.s, d.t);
      SchemaKnown(log, x, d.s);
      assert Linked(snap, d);
    }
  }

  lemma OnlyRelationship(base: set<Decl>, d: Decl, rel: Relationship)
    requires d in base && d.TableDecl? && d.t.id == rel.fromTableId
    requires forall f :: f in base && f.TableDecl? && rel.fromTableId == f.t.id ==> f == d
    ensures RelationshipDecls(base, [rel]) == {RelationshipDecl(d.s, d.t, rel)}
  {
    assert rel in [rel];
  }

  lemma Tabulated<K, V>(log: set<Decl>, m: map<K, V>, key: Decl -> K, val: Decl -> Option<V>, k: K) returns (d: Decl)
    requires Tabulates(log, m, key, val) && k in m
    ensures d in log && key(d) == k && val(d) == Some(m[k])
  {
    d :| d in log && key(d) == k && val(d) == Some(m[k]);
  }

  lemma RawKnown(log: set<Decl>, x: Tables, d: Decl)
    requires Agrees(log, x) && d in log
    ensures RawId(d) in x.raw && x.raw[RawId(d)] == IdentityOf(d) && IdentityOf(d) in x.back
  {
    hide Distinct, RawId, IdentityOf;
    assert SomeIdentity(d).Some? && SomeRawId(d).Some?;
  }

  lemma TableKnown(log: set<Decl>, x: Tables, s: Schema, t: Table)
    requires Agrees(log, x) && TableDecl(s, t) in log
    ensures t.id in x.tables && x.tables[t.id] == t
  {
    hide Distinct;
    assert TableOf(TableDecl(s, t)).Some?;
  }

  lemma SchemaKnown(log: set<Decl>, x: Tables, s: Schema)
    requires Agrees(log, x) && SchemaDecl(s) in log
    ensures s.id in x.schemas && x.schemas[s.id] == s
  {
    hide Distinct;
    assert SchemaOf(SchemaDecl(s)).Some?;
  }

  /** A raw id that names an identity of table kind is the id of a declared table. */
  lemma TableKindFound(log: set<Decl>, x: Tables, id: string) returns (s: Schema, t: Table)
    requires Agrees(log, x) && id in x.raw && x.raw[id].kind == TableKind
    ensures TableDecl(s, t) in log && t.id == id
  {
    hide Tabulates, Distinct;
    var d := Tabulated(log, x.raw, RawId, SomeIdentity, id);
    s, t := d.s, d.t;
  }

  /** A table found by raw id is declared. */
  lemma TableFound(log: set<Decl>, x: Tables, id: string) returns (s: Schema)
    requires Agrees(log, x) && id in x.tables
    ensures TableDecl(s, x.tables[id]) in log && x.tables[id].id == id
  {
    hide Tabulates, Distinct;
    var d := Tabulated(log, x.tables, RawId, TableOf, id);
    s := d.s;
  }

  lemma SchemaFound(log: set<Decl>, x: Tables, id: string)
    requires Agrees(log, x) && id in x.schemas
    ensures SchemaDecl(x.schemas[id]) in log && x.schemas[id].id == id
  {
    hide Tabulates, Distinct;
    var d := Tabulated(log, x.schemas, RawId, SchemaOf, id);
  }

  lemma ForeignKeyFound(log: set<Decl>, x: Tables, id: string) returns (s: Schema, t: Table)
    requires Agrees(log, x) && id in x.fks
    ensures ForeignKeyDecl(s, t, x.fks[id]) in log && x.fks[id].id == id
  {
    hide Tabulates, Distinct;
    var d := Tabulated(log, x.fks, RawId, ForeignKeyOf, id);
    s, t := d.s, d.t;
  }

  lemma DeclsDistinct(log: set<Decl>, x: Tables)
    requires Agrees(log, x)
    ensures forall d, e :: d in log && e in log && RawId(d) == RawId(e) ==> d == e
  {
    hide Tabulates;
  }
}
