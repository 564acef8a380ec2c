/**
 The projection of one snapshot into comparable objects: registration with duplicate checks,
 then two passes that replace raw references by structured ones.
 */
module Projection {
  import opened Outcomes
  import opened JsonText
  import opened Identities
  import opened Snapshots
  import opened Declarations
  import opened Registry
  import opened Sorting

  /** The mutable state of one projection. */
  class Projector {
    var rawToIdentity: RawIndex
    var identityToRaw: map<Identity, string>
    var objects: map<Identity, ComparableObject>
    var schemaById: map<string, Schema>
    var tableById: map<string, Table>
    var columnById: map<string, Column>
    var fkById: map<string, ForeignKey>
    var errors: nat
    /** What has been registered so far. */
    ghost var log: set<Decl>

    function State(): Tables
      reads this
    {
      Tables(rawToIdentity, identityToRaw, schemaById, tableById, columnById, fkById)
    }

    /** As long as nothing was refused, all the dictionaries agree with the log. */
    ghost predicate Valid()
      reads this
    {
      errors == 0 ==> Agrees(log, State()) && Tabulates(log, objects, IdentityOf, SomeObject)
    }

    constructor ()
      ensures Valid() && errors == 0 && log == {}
    {
      rawToIdentity, identityToRaw, objects := map[], map[], map[];
      schemaById, tableById, columnById, fkById := map[], map[], map[], map[];
      errors, log := 0, {};
    }

    /** The nested function of the source: refuses a raw id or an identity that is taken. */
    method Register(d: Decl)
      modifies `rawToIdentity, `identityToRaw, `objects, `errors, `log
      ensures RawId(d) in old(rawToIdentity) || IdentityOf(d) in old(identityToRaw) ==>
        errors == old(errors) + 1 && rawToIdentity == old(rawToIdentity)
        && identityToRaw == old(identityToRaw) && objects == old(objects) && log == old(log)
      ensures RawId(d) !in old(rawToIdentity) && IdentityOf(d) !in old(identityToRaw) ==>
        && errors == old(errors)
        && rawToIdentity == old(rawToIdentity)[RawId(d) := IdentityOf(d)]
        && identityToRaw == old(identityToRaw)[IdentityOf(d) := RawId(d)]
        && objects == old(objects)[IdentityOf(d) := ObjectOf(d)]
        && log == old(log) + {d}
    {
      hide RawId, IdentityOf, FixedProps, TechAttributes, TechProps, ParentOf;
      if RawId(d) in rawToIdentity {
        errors := errors + 1;
        return;
      }
      if IdentityOf(d) in identityToRaw {
        errors := errors + 1;
        return;
      }
      var props := AddTechProps(FixedProps(d), TechAttributes(d));
      rawToIdentity := rawToIdentity[RawId(d) := IdentityOf(d)];
      identityToRaw := identityToRaw[IdentityOf(d) := RawId(d)];
      objects := objects[IdentityOf(d) := ComparableObject(IdentityOf(d), ParentOf(d), props)];
      log := log + {d};
    }

    /** One declaration: noted by raw id, its back reference checked, then registered. */
    method Declare(d: Decl, linked: bool)
      requires Valid()
      modifies this
      ensures Valid() && errors >= old(errors)
      ensures errors == 0 ==> log == old(log) + {d}
      ensures errors == 0 <==> old(errors) == 0 && linked && Fresh(old(log), d)
    {
      hide Agrees, Tabulates, ObjectOf, RawId, IdentityOf, Fresh, Updated, SchemaOf, TableOf, ColumnOf, ForeignKeyOf;
      ghost var before := State();
      Index(d);
      if !linked {
        errors := errors + 1;
      }
      if old(errors) == 0 { FreshKeys(old(log), before, d); }
      Register(d);
      if errors == 0 {
        AgreesStep(old(log), before, d);
        ObjectsStep(old(log), before, old(objects), d);
        UpdatedPresent(before.raw, RawId(d), IdentityOf(d));
        UpdatedPresent(before.back, IdentityOf(d), RawId(d));
        assert State() == After(before, d);
      }
    }

    /** Notes a schema, table, column or foreign key under its raw id, also when the id is taken. */
    method Index(d: Decl)
      modifies `schemaById, `tableById, `columnById, `fkById
      ensures schemaById == Updated(old(schemaById), RawId(d), SchemaOf(d))
      ensures tableById == Updated(old(tableById), RawId(d), TableOf(d))
      ensures columnById == Updated(old(columnById), RawId(d), ColumnOf(d))
      ensures fkById == Updated(old(fkById), RawId(d), ForeignKeyOf(d))
    {
      match d
      case SchemaDecl(s) => schemaById := schemaById[s.id := s];
      case TableDecl(_, t) => tableById := tableById[t.id := t];
      case ColumnDecl(_, _, c) => columnById := columnById[c.id := c];
      case ForeignKeyDecl(_, _, fk) => fkById := fkById[fk.id := fk];
      case _ =>
    }

    method DeclareColumns(s: Schema, t: Table)
      requires Valid()
      modifies this
      ensures Valid() && errors >= old(errors)
      ensures errors == 0 ==> log == old(log) + ColumnDecls(s, t, t.columns)
      ensures errors == 0 <==> old(errors) == 0 && Admits(old(log), ColumnDecls(s, t, t.columns)) && NoRepeats(t.columns)
    {
      hide Agrees, Tabulates, Fresh, Distinct;
      if errors == 0 { ValidDistinct(); }
      assert old(log) + ColumnDecls(s, t, []) == old(log);
      for i := 0 to |t.columns|
        invariant Valid() && errors >= old(errors)
        invariant errors == 0 ==> log == old(log) + ColumnDecls(s, t, t.columns[..i])
        invariant errors == 0 <==> old(errors) == 0 && Admits(old(log), ColumnDecls(s, t, t.columns[..i])) && NoRepeats(t.columns[..i])
      {
        assert t.columns[..i + 1] == t.columns[..i] + [t.columns[i]];
        ghost var d := ColumnDecl(s, t, t.columns[i]);
        AdmitStep(old(log), ColumnDecls(s, t, t.columns[..i]), d);
        NoRepeatsSnoc(t.columns[..i], t.columns[i]);
        assert ColumnDecls(s, t, t.columns[..i + 1]) == ColumnDecls(s, t, t.columns[..i]) + {d};
        assert d in ColumnDecls(s, t, t.columns[..i]) <==> t.columns[i] in t.columns[..i];
        Declare(ColumnDecl(s, t, t.columns[i]), true);
      }
      assert t.columns[..|t.columns|] == t.columns;
    }

    method DeclareForeignKeys(s: Schema, t: Table)
      requires Valid()
      modifies this
      ensures Valid() && errors >= old(errors)
      ensures errors == 0 ==> log == old(log) + ForeignKeyDecls(s, t, t.foreignKeys)
      ensures errors == 0 <==>
        && old(errors) == 0 && Admits(old(log), ForeignKeyDecls(s, t, t.foreignKeys)) && NoRepeats(t.foreignKeys)
        && forall fk :: fk in t.foreignKeys ==> fk.tableId == t.id
    {
      hide Agrees, Tabulates, Fresh, Distinct;
      if errors == 0 { ValidDistinct(); }
      assert old(log) + ForeignKeyDecls(s, t, []) == old(log);
      for i := 0 to |t.foreignKeys|
        invariant Valid() && errors >= old(errors)
        invariant errors == 0 ==> log == old(log) + ForeignKeyDecls(s, t, t.foreignKeys[..i])
        invariant errors == 0 <==>
          && old(errors) == 0 && Admits(old(log), ForeignKeyDecls(s, t, t.foreignKeys[..i])) && NoRepeats(t.foreignKeys[..i])
          && forall fk :: fk in t.foreignKeys[..i] ==> fk.tableId == t.id
      {
        assert t.foreignKeys[..i + 1] == t.foreignKeys[..i] + [t.foreignKeys[i]];
        ghost var d := ForeignKeyDecl(s, t, t.foreignKeys[i]);
        AdmitStep(old(log), ForeignKeyDecls(s, t, t.foreignKeys[..i]), d);
        NoRepeatsSnoc(t.foreignKeys[..i], t.foreignKeys[i]);
        assert ForeignKeyDecls(s, t, t.foreignKeys[..i + 1]) == ForeignKeyDecls(s, t, t.foreignKeys[..i]) + {d};
        assert d in ForeignKeyDecls(s, t, t.foreignKeys[..i]) <==> t.foreignKeys[i] in t.foreignKeys[..i];
        Declare(ForeignKeyDecl(s, t, t.foreignKeys[i]), t.foreignKeys[i].tableId == t.id);
      }
      assert t.foreignKeys[..|t.foreignKeys|] == t.foreignKeys;
    }

    method DeclarePrimaryKey(s: Schema, t: Table)
      requires Valid()
      modifies this
      ensures Valid() && errors >= old(errors)
      ensures errors == 0 ==> log == old(log) + PrimaryKeyDecls(s, t)
      ensures errors == 0 <==>
        && old(errors) == 0 && Admits(old(log), PrimaryKeyDecls(s, t))
        && (t.primaryKey.Some? ==> t.primaryKey.value.tableId == t.id)
    {
      hide Agrees, Tabulates, Fresh, Distinct;
      if errors == 0 { ValidDistinct(); }
      assert old(log) + {} == old(log);
      if t.primaryKey.Some? {
        AdmitStep(old(log), {}, PrimaryKeyDecl(s, t, t.primaryKey.value));
        assert {} + PrimaryKeyDecls(s, t) == PrimaryKeyDecls(s, t);
        Declare(PrimaryKeyDecl(s, t, t.primaryKey.value), t.primaryKey.value.tableId == t.id);
      }
    }

    /** One table: the table itself, its columns, its primary key, its foreign keys. */
    method DeclareTable(snap: Snapshot, s: Schema, t: Table)
      requires Valid() && OneDatabase(snap)
      modifies this
      ensures Valid() && errors >= old(errors)
      ensures errors == 0 ==> log == old(log) + TableDecls(s, t)
      ensures errors == 0 <==>
        old(errors) == 0 && Admits(old(log), TableDecls(s, t)) && AllLinked(snap, TableDecls(s, t)) && TableListed(t)
    {
      hide Agrees, Tabulates, Fresh, Admits, NoRepeats;
      ghost var log0 := log;
      TableAdmitted(log0, s, t);
      LinkedTable(snap, s, t);
      assert old(errors) == 0 ==> Distinct(log0) by { ValidDistinct(); }
      Declare(TableDecl(s, t), t.schemaId == s.id);
      DeclareColumns(s, t);
      DeclarePrimaryKey(s, t);
      DeclareForeignKeys(s, t);
      assert errors == 0 ==> log == log0 + TableDecls(s, t);
    }

    lemma ValidDistinct()
      requires Valid()
      ensures errors == 0 ==> Distinct(log)
    {
      hide Tabulates;
    }

    method DeclareSchema(snap: Snapshot, s: Schema)
      requires Valid() && OneDatabase(snap)
      modifies this
      ensures Valid() && errors >= old(errors)
      ensures errors == 0 ==> log == old(log) + SchemaDecls(s)
      ensures errors == 0 <==>
        old(errors) == 0 && Admits(old(log), SchemaDecls(s)) && AllLinked(snap, SchemaDecls(s)) && TablesListed(s.tables)
    {
      hide Agrees, Tabulates, TableDecls, Fresh, Admits, NoRepeats, Distinct;
      ghost var log0, sd := log, {SchemaDecl(s)};
      SingleAdmitted(log0, SchemaDecl(s));
      assert old(errors) == 0 ==> Distinct(log0) by { ValidDistinct(); }
      Declare(SchemaDecl(s), s.databaseId == TheDatabase(snap).id);
      NoTables(s, log0 + sd);
      if errors == 0 { ValidDistinct(); }
      for i := 0 to |s.tables|
        invariant Valid() && errors >= old(errors)
        invariant errors == 0 ==> log == log0 + sd + TablesDecls(s, s.tables[..i])
        invariant errors == 0 <==>
          && old(errors) == 0 && Admits(log0, sd) && s.databaseId == TheDatabase(snap).id
          && Admits(log0 + sd, TablesDecls(s, s.tables[..i])) && AllLinked(snap, TablesDecls(s, s.tables[..i]))
          && TablesListed(s.tables[..i])
      {
        assert s.tables[..i + 1] == s.tables[..i] + [s.tables[i]];
        DeclareTable(snap, s, s.tables[i]);
        TablesDeclsSnoc(s, s.tables[..i], s.tables[i]);
        TablesSnoc(snap, log0 + sd, s, s.tables[..i], s.tables[i]);
      }
      assert s.tables[..|s.tables|] == s.tables;
      SchemaAdmitted(snap, log0, s);
      assert log0 + sd + TablesDecls(s, s.tables) == log0 + SchemaDecls(s);
    }

    /** A relationship is declared under the table it starts from, once that table and its schema resolve. */
    method DeclareRelationship(snap: Snapshot, rel: Relationship, ghost base: set<Decl>)
      requires Valid() && OneDatabase(snap)
      requires errors == 0 ==> base <= log && SchemasKnown(base) && AllLinked(snap, base)
      requires errors == 0 ==> forall d :: d in log && d.TableDecl? ==> d in base
      modifies this
      ensures Valid() && errors >= old(errors)
      ensures errors == 0 ==> log == old(log) + RelationshipDecls(base, [rel])
      ensures errors == 0 <==>
        old(errors) == 0 && RelationshipDecls(base, [rel]) != {} && Admits(old(log), RelationshipDecls(base, [rel]))
    {
      if errors == 0 { OwnerIndexed(snap, base, log, State(), rel); }
      hide Agrees, Tabulates, Fresh, Admits, Distinct;
      ghost var log0 := log;
      var fromTable := if rel.fromTableId in tableById then Some(tableById[rel.fromTableId]) else None;
      if fromTable.None? {
        errors := errors + 1;
        return;
      }
      var t := fromTable.value;
      if t.schemaId !in schemaById {
        errors := errors + 1;
        return;
      }
      var s := schemaById[t.schemaId];
      if errors == 0 {
        RelationshipOwner(snap, base, log, State(), rel);
        ValidDistinct();
      }
      SingleAdmitted(log0, RelationshipDecl(s, t, rel));
      Declare(RelationshipDecl(s, t, rel), true);
    }

    /** Raw column ids as references; an id that is not a column of the expected table is an error. */
    method ResolveColumnRefs(ids: seq<string>, expectedTableId: string) returns (r: Option<seq<Json>>)
      modifies `errors
      ensures r.Some? ==> errors == old(errors) && r.value == RefList(rawToIdentity, ids)
      ensures r.Some? ==> expectedTableId in tableById && HasColumns(tableById[expectedTableId], ids)
      ensures r.None? ==> errors > old(errors)
      ensures expectedTableId in tableById && ColumnsKnown(State(), tableById[expectedTableId]) && HasColumns(tableById[expectedTableId], ids) ==> r.Some?
    {
      if expectedTableId !in tableById {
        errors := errors + 1;
        return None;
      }
      var table := tableById[expectedTableId];
      var tableColumnIds := set c | c in table.columns :: c.id;
      var resolved: seq<Json> := [];
      for i := 0 to |ids|
        invariant errors == old(errors) && |resolved| == i
        invariant forall k :: 0 <= k < i ==> resolved[k] == RefOf(rawToIdentity, ids[k]) && HasColumn(table, ids[k])
      {
        if ids[i] !in columnById || ids[i] !in rawToIdentity || rawToIdentity[ids[i]].kind != ColumnKind {
          assert ColumnsKnown(State(), table) ==> !HasColumn(table, ids[i]);
          errors := errors + 1;
          return None;
        }
        if ids[i] !in tableColumnIds {
          assert !HasColumn(table, ids[i]);
          errors := errors + 1;
          return None;
        }
        resolved := resolved + [IdentityJson(rawToIdentity[ids[i]])];
      }
      assert resolved == RefList(rawToIdentity, ids);
      r := Some(resolved);
    }

    /** Replaces some properties of a registered object. */
    method Overwrite(identity: Identity, changes: Properties)
      requires identity in objects
      modifies `objects
      ensures objects == Overwritten(old(objects), identity, changes)
    {
      var obj := objects[identity];
      objects := objects[identity := ComparableObject(obj.objectIdentity, obj.parentIdentity, obj.properties + changes)];
    }

    /** The dictionaries are complete, the objects of `done` are patched and the references of `done` resolve. */
    ghost predicate Ready(done: set<Decl>)
      reads this
    {
      && done <= log && Agrees(log, State()) && objects.Keys == identityToRaw.Keys
      && (errors == 0 ==> Patched(log, rawToIdentity, objects, done) && forall d :: d in done ==> Resolved(log, d))
    }

    /** The column references of a primary key replace its placeholder. */
    method PatchPrimaryKey(ghost s: Schema, t: Table, pk: PrimaryKey, ghost done: set<Decl>)
      requires Ready(done) && PrimaryKeyDecl(s, t, pk) in log && TableDecl(s, t) in log
      modifies `objects, `errors
      ensures Ready(done + {PrimaryKeyDecl(s, t, pk)}) && errors >= old(errors)
      ensures TablesClosed(log) && Resolved(log, PrimaryKeyDecl(s, t, pk)) ==> errors == old(errors)
    {
      hide Agrees, Patched, HasColumns, IdentityOf, TablesClosed, ColumnsKnown, Resolved;
      PrimaryKeyResolvable(log, State(), s, t, pk);
      ghost var d := PrimaryKeyDecl(s, t, pk);
      RawKnown(log, State(), d);
      TableKnown(log, State(), s, t);
      if pk.id !in rawToIdentity {
        return;
      }
      var pkIdentity := rawToIdentity[pk.id];
      var refs := ResolveColumnRefs(pk.columnIds, t.id);
      if refs.Some? {
        var changes: Properties := map["/column_ids" := Present(Arr(refs.value))];
        if errors == 0 { PatchStep(log, State(), objects, done, d, changes); }
        Overwrite(pkIdentity, changes);
      }
    }

    /** A foreign key's references: its own columns, the referenced table, and columns of that table. */
    method ResolveForeignKey(ghost s: Schema, t: Table, fk: ForeignKey) returns (r: Option<Properties>)
      requires Agrees(log, State()) && TableDecl(s, t) in log
      modifies `errors
      ensures r.None? ==> errors > old(errors)
      ensures r.Some? ==> errors == old(errors)
      ensures r.Some? ==> r.value == References(rawToIdentity, ForeignKeyDecl(s, t, fk)) && Resolved(log, ForeignKeyDecl(s, t, fk))
      ensures TablesClosed(log) && Resolved(log, ForeignKeyDecl(s, t, fk)) ==> r.Some?
    {
      hide Agrees, HasColumns, RefList, TablesClosed, ColumnsKnown, Resolved, RefersTo;
      if TablesClosed(log) && Resolved(log, ForeignKeyDecl(s, t, fk)) {
        ForeignKeyResolvable(log, State(), s, t, fk);
      }
      TableKnown(log, State(), s, t);
      var sourceRefs := ResolveColumnRefs(fk.columnIds, t.id);
      if fk.referencedTableId !in rawToIdentity || rawToIdentity[fk.referencedTableId].kind != TableKind {
        errors := errors + 1;
        return None;
      }
      var refTable := rawToIdentity[fk.referencedTableId];
      if |fk.columnIds| != |fk.referencedColumnIds| {
        errors := errors + 1;
        return None;
      }
      var refColumns := ResolveColumnRefs(fk.referencedColumnIds, fk.referencedTableId);
      if sourceRefs.None? || refColumns.None? {
        return None;
      }
      ghost var s' := TableFound(log, State(), fk.referencedTableId);
      ForeignKeyResolved(log, s, t, fk, s', tableById[fk.referencedTableId]);
      r := Some(map[
        "/column_ids" := Present(Arr(sourceRefs.value)),
        "/referenced_table_id" := Present(IdentityJson(refTable)),
        "/referenced_column_ids" := Present(Arr(refColumns.value))]);
    }

    method PatchForeignKey(ghost s: Schema, t: Table, fk: ForeignKey, ghost done: set<Decl>)
      requires Ready(done) && ForeignKeyDecl(s, t, fk) in log && TableDecl(s, t) in log
      modifies `objects, `errors
      ensures Ready(done + {ForeignKeyDecl(s, t, fk)}) && errors >= old(errors)
      ensures TablesClosed(log) && Resolved(log, ForeignKeyDecl(s, t, fk)) ==> errors == old(errors)
    {
      hide Agrees, Patched, Resolved, References, IdentityOf, TablesClosed;
      ghost var d := ForeignKeyDecl(s, t, fk);
      RawKnown(log, State(), d);
      if fk.id !in rawToIdentity {
        return;
      }
      var fkIdentity := rawToIdentity[fk.id];
      var changes := ResolveForeignKey(s, t, fk);
      if changes.Some? {
        if errors == 0 { PatchStep(log, State(), objects, done, d, changes.value); }
        Overwrite(fkIdentity, changes.value);
      }
    }

    /** A relationship's target table, and its foreign key when it names one that joins the same tables. */
    method ResolveRelationship(ghost s: Schema, ghost t: Table, rel: Relationship) returns (r: Option<Properties>)
      requires Agrees(log, State())
      modifies `errors
      ensures r.None? ==> errors > old(errors)
      ensures r.Some? ==> errors == old(errors)
      ensures r.Some? ==> r.value == References(rawToIdentity, RelationshipDecl(s, t, rel)) && Resolved(log, RelationshipDecl(s, t, rel))
      ensures RelationshipDecl(s, t, rel) in log && OwnersKnown(log) && Resolved(log, RelationshipDecl(s, t, rel)) ==> r.Some?
    {
      hide Agrees, OwnersKnown, Resolved, Joins;
      if RelationshipDecl(s, t, rel) in log && OwnersKnown(log) && Resolved(log, RelationshipDecl(s, t, rel)) {
        RelationshipResolvable(log, State(), s, t, rel);
      }
      if rel.toTableId !in rawToIdentity || rawToIdentity[rel.toTableId].kind != TableKind {
        errors := errors + 1;
        return None;
      }
      ghost var s', t' := TableKindFound(log, State(), rel.toTableId);
      var fkValue := Null;
      if rel.foreignKeyId.Some? {
        var id := rel.foreignKeyId.value;
        if id !in fkById || id !in rawToIdentity || rawToIdentity[id].kind != ForeignKeyKind {
          errors := errors + 1;
          return None;
        }
        var fk := fkById[id];
        if fk.tableId != rel.fromTableId {
          errors := errors + 1;
          return None;
        }
        if fk.referencedTableId != rel.toTableId {
          errors := errors + 1;
          return None;
        }
        ghost var fs, ft := ForeignKeyFound(log, State(), id);
        assert Joins(fk, rel) by { JoinsTables(fk, rel); }
        fkValue := IdentityJson(rawToIdentity[id]);
      }
      if rel.fromTableId !in tableById || tableById[rel.fromTableId].schemaId !in schemaById {
        errors := errors + 1;
        return None;
      }
      RelationshipResolved(log, s, t, rel, s', t');
      r := Some(map[
        "/to_table_id" := Present(IdentityJson(rawToIdentity[rel.toTableId])),
        "/foreign_key_id" := Present(fkValue)]);
    }

    method PatchRelationship(ghost s: Schema, ghost t: Table, rel: Relationship, ghost done: set<Decl>)
      requires Ready(done) && RelationshipDecl(s, t, rel) in log
      modifies `objects, `errors
      ensures Ready(done + {RelationshipDecl(s, t, rel)}) && errors >= old(errors)
      ensures OwnersKnown(log) && Resolved(log, RelationshipDecl(s, t, rel)) ==> errors == old(errors)
    {
      hide Agrees, Patched, Resolved, References, IdentityOf, OwnersKnown;
      ghost var d := RelationshipDecl(s, t, rel);
      RawKnown(log, State(), d);
      if rel.id !in rawToIdentity {
        return;
      }
      var relIdentity := rawToIdentity[rel.id];
      var changes := ResolveRelationship(s, t, rel);
      if changes.Some? {
        if errors == 0 { PatchStep(log, State(), objects, done, d, changes.value); }
        Overwrite(relIdentity, changes.value);
      }
    }

    /** The pass over all tables, in any order. */
    method PatchTables() returns (ghost done: set<Decl>)
      requires Ready({}) && TablesClosed(log)
      modifies `objects, `errors
      ensures Ready(done) && errors >= old(errors)
      ensures forall d :: d in log && (d.PrimaryKeyDecl? || d.ForeignKeyDecl?) ==> d in done
      ensures AllResolved(log) ==> errors == old(errors)
    {
      hide Agrees, Patched, Resolved;
      done := {};
      var rest := tableById.Keys;
      while rest != {}
        invariant Ready(done) && rest <= tableById.Keys && errors >= old(errors)
        invariant AllResolved(log) ==> errors == old(errors)
        invariant forall d :: d in log && (d.PrimaryKeyDecl? || d.ForeignKeyDecl?) && d.t.id !in rest && d.t.id in tableById ==> d in done
      {
        var id :| id in rest;
        var t := tableById[id];
        ghost var s := TableFound(log, State(), id);
        done := PatchTable(s, t, done);
        forall d | d in log && (d.PrimaryKeyDecl? || d.ForeignKeyDecl?) && d.t.id == id ensures d in done {
          TableKnown(log, State(), d.s, d.t);
          SameTable(log, State(), s, d.s, t);
        }
        rest := rest - {id};
      }
      forall d | d in log && (d.PrimaryKeyDecl? || d.ForeignKeyDecl?) ensures d.t.id in tableById {
        TableKnown(log, State(), d.s, d.t);
      }
    }

    method PatchTable(ghost s: Schema, t: Table, ghost done0: set<Decl>) returns (ghost done: set<Decl>)
      requires Ready(done0) && TableDecl(s, t) in log && TablesClosed(log)
      modifies `objects, `errors
      ensures Ready(done) && done == done0 + PrimaryKeyDecls(s, t) + ForeignKeyDecls(s, t, t.foreignKeys)
      ensures errors >= old(errors)
      ensures AllResolved(log) ==> errors == old(errors)
    {
      hide Agrees, Patched, Resolved;
      done := done0;
      if t.primaryKey.Some? {
        PatchPrimaryKey(s, t, t.primaryKey.value, done);
        done := done + {PrimaryKeyDecl(s, t, t.primaryKey.value)};
      }
      ghost var done1 := done;
      for i := 0 to |t.foreignKeys|
        invariant Ready(done) && done == done1 + ForeignKeyDecls(s, t, t.foreignKeys[..i])
        invariant errors >= old(errors)
        invariant AllResolved(log) ==> errors == old(errors)
      {
        assert t.foreignKeys[..i + 1] == t.foreignKeys[..i] + [t.foreignKeys[i]];
        assert t.foreignKeys[i] in t.foreignKeys;
        PatchForeignKey(s, t, t.foreignKeys[i], done);
        done := done + {ForeignKeyDecl(s, t, t.foreignKeys[i])};
      }
      assert t.foreignKeys[..|t.foreignKeys|] == t.foreignKeys;
    }

    method PatchRelationships(rels: seq<Relationship>, ghost done0: set<Decl>) returns (ghost done: set<Decl>)
      requires Ready(done0)
      requires forall rel :: rel in rels ==> exists s, t :: RelationshipDecl(s, t, rel) in log
      modifies `objects, `errors
      ensures Ready(done) && done0 <= done && errors >= old(errors)
      ensures forall d :: d in log && d.RelationshipDecl? && d.rel in rels ==> d in done
      ensures OwnersKnown(log) && AllResolved(log) ==> errors == old(errors)
    {
      hide Agrees, Patched, Resolved, OwnersKnown;
      done := done0;
      for i := 0 to |rels|
        invariant Ready(done) && done0 <= done && errors >= old(errors)
        invariant OwnersKnown(log) && AllResolved(log) ==> errors == old(errors)
        invariant forall d :: d in log && d.RelationshipDecl? && d.rel in rels[..i] ==> d in done
      {
        assert rels[..i + 1] == rels[..i] + [rels[i]] && rels[i] in rels;
        ghost var s, t :| RelationshipDecl(s, t, rels[i]) in log;
        PatchRelationship(s, t, rels[i], done);
        ghost var d := RelationshipDecl(s, t, rels[i]);
        forall e | e in log && e.RelationshipDecl? && e.rel == rels[i] ensures e == d {
          SameRawId(log, State(), d, e);
        }
        done := done + {d};
      }
      assert rels[..|rels|] == rels;
    }
  }

  // ----- the whole projection

  const SCANNER_CONTRACT_VERSION := "1"

  datatype Projected = Projected(objects: map<Identity, ComparableObject>, rawToIdentity: RawIndex, snapshot: Snapshot)

  /** The envelope repeats the names and the system type of the model, and names a scanner. */
  predicate EnvelopeOk(snap: Snapshot)
    requires OneDatabase(snap)
  {
    && snap.sourceName == TheSource(snap).name
    && snap.databaseName == TheDatabase(snap).name
    && snap.systemType == TheSource(snap).systemType
    && snap.scanner != ""
    && snap.systemType != ""
    && snap.contractVersion == SCANNER_CONTRACT_VERSION
  }

  /** `p` holds exactly what `snap` declares, under distinct ids and identities, with every reference resolved. */
  ghost predicate IsProjection(snap: Snapshot, p: Projected) {
    && p.snapshot == snap && OneDatabase(snap) && EnvelopeOk(snap)
    && var log := AllDecls(snap);
    && Distinct(log)
    && Tabulates(log, p.rawToIdentity, RawId, SomeIdentity)
    && (forall d :: d in log ==> Linked(snap, d) && Resolved(log, d))
    && (forall d :: d in log ==> IdentityOf(d) in p.objects && p.objects[IdentityOf(d)] == FinalObject(p.rawToIdentity, d))
    && (forall i :: i in p.objects ==> exists d :: d in log && IdentityOf(d) == i)
  }

  lemma SchemasDeclsSnoc(schemas: seq<Schema>, s: Schema)
    ensures SchemasDecls(schemas + [s]) == SchemasDecls(schemas) + SchemaDecls(s)
  {
    hide SchemaDecls;
  }

  lemma RelationshipDeclsSnoc(base: set<Decl>, rels: seq<Relationship>, rel: Relationship)
    ensures RelationshipDecls(base, rels + [rel]) == RelationshipDecls(base, rels) + RelationshipDecls(base, [rel])
  {
  }

  /** The declarations of the containers are closed: schemas of tables, contents of tables. */
  lemma ContainedClosed(snap: Snapshot)
    requires OneDatabase(snap)
    ensures SchemasKnown(ContainedDecls(snap)) && TablesClosed(ContainedDecls(snap)) && TablesClosed(AllDecls(snap))
    ensures forall d :: d in AllDecls(snap) && d.TableDecl? ==> d in ContainedDecls(snap)
  {
    hide ContainedDecls, TableDecls, SchemasDecls;
    ContainedDeclsMembers(snap);
    forall s, t { TableDeclsMembers(s, t); }
  }

  lemma SchemaNamed(s: Schema, d: Decl)
    requires d in SchemaDecls(s)
    ensures (d.SchemaDecl? || d.TableDecl? || d.ColumnDecl? || d.PrimaryKeyDecl? || d.ForeignKeyDecl?) && d.s == s
  {
    SchemaDeclsMembers(s);
    assert InSchema(s, d);
  }

  lemma SchemasApart(schemas: seq<Schema>, s: Schema)
    ensures SchemasDecls(schemas) !! SchemaDecls(s) <==> s !in schemas
  {
    assert SchemaDecl(s) in SchemaDecls(s);
    hide SchemaDecls;
    forall d | d in SchemasDecls(schemas) && d in SchemaDecls(s) ensures s in schemas {
      var s' :| s' in schemas && d in SchemaDecls(s');
      SchemaNamed(s', d);
      SchemaNamed(s, d);
    }
  }

  lemma SchemasSnoc(snap: Snapshot, log: set<Decl>, schemas: seq<Schema>, s: Schema)
    requires OneDatabase(snap)
    ensures var a, b := SchemasDecls(schemas), SchemaDecls(s);
      && (AllLinked(snap, SchemasDecls(schemas + [s])) <==> AllLinked(snap, a) && AllLinked(snap, b))
      && (Admits(log, a) && Admits(log + a, b) && SchemasListed(schemas) && TablesListed(s.tables)
        <==> Admits(log, SchemasDecls(schemas + [s])) && SchemasListed(schemas + [s]))
  {
    hide Linked, Admits, SchemaDecls, TablesListed, NoRepeats;
    var a, b := SchemasDecls(schemas), SchemaDecls(s);
    SchemasDeclsSnoc(schemas, s);
    AdmitParts(log, a, b);
    NoRepeatsSnoc(schemas, s);
    assert a !! b <==> s !in schemas by { SchemasApart(schemas, s); }
  }

  ghost function Roots(snap: Snapshot): set<Decl>
    requires OneDatabase(snap)
  {
    {DataSourceDecl(TheSource(snap)), DatabaseDecl(TheDatabase(snap))}
  }

  /** The two roots come first: the database links to the data source and has a raw id of its own. */
  lemma RootsAdmitted(snap: Snapshot)
    requires OneDatabase(snap)
    ensures var ds, db := TheSource(snap), TheDatabase(snap);
      && (AllLinked(snap, Roots(snap)) <==> db.datasourceId == ds.id)
      && Fresh({}, DataSourceDecl(ds)) && {} + {DataSourceDecl(ds)} == {DataSourceDecl(ds)}
      && {DataSourceDecl(ds)} + {DatabaseDecl(db)} == Roots(snap)
      && (Fresh({DataSourceDecl(ds)}, DatabaseDecl(db)) <==> Admits({}, Roots(snap)))
  {
    var ds, db := DataSourceDecl(TheSource(snap)), DatabaseDecl(TheDatabase(snap));
    assert Linked(snap, db) <==> TheDatabase(snap).datasourceId == TheSource(snap).id;
    assert Linked(snap, ds);
    assert ds in Roots(snap) && db in Roots(snap);
    AdmitStep({}, {ds}, db);
    assert {} + {ds} == {ds} && {ds} + {db} == Roots(snap);
  }

  /** Containers are admitted and linked part by part exactly when they are as a whole. */
  lemma ContainersAdmitted(snap: Snapshot)
    requires OneDatabase(snap)
    ensures ContainedDecls(snap) == Roots(snap) + SchemasDecls(TheDatabase(snap).schemas)
    ensures var b := SchemasDecls(TheDatabase(snap).schemas);
      && (Admits({}, Roots(snap)) && Admits(Roots(snap), b) <==> Distinct(ContainedDecls(snap)))
      && (AllLinked(snap, ContainedDecls(snap)) <==> AllLinked(snap, Roots(snap)) && AllLinked(snap, b))
  {
    hide Linked, RawId, IdentityOf, SchemaDecls;
    var b := SchemasDecls(TheDatabase(snap).schemas);
    assert Roots(snap) !! b by { SchemasHaveNoRoots(TheDatabase(snap).schemas); }
    hide SchemasDecls;
    AdmitParts({}, Roots(snap), b);
    assert {} + Roots(snap) == Roots(snap) && {} + ContainedDecls(snap) == ContainedDecls(snap);
  }

  lemma SchemasHaveNoRoots(schemas: seq<Schema>)
    ensures forall d :: d in SchemasDecls(schemas) ==> !d.DataSourceDecl? && !d.DatabaseDecl? && !d.RelationshipDecl?
  {
  }

  lemma NoSchemas(log: set<Decl>)
    ensures SchemasDecls([]) == {} && log + SchemasDecls([]) == log && SchemasListed([])
    ensures Distinct(log) ==> Admits(log, SchemasDecls([]))
  {
    hide RawId, IdentityOf;
  }

  method DeclareContainers(p: Projector, snap: Snapshot)
    requires OneDatabase(snap) && p.Valid() && p.errors == 0 && p.log == {}
    modifies p
    ensures p.Valid()
    ensures p.errors == 0 ==> p.log == ContainedDecls(snap)
    ensures p.errors == 0 <==>
      Distinct(ContainedDecls(snap)) && AllLinked(snap, ContainedDecls(snap)) && SchemasListed(TheDatabase(snap).schemas)
  {
    hide Agrees, Tabulates, SchemasDecls, SchemaDecls, TableDecls, Fresh, Admits, Distinct, AllLinked, NoRepeats, SchemasListed, TablesListed, ContainedDecls, Roots;
    var ds, db := TheSource(snap), TheDatabase(snap);
    ghost var roots := Roots(snap);
    RootsAdmitted(snap);
    p.Declare(DataSourceDecl(ds), true);
    p.Declare(DatabaseDecl(db), db.datasourceId == ds.id);
    NoSchemas(roots);
    NothingLinked(snap);
    p.ValidDistinct();
    for i := 0 to |db.schemas|
      invariant p.Valid()
      invariant p.errors == 0 ==> p.log == roots + SchemasDecls(db.schemas[..i])
      invariant p.errors == 0 <==>
        && Admits({}, roots) && AllLinked(snap, roots) && Admits(roots, SchemasDecls(db.schemas[..i]))
        && AllLinked(snap, SchemasDecls(db.schemas[..i])) && SchemasListed(db.schemas[..i])
    {
      assert db.schemas[..i + 1] == db.schemas[..i] + [db.schemas[i]];
      SchemasSnoc(snap, roots, db.schemas[..i], db.schemas[i]);
      SchemasDeclsSnoc(db.schemas[..i], db.schemas[i]);
      assert roots + SchemasDecls(db.schemas[..i + 1]) == roots + SchemasDecls(db.schemas[..i]) + SchemaDecls(db.schemas[i]);
      p.DeclareSchema(snap, db.schemas[i]);
    }
    assert db.schemas[..|db.schemas|] == db.schemas;
    ContainersAdmitted(snap);
  }

  lemma NothingLinked(snap: Snapshot)
    requires OneDatabase(snap)
    ensures AllLinked(snap, SchemasDecls([]))
  {
  }

  /** Every relationship starts from a declared table. */
  ghost predicate Owned(base: set<Decl>, rels: seq<Relationship>) {
    forall rel :: rel in rels ==> RelationshipDecls(base, [rel]) != {}
  }

  lemma RelationshipsApart(base: set<Decl>, rels: seq<Relationship>, rel: Relationship)
    requires RelationshipDecls(base, [rel]) != {}
    ensures RelationshipDecls(base, rels) !! RelationshipDecls(base, [rel]) <==> rel !in rels
  {
    var d :| d in RelationshipDecls(base, [rel]);
    assert d.rel == rel;
    if rel in rels {
      assert d in RelationshipDecls(base, rels);
    }
  }

  lemma RelationshipsSnoc(base: set<Decl>, rels: seq<Relationship>, rel: Relationship)
    ensures var a, b := RelationshipDecls(base, rels), RelationshipDecls(base, [rel]);
      Admits(base, a) && Admits(base + a, b) && Owned(base, rels) && NoRepeats(rels) && b != {} <==>
        Admits(base, RelationshipDecls(base, rels + [rel])) && Owned(base, rels + [rel]) && NoRepeats(rels + [rel])
  {
    hide Admits, RelationshipDecls, NoRepeats;
    var a, b := RelationshipDecls(base, rels), RelationshipDecls(base, [rel]);
    RelationshipDeclsSnoc(base, rels, rel);
    AdmitParts(base, a, b);
    NoRepeatsSnoc(rels, rel);
    if b != {} {
      RelationshipsApart(base, rels, rel);
    }
    assert rel in rels + [rel];
  }

  /** Everything declared has its own raw id and identity and is linked to its container; nothing is listed twice. */
  ghost predicate Declarable(snap: Snapshot)
    requires OneDatabase(snap)
  {
    var rels := snap.model.relationships;
    && Distinct(AllDecls(snap)) && AllLinked(snap, AllDecls(snap))
    && SchemasListed(TheDatabase(snap).schemas) && NoRepeats(rels) && Owned(ContainedDecls(snap), rels)
  }

  lemma DeclaredTogether(snap: Snapshot)
    requires OneDatabase(snap)
    ensures var base, rels := ContainedDecls(snap), snap.model.relationships;
      Declarable(snap) <==>
        && Distinct(base) && AllLinked(snap, base) && SchemasListed(TheDatabase(snap).schemas)
        && Admits(base, RelationshipDecls(base, rels)) && Owned(base, rels) && NoRepeats(rels)
  {
    hide Linked, RawId, IdentityOf, NoRepeats, SchemasListed, Owned;
    var base, rels := ContainedDecls(snap), snap.model.relationships;
    RelationshipsLinked(snap, base, rels);
    assert base !! RelationshipDecls(base, rels) by { SchemasHaveNoRoots(TheDatabase(snap).schemas); hide SchemasDecls; }
  }

  lemma NoRelationships(base: set<Decl>)
    ensures RelationshipDecls(base, []) == {} && base + RelationshipDecls(base, []) == base
    ensures Distinct(base) ==> Admits(base, RelationshipDecls(base, []))
    ensures Owned(base, []) && NoRepeats<Relationship>([])
  {
    hide RawId, IdentityOf;
  }

  /** The first pass: everything is declared, in the order of the nested loops. */
  method DeclareAll(p: Projector, snap: Snapshot)
    requires OneDatabase(snap) && p.Valid() && p.errors == 0 && p.log == {}
    modifies p
    ensures p.Valid()
    ensures p.errors == 0 ==> p.log == AllDecls(snap)
    ensures p.errors == 0 <==> Declarable(snap)
  {
    hide Agrees, Tabulates, ContainedDecls, TableDecls, TablesClosed, Linked, RelationshipDecls, Admits, Distinct, NoRepeats, SchemasListed, Declarable, Owned, SchemasKnown;
    DeclareContainers(p, snap);
    ghost var base := ContainedDecls(snap);
    ContainedClosed(snap);
    var rels := snap.model.relationships;
    NoRelationships(base);
    for i := 0 to |rels|
      invariant p.Valid()
      invariant p.errors == 0 ==> p.log == base + RelationshipDecls(base, rels[..i])
      invariant p.errors == 0 <==>
        && Distinct(base) && AllLinked(snap, base) && SchemasListed(TheDatabase(snap).schemas)
        && Admits(base, RelationshipDecls(base, rels[..i])) && Owned(base, rels[..i]) && NoRepeats(rels[..i])
    {
      assert rels[..i + 1] == rels[..i] + [rels[i]];
      RelationshipDeclsSnoc(base, rels[..i], rels[i]);
      RelationshipsSnoc(base, rels[..i], rels[i]);
      RelationshipsOnly(base, rels[..i]);
      assert base + RelationshipDecls(base, rels[..i + 1]) == base + RelationshipDecls(base, rels[..i]) + RelationshipDecls(base, [rels[i]]);
      p.DeclareRelationship(snap, rels[i], base);
    }
    assert rels[..|rels|] == rels;
    DeclaredTogether(snap);
  }

  lemma RelationshipsOnly(base: set<Decl>, rels: seq<Relationship>)
    ensures forall d :: d in RelationshipDecls(base, rels) ==> d.RelationshipDecl?
  {
  }

  lemma RelationshipsLinked(snap: Snapshot, base: set<Decl>, rels: seq<Relationship>)
    requires OneDatabase(snap)
    ensures AllLinked(snap, RelationshipDecls(base, rels))
  {
  }

  /** Exactly the snapshots that can be projected. */
  ghost predicate Projectable(snap: Snapshot) {
    OneDatabase(snap) && EnvelopeOk(snap) && Declarable(snap) && AllResolved(AllDecls(snap))
  }

  method ProjectSnapshot(snap: Snapshot) returns (r: Result<Projected>)
    requires ModelOk(snap.model)
    ensures r.Success? <==> Projectable(snap)
    ensures r.Success? ==> IsProjection(snap, r.value)
  {
    hide Agrees, Tabulates, Patched, Resolved, Linked, EnvelopeOk, AllDecls, Distinct, FinalObject, ModelOk, TablesClosed, RawId, IdentityOf, ObjectOf, ContainedDecls, Declarable, OwnersKnown;
    if !OneDatabase(snap) || !EnvelopeOk(snap) {
      return Failure;
    }
    var p := new Projector();
    DeclareAll(p, snap);
    if p.errors > 0 {
      return Failure;
    }
    ContainedClosed(snap);
    DeclarableFacts(snap);
    FirstPassDone(p.log, p.State(), p.objects);
    ghost var done := p.PatchTables();
    done := p.PatchRelationships(snap.model.relationships, done);
    if p.errors > 0 {
      return Failure;
    }
    RelationshipsListed(snap);
    SecondPassDone(p.log, p.State(), p.objects, done);
    ResolvedWithoutReferences(p.log);
    r := Success(Projected(p.objects, p.rawToIdentity, snap));
  }

  /** What the second pass needs of the first. */
  lemma DeclarableFacts(snap: Snapshot)
    requires OneDatabase(snap) && Declarable(snap)
    ensures AllLinked(snap, AllDecls(snap)) && OwnersKnown(AllDecls(snap))
    ensures forall rel :: rel in snap.model.relationships ==> exists s, t :: RelationshipDecl(s, t, rel) in AllDecls(snap)
  {
    hide Distinct, ContainedDecls, SchemasListed, NoRepeats;
    ContainedClosed(snap);
    var base, log := ContainedDecls(snap), AllDecls(snap);
    forall rel | rel in snap.model.relationships ensures exists s, t :: RelationshipDecl(s, t, rel) in log {
      var r :| r in RelationshipDecls(base, [rel]);
      var d :| d in base && d.TableDecl? && rel.fromTableId == d.t.id;
      assert RelationshipDecl(d.s, d.t, rel) in log;
    }
    forall d | d in log && d.RelationshipDecl?
      ensures TableDecl(d.s, d.t) in log && SchemaDecl(d.s) in log && d.rel.fromTableId == d.t.id && d.t.schemaId == d.s.id
    {
      OwnerDeclared(snap, d);
      assert Linked(snap, TableDecl(d.s, d.t));
    }
  }

  lemma OwnerDeclared(snap: Snapshot, d: Decl)
    requires OneDatabase(snap) && d in AllDecls(snap) && d.RelationshipDecl?
    ensures TableDecl(d.s, d.t) in ContainedDecls(snap) && d.rel.fromTableId == d.t.id
  {
    hide AllDecls, ContainedDecls;
    AllDeclsMembers(snap);
    ContainedDeclsMembers(snap);
  }

  lemma ResolvedWithoutReferences(log: set<Decl>)
    ensures forall d :: d in log && !d.PrimaryKeyDecl? && !d.ForeignKeyDecl? && !d.RelationshipDecl? ==> Resolved(log, d)
  {
  }

  lemma RelationshipsListed(snap: Snapshot)
    requires OneDatabase(snap)
    ensures forall d :: d in AllDecls(snap) && d.RelationshipDecl? ==> d.rel in snap.model.relationships
  {
    AllDeclsMembers(snap);
  }

  lemma StillPlaceholder(log: set<Decl>, x: Tables, objects: map<Identity, ComparableObject>, d: Decl)
    requires Tabulates(log, x.back, IdentityOf, SomeRawId) && Tabulates(log, objects, IdentityOf, SomeObject) && d in log
    ensures IdentityOf(d) in objects && objects[IdentityOf(d)] == ObjectOf(d) && IdentityOf(d) in x.back
  {
    hide IdentityOf, RawId, ObjectOf;
    assert SomeObject(d).Some? && SomeRawId(d).Some?;
  }

  lemma SameKeys(log: set<Decl>, x: Tables, objects: map<Identity, ComparableObject>)
    requires Tabulates(log, x.back, IdentityOf, SomeRawId) && Tabulates(log, objects, IdentityOf, SomeObject)
    ensures objects.Keys == x.back.Keys
  {
    hide IdentityOf, Tabulates, SomeObject, SomeRawId;
    forall i ensures i in objects <==> i in x.back {
      if i in objects {
        var d := Tabulated(log, objects, IdentityOf, SomeObject, i);
        StillPlaceholder(log, x, objects, d);
      }
      if i in x.back {
        var d := Tabulated(log, x.back, IdentityOf, SomeRawId, i);
        StillPlaceholder(log, x, objects, d);
      }
    }
  }

  /** After the first pass every object still carries its placeholders. */
  lemma FirstPassDone(log: set<Decl>, x: Tables, objects: map<Identity, ComparableObject>)
    requires Agrees(log, x) && Tabulates(log, objects, IdentityOf, SomeObject)
    ensures objects.Keys == x.back.Keys && Patched(log, x.raw, objects, {})
  {
    hide IdentityOf, Tabulates, SomeObject, SomeRawId, ObjectOf, Distinct;
    SameKeys(log, x, objects);
    forall d | d in log ensures IdentityOf(d) in objects && objects[IdentityOf(d)] == ObjectOf(d) {
      StillPlaceholder(log, x, objects, d);
    }
  }

  /** After the second pass every object is final, and every identity belongs to a declaration. */
  lemma SecondPassDone(log: set<Decl>, x: Tables, objects: map<Identity, ComparableObject>, done: set<Decl>)
    requires Agrees(log, x) && Patched(log, x.raw, objects, done) && objects.Keys == x.back.Keys
    requires forall d :: d in log && (d.PrimaryKeyDecl? || d.ForeignKeyDecl? || d.RelationshipDecl?) ==> d in done
    ensures Distinct(log) && Tabulates(log, x.raw, RawId, SomeIdentity)
    ensures forall d :: d in log ==> IdentityOf(d) in objects && objects[IdentityOf(d)] == FinalObject(x.raw, d)
    ensures forall i :: i in objects ==> exists d :: d in log && IdentityOf(d) == i
  {
    hide IdentityOf, RawId, PropsOf, Tabulates, Distinct;
    forall d | d in log ensures IdentityOf(d) in objects && objects[IdentityOf(d)] == FinalObject(x.raw, d) {
      if d !in done {
        assert References(x.raw, d) == map[];
        assert PropsOf(d) + References(x.raw, d) == PropsOf(d);
      }
    }
    forall i | i in objects ensures exists d :: d in log && IdentityOf(d) == i {
      var d := Tabulated(log, x.back, IdentityOf, SomeRawId, i);
    }
  }
}
