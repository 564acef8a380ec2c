/** Structured identities of the compared objects: kinds, paths, parents and canonical text. */
module Identities {
  import opened Outcomes
  import opened Sorting
  import opened JsonText
  import opened JsonOrder

  datatype Kind =
    | DataSourceKind | DatabaseKind | SchemaKind | TableKind
    | ColumnKind | PrimaryKeyKind | ForeignKeyKind | RelationshipKind

  datatype Identity = Identity(kind: Kind, path: seq<string>)

  function Arity(k: Kind): nat {
    match k
    case DataSourceKind => 0
    case DatabaseKind => 0
    case SchemaKind => 1
    case TableKind => 2
    case _ => 3
  }

  /** The constructor's checks: one non-empty segment for each level. */
  predicate ValidIdentity(i: Identity) {
    |i.path| == Arity(i.kind) && "" !in i.path
  }

  function KindText(k: Kind): string {
    match k
    case DataSourceKind => "data_source"
    case DatabaseKind => "database"
    case SchemaKind => "schema"
    case TableKind => "table"
    case ColumnKind => "column"
    case PrimaryKeyKind => "primary_key"
    case ForeignKeyKind => "foreign_key"
    case RelationshipKind => "relationship"
  }

  function ParseKind(text: string): Option<Kind> {
    if text == "data_source" then Some(DataSourceKind)
    else if text == "database" then Some(DatabaseKind)
    else if text == "schema" then Some(SchemaKind)
    else if text == "table" then Some(TableKind)
    else if text == "column" then Some(ColumnKind)
    else if text == "primary_key" then Some(PrimaryKeyKind)
    else if text == "foreign_key" then Some(ForeignKeyKind)
    else if text == "relationship" then Some(RelationshipKind)
    else None
  }

  function Strings(path: seq<string>): (r: seq<Json>)
    ensures |r| == |path| && forall i :: 0 <= i < |r| ==> r[i] == Str(path[i])
  {
    if path == [] then [] else [Str(path[0])] + Strings(path[1..])
  }

  function TextItems(items: seq<Json>): (r: Option<seq<string>>)
    ensures r.Some? ==> |r.value| == |items| && forall i :: 0 <= i < |items| ==> items[i] == Str(r.value[i])
    ensures r.None? ==> exists i :: 0 <= i < |items| && !items[i].Str?
  {
    if items == [] then Some([])
    else if !items[0].Str? then None
    else match TextItems(items[1..])
      case None => None
      case Some(rest) => Some([items[0].s] + rest)
  }

  /** The dictionary form of an identity. */
  function IdentityJson(i: Identity): Json {
    Obj([Member("kind", Str(KindText(i.kind))), Member("path", Arr(Strings(i.path)))])
  }

  /** Reads an identity back from untrusted JSON: exactly the two members, then the constructor's checks. */
  function ParseIdentity(j: Json): (r: Option<Identity>)
    ensures r.Some? ==> ValidIdentity(r.value)
  {
    if !j.Obj? || |j.members| != 2 || j.members[0].name != "kind" || j.members[1].name != "path" then None
    else if !j.members[0].value.Str? || !j.members[1].value.Arr? then None
    else match (ParseKind(j.members[0].value.s), TextItems(j.members[1].value.items))
      case (Some(k), Some(path)) => if ValidIdentity(Identity(k, path)) then Some(Identity(k, path)) else None
      case _ => None
  }

  /** Every identity the constructor accepts survives the dictionary form. */
  lemma ParseIdentityJson(i: Identity)
    ensures ParseIdentity(IdentityJson(i)) == if ValidIdentity(i) then Some(i) else None
  {
    var path := TextItems(Strings(i.path));
    assert path.Some?;
    assert path.value == i.path;
  }

  /** A JSON value that reads as an identity is the dictionary form of it. */
  lemma ParsedIdentity(j: Json)
    ensures ParseIdentity(j).Some? ==> j == IdentityJson(ParseIdentity(j).value)
  {
    if ParseIdentity(j).Some? {
      var i := ParseIdentity(j).value;
      var items := j.members[1].value.items;
      forall k | 0 <= k < |items| ensures items[k] == Strings(i.path)[k] {
      }
      assert items == Strings(i.path);
      assert j.members == IdentityJson(i).members;
    }
  }

  lemma IdentityJsonInjective(a: Identity, b: Identity)
    requires IdentityJson(a) == IdentityJson(b)
    ensures a == b
  {
  }

  function IdentityKey(i: Identity): SortKey { [Render(IdentityJson(i))] }

  lemma IdentityKeyInjective()
    ensures forall a, b :: IdentityKey(a) == IdentityKey(b) ==> a == b
  {
    forall a, b | IdentityKey(a) == IdentityKey(b) ensures a == b {
      assert IdentityKey(a)[0] == IdentityKey(b)[0];
      RenderInjective(IdentityJson(a), IdentityJson(b));
      IdentityJsonInjective(a, b);
    }
  }

  /** The parent an identity must have, read off its own path. */
  function ExpectedParent(i: Identity): Option<Identity>
    requires ValidIdentity(i)
  {
    match i.kind
    case DataSourceKind => None
    case DatabaseKind => Some(Identity(DataSourceKind, []))
    case SchemaKind => Some(Identity(DatabaseKind, []))
    case TableKind => Some(Identity(SchemaKind, i.path[..1]))
    case _ => Some(Identity(TableKind, i.path[..2]))
  }

  /** The list of ancestors that the hierarchy check walks. */
  method CollectIdentityAncestors(i: Identity) returns (r: seq<Identity>)
    requires ValidIdentity(i)
    ensures r == IdentityAncestors(i)
  {
    r := [];
    if i.kind in {ColumnKind, PrimaryKeyKind, ForeignKeyKind, RelationshipKind} {
      r := r + [Identity(TableKind, i.path[..2])];
    }
    if i.kind in {ColumnKind, PrimaryKeyKind, ForeignKeyKind, RelationshipKind, TableKind} {
      r := r + [Identity(SchemaKind, [i.path[0]])];
    }
    if i.kind == DatabaseKind {
      r := r + [Identity(DataSourceKind, [])];
    } else if i.kind != DataSourceKind {
      r := r + [Identity(DatabaseKind, [])];
      r := r + [Identity(DataSourceKind, [])];
    }
    ParentChain(i);
  }

  function Height(k: Kind): nat {
    match k
    case DataSourceKind => 0
    case DatabaseKind => 1
    case SchemaKind => 2
    case TableKind => 3
    case _ => 4
  }

  /** The chain of expected parents, nearest first. */
  function IdentityAncestors(i: Identity): seq<Identity>
    requires ValidIdentity(i)
    decreases Height(i.kind)
  {
    match ExpectedParent(i)
    case None => []
    case Some(p) => [p] + IdentityAncestors(p)
  }

  lemma ParentChain(i: Identity)
    requires ValidIdentity(i)
    ensures IdentityAncestors(i) ==
      match i.kind
      case DataSourceKind => []
      case DatabaseKind => [Identity(DataSourceKind, [])]
      case SchemaKind => [Identity(DatabaseKind, []), Identity(DataSourceKind, [])]
      case TableKind => [Identity(SchemaKind, [i.path[0]]), Identity(DatabaseKind, []), Identity(DataSourceKind, [])]
      case _ => [Identity(TableKind, i.path[..2]), Identity(SchemaKind, [i.path[0]]), Identity(DatabaseKind, []), Identity(DataSourceKind, [])]
  {
    var ds, db := Identity(DataSourceKind, []), Identity(DatabaseKind, []);
    assert IdentityAncestors(ds) == [];
    assert IdentityAncestors(db) == [ds];
    if i.kind !in {DataSourceKind, DatabaseKind} {
      var sch := Identity(SchemaKind, [i.path[0]]);
      assert IdentityAncestors(sch) == [db, ds];
      if i.kind != SchemaKind {
        var tbl := Identity(TableKind, i.path[..2]);
        assert tbl.path[..1] == [i.path[0]] && i.path[..1] == [i.path[0]];
        assert IdentityAncestors(tbl) == [sch, db, ds];
      } else {
        assert i.path == [i.path[0]];
      }
    }
  }
}
