/** Which property pointers and values a comparison may contain, by kind of object. */
module PropertyChecks {
  import opened Outcomes
  import opened JsonText
  import opened Pointers
  import opened Identities
  import opened Snapshots
  import opened Declarations

  const TECH_PREFIX := "/" + TECH + "/"

  predicate IsTechPointer(pointer: string) { TECH_PREFIX <= pointer }

  predicate PathCompatible(k: Kind, pointer: string) {
    if IsTechPointer(pointer) then
      && HasTech(k) && Parse(pointer).Some?
      && |Parse(pointer).value| == 2 && Parse(pointer).value[0] == TECH
    else pointer in FixedPaths(k)
  }

  /** Which pointers a property change may have: system types never differ, names only at the roots. */
  predicate ChangeCompatible(k: Kind, pointer: string) {
    && !(k == DataSourceKind && pointer == "/system_type")
    && !(pointer == "/name" && k != DataSourceKind && k != DatabaseKind)
    && PathCompatible(k, pointer)
  }

  predicate NonBlankText(value: Json) {
    value.Str? && NonBlank(value.s)
  }

  predicate ValidOwnership(value: Json) {
    value == Null || (
      && value.Obj? && |value.members| == 2
      && value.members[0].name == "owner_name" && value.members[1].name == "owner_type"
      && NonBlankText(value.members[0].value) && NonBlankText(value.members[1].value))
  }

  /** A reference to an object of kind `k`. */
  predicate IsRef(value: Json, k: Kind) {
    ParseIdentity(value).Some? && ParseIdentity(value).value.kind == k
  }

  /** The schema and table of a column reference. */
  function TablePrefix(value: Json): seq<string>
    requires IsRef(value, ColumnKind)
  {
    ParseIdentity(value).value.path[..2]
  }

  /** A non-empty list of columns, all of the required table, or all of one table. */
  predicate ValidColumnList(value: Json, required: Option<seq<string>>, sameTable: bool) {
    && value.Arr? && value.items != []
    && (forall i :: 0 <= i < |value.items| ==> IsRef(value.items[i], ColumnKind))
    && (required.Some? ==> forall i :: 0 <= i < |value.items| ==> TablePrefix(value.items[i]) == required.value)
    && (sameTable ==> forall i, j :: 0 <= i < |value.items| && 0 <= j < |value.items| ==>
          TablePrefix(value.items[i]) == TablePrefix(value.items[j]))
  }

  /** The loop over a column list, with the prefix it has settled on. */
  method CheckColumnList(value: Json, required: Option<seq<string>>, sameTable: bool) returns (ok: bool)
    ensures ok <==> ValidColumnList(value, required, sameTable)
  {
    if !value.Arr? || |value.items| == 0 {
      return false;
    }
    var items := value.items;
    var sharedPrefix: Option<seq<string>> := None;
    for i := 0 to |items|
      invariant forall k :: 0 <= k < i ==> IsRef(items[k], ColumnKind)
      invariant required.Some? ==> forall k :: 0 <= k < i ==> TablePrefix(items[k]) == required.value
      invariant sameTable ==> forall k :: 0 <= k < i ==> sharedPrefix == Some(TablePrefix(items[k]))
      invariant sameTable && i == 0 ==> sharedPrefix.None?
    {
      var identity := ParseIdentity(items[i]);
      if identity.None? || identity.value.kind != ColumnKind {
        return false;
      }
      var prefix := identity.value.path[..2];
      if required.Some? && prefix != required.value {
        return false;
      }
      if sameTable {
        if sharedPrefix.None? {
          sharedPrefix := Some(prefix);
        } else if prefix != sharedPrefix.value {
          assert TablePrefix(items[0]) != TablePrefix(items[i]);
          return false;
        }
      }
    }
    ok := true;
  }

  predicate ValidForeignKeyRef(value: Json, prefix: seq<string>) {
    value == Null || (IsRef(value, ForeignKeyKind) && ParseIdentity(value).value.path[..2] == prefix)
  }

  /** What the value of a fixed property looks like on an object with identity `i`. */
  predicate ValidFixedValue(pointer: string, value: Json, i: Identity)
    requires ValidIdentity(i)
  {
    var prefix := if |i.path| >= 2 then i.path[..2] else i.path;
    if pointer == "/name" then NonBlankText(value)
    else if pointer == "/description" then true
    else if pointer == "/ownership" then ValidOwnership(value)
    else if pointer == "/data_type" then NonBlankText(value)
    else if pointer == "/ordinal_position" then value.Int? && value.n >= 1
    else if pointer == "/nullable" then value.Bool?
    else if pointer == "/column_ids" then ValidColumnList(value, Some(prefix), false)
    else if pointer == "/referenced_table_id" then IsRef(value, TableKind)
    else if pointer == "/referenced_column_ids" then ValidColumnList(value, None, true)
    else if pointer == "/to_table_id" then IsRef(value, TableKind)
    else if pointer == "/foreign_key_id" then ValidForeignKeyRef(value, prefix)
    else false
  }

  /** One side of a property change: absent only for technical attributes. */
  predicate SideCompatible(i: Identity, pointer: string, side: Side)
    requires ValidIdentity(i)
  {
    match side
    case Missing => IsTechPointer(pointer)
    case Present(value) =>
      IsTechPointer(pointer) || (ChangeCompatible(i.kind, pointer) && ValidFixedValue(pointer, value, i))
  }

  // ----- property changes

  datatype PropertyChange = PropertyChange(property: string, baseline: Side, candidate: Side)

  /** The first change of a property, if there is one. */
  function FindChange(changes: seq<PropertyChange>, pointer: string): (r: Option<PropertyChange>)
    ensures r.Some? ==> r.value in changes && r.value.property == pointer
    ensures r.None? ==> forall c :: c in changes ==> c.property != pointer
  {
    if changes == [] then None
    else if changes[0].property == pointer then Some(changes[0])
    else FindChange(changes[1..], pointer)
  }

  /** On one side, the referenced columns belong to the referenced table. */
  predicate SideCoherent(table: Side, columns: Side) {
    table.Present? && columns.Present? ==>
      && ParseIdentity(table.value).Some? && columns.value.Arr?
      && forall i :: 0 <= i < |columns.value.items| ==>
           var c := ParseIdentity(columns.value.items[i]);
           c.Some? && FirstTwo(c.value.path) == ParseIdentity(table.value).value.path
  }

  function FirstTwo(path: seq<string>): seq<string> {
    if |path| <= 2 then path else path[..2]
  }

  predicate ForeignKeyCoherent(changes: seq<PropertyChange>) {
    var t, c := FindChange(changes, "/referenced_table_id"), FindChange(changes, "/referenced_column_ids");
    t.Some? && c.Some? ==>
      SideCoherent(t.value.baseline, c.value.baseline) && SideCoherent(t.value.candidate, c.value.candidate)
  }

  // ----- technical pointers

  lemma {:induction false} EncodePlain(s: string)
    requires '~' !in s && '/' !in s
    ensures Encode(s) == s
  {
    if s != "" {
      EncodeCons(s);
      EncodePlain(s[1..]);
      assert s == [s[0]] + s[1..];
    }
  }

  lemma JoinTwo(a: string, b: string)
    ensures Join([a, b]) == a + "/" + b
  {
    assert [a, b][1..] == [b];
  }

  lemma EncodeTwo(a: string, b: string)
    ensures EncodeAll([a, b]) == [Encode(a), Encode(b)]
  {
    hide Encode;
    assert [a, b][1..] == [b] && [b][1..] == [];
  }

  lemma Slashes(t: string, e: string)
    ensures "/" + (t + "/" + e) == "/" + t + "/" + e
  {
  }

  lemma PrintTwo(t: string, key: string)
    requires '~' !in t && '/' !in t
    ensures Print([t, key]) == "/" + t + "/" + Encode(key)
  {
    EncodePlain(t);
    EncodeTwo(t, key);
    JoinTwo(t, Encode(key));
    Slashes(t, Encode(key));
  }

  lemma TechPointerText(key: string)
    ensures TechPointer(key) == TECH_PREFIX + Encode(key)
    ensures Parse(TechPointer(key)) == Some([TECH, key])
  {
    hide Encode, Parse, Print;
    PrintTwo(TECH, key);
    ParsePrinted([TECH, key]);
  }

  /** A technical pointer is recognized on every kind that has technical attributes. */
  lemma TechPointerCompatible(key: string)
    ensures IsTechPointer(TechPointer(key))
    ensures Parse(TechPointer(key)) == Some([TECH, key])
    ensures forall k :: HasTech(k) ==> ChangeCompatible(k, TechPointer(key))
  {
    TechPointerText(key);
    hide Encode, Parse, TechPointer;
    assert !IsTechPointer("/name") && !IsTechPointer("/system_type");
  }
}
