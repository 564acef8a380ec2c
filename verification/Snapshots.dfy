/** The domain model of one scanned source, and the snapshot that carries it. */
module Snapshots {
  import opened Outcomes
  import opened JsonText

  datatype Ownership = Ownership(ownerName: string, ownerType: string)

  datatype Column = Column(id: string, name: string, dataType: string, ordinalPosition: int, nullable: bool,
    description: Json, technicalAttributes: map<string, Json>)

  datatype PrimaryKey = PrimaryKey(id: string, name: string, tableId: string, columnIds: seq<string>)

  datatype ForeignKey = ForeignKey(id: string, name: string, tableId: string, columnIds: seq<string>,
    referencedTableId: string, referencedColumnIds: seq<string>)

  datatype Relationship = Relationship(id: string, name: string, fromTableId: string, toTableId: string,
    foreignKeyId: Option<string>, description: Json)

  datatype Table = Table(id: string, name: string, schemaId: string, columns: seq<Column>,
    primaryKey: Option<PrimaryKey>, foreignKeys: seq<ForeignKey>, description: Json,
    ownership: Option<Ownership>, technicalAttributes: map<string, Json>)

  datatype Schema = Schema(id: string, name: string, databaseId: string, tables: seq<Table>,
    description: Json, ownership: Option<Ownership>)

  datatype Database = Database(id: string, name: string, datasourceId: string, schemas: seq<Schema>,
    description: Json, ownership: Option<Ownership>)

  datatype DataSource = DataSource(id: string, name: string, systemType: string, databases: seq<Database>,
    description: Json, ownership: Option<Ownership>, technicalAttributes: map<string, Json>)

  datatype Model = Model(dataSources: seq<DataSource>, relationships: seq<Relationship>)

  datatype Snapshot = Snapshot(model: Model, sourceName: string, databaseName: string, systemType: string,
    scanner: string, contractVersion: string)

  /** A content identity stands for the content it was computed from. */
  datatype ContentIdentity<T> = ContentIdentity(content: T)

  /** The white space that `str.strip` removes. */
  predicate IsSpace(c: char) {
    var n := c as int;
    9 <= n <= 13 || 28 <= n <= 32 || n == 0x85 || n == 0xA0 || n == 0x1680 || 0x2000 <= n <= 0x200A
    || n == 0x2028 || n == 0x2029 || n == 0x202F || n == 0x205F || n == 0x3000
  }

  /** `value.strip() != ""`. */
  predicate NonBlank(s: string) {
    exists i :: 0 <= i < |s| && !IsSpace(s[i])
  }

  // ----- the checks of the domain constructors

  predicate OwnershipOk(o: Option<Ownership>) {
    o.Some? ==> NonBlank(o.value.ownerName) && NonBlank(o.value.ownerType)
  }

  predicate ColumnOk(c: Column) {
    NonBlank(c.id) && NonBlank(c.name) && NonBlank(c.dataType) && c.ordinalPosition >= 1
  }

  predicate PrimaryKeyOk(k: PrimaryKey) {
    NonBlank(k.id) && NonBlank(k.name) && NonBlank(k.tableId) && k.columnIds != []
  }

  predicate ForeignKeyOk(k: ForeignKey) {
    && NonBlank(k.id) && NonBlank(k.name) && NonBlank(k.tableId) && NonBlank(k.referencedTableId)
    && k.columnIds != [] && |k.columnIds| == |k.referencedColumnIds|
  }

  predicate TableOk(t: Table) {
    && NonBlank(t.id) && NonBlank(t.name) && NonBlank(t.schemaId) && t.columns != [] && OwnershipOk(t.ownership)
    && (forall c :: c in t.columns ==> ColumnOk(c))
    && (t.primaryKey.Some? ==> PrimaryKeyOk(t.primaryKey.value))
    && (forall k :: k in t.foreignKeys ==> ForeignKeyOk(k))
  }

  predicate SchemaOk(s: Schema) {
    && NonBlank(s.id) && NonBlank(s.name) && NonBlank(s.databaseId) && OwnershipOk(s.ownership)
    && (forall t :: t in s.tables ==> TableOk(t))
  }

  predicate DatabaseOk(d: Database) {
    && NonBlank(d.id) && NonBlank(d.name) && NonBlank(d.datasourceId) && OwnershipOk(d.ownership)
    && (forall s :: s in d.schemas ==> SchemaOk(s))
  }

  predicate DataSourceOk(d: DataSource) {
    && NonBlank(d.id) && NonBlank(d.name) && NonBlank(d.systemType) && OwnershipOk(d.ownership)
    && (forall b :: b in d.databases ==> DatabaseOk(b))
  }

  predicate RelationshipOk(r: Relationship) {
    NonBlank(r.id) && NonBlank(r.name) && NonBlank(r.fromTableId) && NonBlank(r.toTableId)
  }

  /** What every constructed model satisfies. */
  predicate ModelOk(m: Model) {
    && m.dataSources != []
    && (forall d :: d in m.dataSources ==> DataSourceOk(d))
    && (forall r :: r in m.relationships ==> RelationshipOk(r))
  }
}
