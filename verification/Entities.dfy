/** Entities of the schema DSL (orm/dsl/schema.go) as the migration planner and the
    inverse-edge pass see them. */
module Entities {
  import opened Results
  import opened SchemaSnapshot

  /** The expression of a generated column and the columns that it mentions. */
  datatype Computed = Computed(expr: string, dependencies: seq<string>)

  datatype Field = Field(
    name: string, column: string, typ: string, goType: string, isPrimary: bool,
    nullable: bool, isUnique: bool, hasDefaultNow: bool, defaultExpr: string, enumValues: seq<string>,
    readOnly: bool, computed: Option<Computed>, timeseries: bool)

  datatype EdgeKind = ToOne | ToMany | ManyToMany | OtherKind

  datatype Edge = Edge(
    name: string, column: string, refName: string, through: string, target: string, kind: EdgeKind,
    nullable: bool, unique: bool, inverseName: string, onDelete: string, onUpdate: string)

  datatype Entity = Entity(name: string, fields: seq<Field>, edges: seq<Edge>, indexes: seq<Index>)

  /** The conventions, left open: pluralize, toSnakeCase, defaultJoinTableName, fieldSQLType and
      isIdentityColumn. */
  datatype Naming = Naming(
    pluralize: string -> string, snake: string -> string, joinTable: (string, string) -> string,
    sqlType: Field -> string, identity: Field -> bool)

  /** An entityMigration of the plan; `table` is the plural of the entity's name. */
  datatype EntityMigration = EntityMigration(
    entity: Entity, table: string, fields: seq<Field>, foreignKeys: seq<ForeignKey>)

  function FieldColumn(naming: Naming, f: Field): string {
    if f.column != "" then f.column else naming.snake(f.name)
  }

  function EdgeColumn(naming: Naming, e: Edge): string {
    if e.column != "" then e.column
    else if e.kind.ToOne? then naming.snake(e.name) + "_id"
    else naming.snake(e.name)
  }

  function FirstPrimary(fields: seq<Field>): Option<Field> {
    if fields == [] then None
    else if fields[0].isPrimary then Some(fields[0])
    else FirstPrimary(fields[1..])
  }

  /** The first primary field, else the first field. */
  function FindPrimaryField(ent: Entity): Option<Field> {
    match FirstPrimary(ent.fields)
    case Some(f) => Some(f)
    case None => if ent.fields != [] then Some(ent.fields[0]) else None
  }

  function EdgeRefColumn(naming: Naming, source: Entity, e: Edge, primary: Field): string {
    if e.refName != "" then e.refName
    else if primary.name == "" then ""
    else naming.snake(source.name) + "_" + FieldColumn(naming, primary)
  }

  ghost predicate DistinctNames(entities: seq<Entity>) {
    forall i, j :: 0 <= i < j < |entities| ==> entities[i].name != entities[j].name
  }

  /** The position of the entity of that name. */
  function IndexOf(entities: seq<Entity>, name: string): (r: Option<nat>)
    ensures r.Some? ==> r.value < |entities| && entities[r.value].name == name
    ensures r.None? ==> forall i :: 0 <= i < |entities| ==> entities[i].name != name
  {
    if entities == [] then None
    else if entities[|entities| - 1].name == name then Some(|entities| - 1)
    else
      IndexOf(entities[..|entities| - 1], name)
  }
}
