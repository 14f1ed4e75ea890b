/** The snapshot of the entities (generator/schema_snapshot.go): the tables of the migration
    plan, then the join tables, normalised. */
module SnapshotBuild {
  import opened Names
  import opened Results
  import opened SchemaSnapshot
  import opened Entities
  import opened MigrationPlan
  import opened SnapshotNormal

  function ColumnOf(naming: Naming, f: Field): Column {
    Column(
      FieldColumn(naming, f), naming.sqlType(f), f.nullable, f.isUnique, f.defaultExpr, f.hasDefaultNow,
      naming.identity(f),
      if f.computed.Some? then f.computed.value.expr else "",
      if f.computed.Some? then f.computed.value.dependencies else [],
      f.computed.Some? || f.readOnly, f.enumValues)
  }

  function ColumnsOf(naming: Naming, fields: seq<Field>): (r: seq<Column>)
    ensures |r| == |fields| && forall i :: 0 <= i < |fields| ==> r[i] == ColumnOf(naming, fields[i])
  {
    seq(|fields|, i requires 0 <= i < |fields| => ColumnOf(naming, fields[i]))
  }

  function PrimaryColumns(naming: Naming, fields: seq<Field>): seq<string> {
    if fields == [] then []
    else
      var last := fields[|fields| - 1];
      PrimaryColumns(naming, fields[..|fields| - 1]) + (if last.isPrimary then [FieldColumn(naming, last)] else [])
  }

  /** The last field marked as a time series. */
  function HypertableOf(naming: Naming, fields: seq<Field>): string {
    if fields == [] then ""
    else
      var last := fields[|fields| - 1];
      if last.timeseries then FieldColumn(naming, last) else HypertableOf(naming, fields[..|fields| - 1])
  }

  function TableOf(naming: Naming, ent: Entity, v: Planned): Table {
    Table(
      naming.pluralize(ent.name), ColumnsOf(naming, v.fields), PrimaryColumns(naming, v.fields), ent.indexes,
      v.foreignKeys,
      HypertableOf(naming, v.fields), false)
  }

  function JoinColumnOf(naming: Naming, c: JoinColumn): Column {
    Column(c.column, naming.sqlType(c.typedAs), false, false, "", false, false, "", [], false, [])
  }

  function JoinKeyOf(table: string, c: JoinColumn): ForeignKey {
    ForeignKey(c.column, c.targetTable, c.targetColumn, "fk_" + table + "_" + c.column, c.onDelete, c.onUpdate)
  }

  function JoinTableOf(naming: Naming, join: JoinTable): Table {
    Table(
      join.name, [JoinColumnOf(naming, join.left), JoinColumnOf(naming, join.right)],
      [join.left.column, join.right.column], [],
      [JoinKeyOf(join.name, join.left), JoinKeyOf(join.name, join.right)], "", true)
  }

  function EntityTables(naming: Naming, entities: seq<Entity>, p: Plan): (r: seq<Table>)
    requires |p.entries| == |entities|
    ensures |r| == |entities| && forall k :: 0 <= k < |entities| ==> r[k] == TableOf(naming, entities[k], p.entries[k])
  {
    seq(|entities|, k requires 0 <= k < |entities| => TableOf(naming, entities[k], p.entries[k]))
  }

  /** The join tables in the order in which the loop over the map meets them. */
  function JoinTables(naming: Naming, p: Plan, order: seq<string>): (r: seq<Table>)
    requires forall n :: n in order ==> n in p.joins
    ensures |r| == |order|
    ensures forall k :: 0 <= k < |order| ==> order[k] in p.joins && r[k] == JoinTableOf(naming, p.joins[order[k]])
  {
    assert forall k :: 0 <= k < |order| ==> order[k] in order;
    seq(|order|, k requires 0 <= k < |order| => JoinTableOf(naming, p.joins[order[k]]))
  }

  datatype ExtensionFlags = ExtensionFlags(postgis: bool, pgvector: bool, timescale: bool)

  function ExtensionsOf(flags: ExtensionFlags): seq<string> {
    (if flags.postgis then ["postgis"] else []) + (if flags.pgvector then ["vector"] else [])
      + (if flags.timescale then ["timescaledb"] else [])
  }

  /** The order names each join table once. */
  ghost predicate OrderOf(p: Plan, order: seq<string>) {
    Distinct(order) && forall n :: n in order <==> n in p.joins
  }

  function SnapshotOf(naming: Naming, entities: seq<Entity>, p: Plan, order: seq<string>, flags: ExtensionFlags): Schema
    requires |p.entries| == |entities| && forall n :: n in order ==> n in p.joins
  {
    Schema(EntityTables(naming, entities, p) + JoinTables(naming, p, order), ExtensionsOf(flags))
  }

  lemma NoFields(naming: Naming, none: seq<Field>)
    requires none == []
    ensures ColumnsOf(naming, none) == [] && PrimaryColumns(naming, none) == [] && HypertableOf(naming, none) == ""
  {
  }

  lemma NextField(naming: Naming, fields: seq<Field>, i: nat)
    requires i < |fields|
    ensures var f := fields[i];
      && ColumnsOf(naming, fields[..i + 1]) == ColumnsOf(naming, fields[..i]) + [ColumnOf(naming, f)]
      && PrimaryColumns(naming, fields[..i + 1])
        == PrimaryColumns(naming, fields[..i]) + (if f.isPrimary then [FieldColumn(naming, f)] else [])
      && HypertableOf(naming, fields[..i + 1]) == if f.timeseries then FieldColumn(naming, f)
        else HypertableOf(naming, fields[..i])
  {
    hide ColumnOf, FieldColumn;
    assert fields[..i + 1][..i] == fields[..i];
  }

  method BuildTable(naming: Naming, ent: PlanEntry) returns (table: Table)
    ensures table == TableOf(naming, ent.entity, ent.Value())
  {
    var columns: seq<Column>, primaryKey: seq<string>, hypertableColumn := [], [], "";
    NoFields(naming, ent.fields[..0]);
    hide PrimaryColumns, HypertableOf, ColumnsOf, FieldColumn;
    for i := 0 to |ent.fields|
      invariant columns == ColumnsOf(naming, ent.fields[..i])
      invariant primaryKey == PrimaryColumns(naming, ent.fields[..i])
      invariant hypertableColumn == HypertableOf(naming, ent.fields[..i])
    {
      var field := ent.fields[i];
      NextField(naming, ent.fields, i);
      var column := FieldColumn(naming, field);
      var col := Column(
        column, naming.sqlType(field), field.nullable, field.isUnique, field.defaultExpr, field.hasDefaultNow,
        naming.identity(field),
        "", [], false, field.enumValues);
      if field.computed.Some? {
        col := col.(generatedExpr := field.computed.value.expr, dependencies := field.computed.value.dependencies,
          readOnly := true);
      } else if field.readOnly {
        col := col.(readOnly := true);
      }
      if field.isPrimary {
        primaryKey := primaryKey + [column];
      }
      if field.timeseries {
        hypertableColumn := column;
      }
      columns := columns + [col];
    }
    assert ent.fields[..|ent.fields|] == ent.fields;
    return Table(
      naming.pluralize(ent.entity.name), columns, primaryKey, ent.entity.indexes, ent.foreignKeys, hypertableColumn,
      false);
  }

  method BuildEntityTables(naming: Naming, entities: seq<Entity>, plan: seq<PlanEntry>, ghost p: Plan)
    returns (tables: seq<Table>)
    requires |plan| == |entities| && Values(plan) == p.entries
    requires forall k :: 0 <= k < |plan| ==> plan[k].entity == entities[k]
    ensures tables == EntityTables(naming, entities, p)
  {
    hide TableOf;
    tables := [];
    for k := 0 to |plan|
      invariant |tables| == k && forall i :: 0 <= i < k ==> tables[i] == TableOf(naming, entities[i], p.entries[i])
    {
      var table := BuildTable(naming, plan[k]);
      assert Values(plan)[k] == p.entries[k];
      tables := tables + [table];
    }
  }

  method BuildJoinTables(naming: Naming, joins: map<string, JoinTable>, ghost p: Plan)
    returns (tables: seq<Table>, order: seq<string>)
    requires joins == p.joins
    ensures OrderOf(p, order) && tables == JoinTables(naming, p, order)
  {
    hide JoinTableOf;
    tables, order := [], [];
    var todo := joins.Keys;
    while todo != {}
      invariant todo <= joins.Keys && Distinct(order) && forall n :: n in order <==> n in joins && n !in todo
      invariant tables == JoinTables(naming, p, order)
      decreases |todo|
    {
      var name :| name in todo;
      todo := todo - {name};
      order := order + [name];
      tables := tables + [JoinTableOf(naming, joins[name])];
    }
  }

  /** The normal form of the planned tables, in some order in which the join tables were met. */
  ghost predicate IsSnapshot(naming: Naming, entities: seq<Entity>, flags: ExtensionFlags, s: Schema) {
    exists order :: OrderOf(Walk(naming, entities, |entities|), order)
      && s == Normal(SnapshotOf(naming, entities, Walk(naming, entities, |entities|), order, flags))
  }

  method BuildSchemaSnapshot(naming: Naming, entities: seq<Entity>, flags: ExtensionFlags) returns (s: Schema)
    ensures IsSnapshot(naming, entities, flags, s)
  {
    hide Walk, TableOf, JoinTableOf, Normal, EntityTables, JoinTables;
    var plan, joins := BuildMigrationPlan(naming, entities);
    ghost var p := Walk(naming, entities, |entities|);
    var tables := BuildEntityTables(naming, entities, plan, p);
    var joinTables, order := BuildJoinTables(naming, joins, p);
    var extensions: seq<string> := [];
    if flags.postgis {
      extensions := extensions + ["postgis"];
    }
    if flags.pgvector {
      extensions := extensions + ["vector"];
    }
    if flags.timescale {
      extensions := extensions + ["timescaledb"];
    }
    assert extensions == ExtensionsOf(flags);
    s := NormalizeSnapshot(Schema(tables + joinTables, extensions));
    assert s == Normal(SnapshotOf(naming, entities, p, order, flags));
  }
}
