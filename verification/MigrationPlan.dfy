/** The migration plan (generator/migrations.go): columns, foreign keys and join tables derived
    from entities and their edges. The plan as a value is first; the class that is updated in
    place, as in the source, follows. */
module MigrationPlan {
  import opened Results
  import opened SchemaSnapshot
  import opened Entities

  /** The planned table of an entity, with the two indexes that the planner maintains. */
  datatype Planned = Planned(fields: seq<Field>, foreignKeys: seq<ForeignKey>, fieldIndex: map<string, nat>,
      fkIndex: set<string>)

  /** `typedAs` is the field whose type the column takes. */
  datatype JoinColumn = JoinColumn(
    column: string, targetTable: string, targetColumn: string, typedAs: Field, onDelete: string, onUpdate: string)

  datatype JoinTable = JoinTable(name: string, left: JoinColumn, right: JoinColumn)

  datatype Plan = Plan(entries: seq<Planned>, joins: map<string, JoinTable>)

  // One entry

  function ColumnIndex(naming: Naming, fields: seq<Field>): map<string, nat> {
    if fields == [] then map[]
    else
      ColumnIndex(naming, fields[..|fields| - 1])[FieldColumn(naming, fields[|fields| - 1]) := |fields| - 1]
  }

  function Initial(naming: Naming, ent: Entity): Planned {
    Planned(ent.fields, [], ColumnIndex(naming, ent.fields), {})
  }

  function ForeignKeyField(column: string, referenced: Field, e: Edge): Field {
    Field(column, column, referenced.typ, referenced.goType, false, e.nullable, e.unique, false, "", [], false, None,
      false)
  }

  /** A field is only ever made nullable or unique. */
  function Raised(f: Field, e: Edge): Field {
    f.(nullable := f.nullable || e.nullable, isUnique := f.isUnique || e.unique)
  }

  ghost predicate Indexed(v: Planned) {
    forall c :: c in v.fieldIndex ==> v.fieldIndex[c] < |v.fields|
  }

  /** The column exists, with a foreign key on it: the one it had, or else `fk`. */
  function Referenced(v: Planned, column: string, f: Field, e: Edge, fk: ForeignKey): Planned
    requires Indexed(v)
  {
    var withColumn :=
      if column in v.fieldIndex then
        v.(fields := v.fields[v.fieldIndex[column] := Raised(v.fields[v.fieldIndex[column]], e)])
      else v.(fields := v.fields + [f], fieldIndex := v.fieldIndex[column := |v.fields|]);
    if column in v.fkIndex then withColumn
    else withColumn.(foreignKeys := v.foreignKeys + [fk], fkIndex := v.fkIndex + {column})
  }

  function KeyTo(naming: Naming, table: string, column: string, targetName: string, targetPrimary: Field,
      e: Edge): ForeignKey
  {
    ForeignKey(
      column, naming.pluralize(targetName), FieldColumn(naming, targetPrimary), "fk_" + table + "_" + column,
      e.onDelete, e.onUpdate)
  }

  function FindEdgeByName(edges: seq<Edge>, name: string): Option<Edge> {
    if edges == [] then None
    else if edges[0].name == name then Some(edges[0]) else
      FindEdgeByName(edges[1..], name)
  }

  /** The column of a to-many edge on its target: an explicit or derived name that exists, else
      what an edge of that name on the target uses. */
  function ResolveForeignKeyColumn(naming: Naming, target: Planned, targetEntity: Entity, source: Entity, e: Edge,
      primary: Field): string
  {
    var column := EdgeRefColumn(naming, source, e, primary);
    if column == "" || column in target.fieldIndex || e.refName == "" then column
    else
      var targetEdge := FindEdgeByName(targetEntity.edges, e.refName);
      if targetEdge.Some? && EdgeColumn(naming, targetEdge.value) != "" then EdgeColumn(naming, targetEdge.value)
        else column
  }

  function WithToOne(naming: Naming, v: Planned, ent: Entity, target: Entity, e: Edge): Planned
    requires Indexed(v)
  {
    var primary, column := FindPrimaryField(target), EdgeColumn(naming, e);
    if primary.None? || column == "" then v
    else
      Referenced(v, column, ForeignKeyField(column, primary.value, e), e,
        KeyTo(naming, naming.pluralize(ent.name), column, e.target, primary.value, e))
  }

  function WithToMany(naming: Naming, v: Planned, target: Entity, source: Entity, e: Edge, primary: Field): Planned
    requires Indexed(v)
  {
    var column := ResolveForeignKeyColumn(naming, v, target, source, e, primary);
    if column == "" then v
    else
      Referenced(v, column, ForeignKeyField(column, primary, e), e,
        KeyTo(naming, naming.pluralize(target.name), column, source.name, primary, e))
  }

  function JoinName(naming: Naming, source: Entity, e: Edge): string {
    if e.through != "" then e.through else naming.joinTable(source.name, e.target)
  }

  function JoinSide(naming: Naming, name: string, primary: Field, e: Edge): JoinColumn {
    JoinColumn(
      naming.snake(name) + "_" + FieldColumn(naming, primary), naming.pluralize(name), FieldColumn(naming, primary),
      primary,
      e.onDelete, e.onUpdate)
  }

  /** The first edge that names a join table defines it. */
  function WithJoin(naming: Naming, joins: map<string, JoinTable>, source: Entity, target: Entity, e: Edge,
      primary: Field): map<string, JoinTable>
  {
    var targetPrimary, name := FindPrimaryField(target), JoinName(naming, source, e);
    if targetPrimary.None? || name == "" || name in joins then joins
    else
      joins[name :=
        JoinTable(name, JoinSide(naming, source.name, primary, e), JoinSide(naming, e.target, targetPrimary.value, e))]
  }

  // The whole plan

  ghost predicate AllIndexed(entities: seq<Entity>, p: Plan) {
    |p.entries| == |entities| && forall k :: 0 <= k < |p.entries| ==> Indexed(p.entries[k])
  }

  /** The plan after edge e of entity i. */
  function Step(naming: Naming, entities: seq<Entity>, p: Plan, i: nat, e: Edge, primary: Field): (p': Plan)
    requires i < |entities| && AllIndexed(entities, p)
    ensures AllIndexed(entities, p')
  {
    var t := IndexOf(entities, e.target);
    if t.None? then p
    else
      match e.kind
      case ToOne => p.(entries := p.entries[i := WithToOne(naming, p.entries[i], entities[i], entities[t.value], e)])
      case ToMany =>
        p.(entries :=
          p.entries[t.value := WithToMany(naming, p.entries[t.value], entities[t.value], entities[i], e, primary)])
      case ManyToMany => p.(joins := WithJoin(naming, p.joins, entities[i], entities[t.value], e, primary))
      case OtherKind => p
  }

  /** The plan after the first j edges of entity i. */
  function Edges(naming: Naming, entities: seq<Entity>, p: Plan, i: nat, j: nat): (p': Plan)
    requires i < |entities| && j <= |entities[i].edges| && AllIndexed(entities, p)
    ensures AllIndexed(entities, p')
  {
    var primary := FindPrimaryField(entities[i]);
    if j == 0 || primary.None? then p
    else
      Step(naming, entities, Edges(naming, entities, p, i, j - 1), i, entities[i].edges[j - 1], primary.value)
  }

  function Start(naming: Naming, entities: seq<Entity>): (p: Plan)
    ensures AllIndexed(entities, p)
  {
    InitialIndexed(naming, entities);
    Plan(seq(|entities|, k requires 0 <= k < |entities| => Initial(naming, entities[k])), map[])
  }

  lemma InitialIndexed(naming: Naming, entities: seq<Entity>)
    ensures forall k :: 0 <= k < |entities| ==> Indexed(Initial(naming, entities[k]))
  {
    forall k | 0 <= k < |entities| ensures Indexed(Initial(naming, entities[k])) {
      IndexBound(naming, entities[k].fields);
    }
  }

  lemma {:induction false} IndexBound(naming: Naming, fields: seq<Field>)
    ensures forall c :: c in ColumnIndex(naming, fields) ==> ColumnIndex(naming, fields)[c] < |fields|
  {
    if fields != [] { IndexBound(naming, fields[..|fields| - 1]); }
  }

  /** The plan after the edges of the first n entities. */
  function Walk(naming: Naming, entities: seq<Entity>, n: nat): (p: Plan)
    requires n <= |entities|
    ensures AllIndexed(entities, p)
  {
    if n == 0 then Start(naming, entities)
    else
      Edges(naming, entities, Walk(naming, entities, n - 1), n - 1, |entities[n - 1].edges|)
  }

  // In place

  lemma NextColumn(naming: Naming, fields: seq<Field>, idx: nat)
    requires idx < |fields|
    ensures ColumnIndex(naming, fields[..idx + 1])
      == ColumnIndex(naming, fields[..idx])[FieldColumn(naming, fields[idx]) := idx]
  {
    assert fields[..idx + 1][..idx] == fields[..idx];
  }

  class PlanEntry {
    const entity: Entity
    var fields: seq<Field>
    var foreignKeys: seq<ForeignKey>
    var fieldIndex: map<string, nat>
    var fkIndex: set<string>

    function Value(): Planned
      reads this
    {
      Planned(fields, foreignKeys, fieldIndex, fkIndex)
    }

    constructor (naming: Naming, ent: Entity)
      ensures entity == ent && Value() == Initial(naming, ent)
    {
      entity, fields, foreignKeys, fieldIndex, fkIndex := ent, ent.fields, [], map[], {};
      new;
      assert ColumnIndex(naming, ent.fields[..0]) == map[];
      hide ColumnIndex, FieldColumn;
      for idx := 0 to |fields|
        invariant entity == ent && fields == ent.fields && foreignKeys == [] && fkIndex == {}
        invariant fieldIndex == ColumnIndex(naming, ent.fields[..idx])
      {
        NextColumn(naming, ent.fields, idx);
        fieldIndex := fieldIndex[FieldColumn(naming, fields[idx]) := idx];
      }
      assert ent.fields[..|fields|] == ent.fields;
    }

    /** The part that ensureToOneColumn and ensureToManyColumn share. */
    method Reference(column: string, fkField: Field, edge: Edge, fk: ForeignKey)
      requires Indexed(Value())
      modifies this
      ensures Value() == Referenced(old(Value()), column, fkField, edge, fk)
    {
      if column in fieldIndex {
        var idx := fieldIndex[column];
        var existing := fields[idx];
        if edge.nullable && !existing.nullable {
          existing := existing.(nullable := true);
        }
        if edge.unique && !existing.isUnique {
          existing := existing.(isUnique := true);
        }
        fields := fields[idx := existing];
      } else {
        fields := fields + [fkField];
        fieldIndex := fieldIndex[column := |fields| - 1];
      }
      if column !in fkIndex {
        foreignKeys := foreignKeys + [fk];
        fkIndex := fkIndex + {column};
      }
    }
  }

  type EntityIndex = map<string, PlanEntry>

  method EnsureToOneColumn(naming: Naming, src: PlanEntry, entityIndex: EntityIndex, edge: Edge)
    requires Indexed(src.Value())
    modifies src
    ensures src.Value() == if edge.target in entityIndex then
        WithToOne(naming, old(src.Value()), src.entity, entityIndex[edge.target].entity, edge)
      else
        old(src.Value())
  {
    if edge.target !in entityIndex {
      return;
    }
    var targetPrimary := FindPrimaryField(entityIndex[edge.target].entity);
    if targetPrimary.None? {
      return;
    }
    var column := EdgeColumn(naming, edge);
    if column == "" {
      return;
    }
    var fk := ForeignKey(
      column, naming.pluralize(edge.target), FieldColumn(naming, targetPrimary.value),
      "fk_" + naming.pluralize(src.entity.name) + "_" + column, edge.onDelete, edge.onUpdate);
    src.Reference(column, ForeignKeyField(column, targetPrimary.value, edge), edge, fk);
  }

  method EnsureToManyColumn(naming: Naming, src: PlanEntry, entityIndex: EntityIndex, edge: Edge, srcPrimary: Field)
    requires edge.target in entityIndex ==> Indexed(entityIndex[edge.target].Value())
    modifies if edge.target in entityIndex then {entityIndex[edge.target]} else {}
    ensures edge.target in entityIndex ==>
      entityIndex[edge.target].Value()
      == WithToMany(naming, old(entityIndex[edge.target].Value()), entityIndex[edge.target].entity, src.entity, edge,
        srcPrimary)
  {
    if edge.target !in entityIndex {
      return;
    }
    var target := entityIndex[edge.target];
    var refColumn := ResolveForeignKeyColumn(naming, target.Value(), target.entity, src.entity, edge, srcPrimary);
    if refColumn == "" {
      return;
    }
    var fk := ForeignKey(
      refColumn, naming.pluralize(src.entity.name), FieldColumn(naming, srcPrimary),
      "fk_" + naming.pluralize(target.entity.name) + "_" + refColumn, edge.onDelete, edge.onUpdate);
    target.Reference(refColumn, ForeignKeyField(refColumn, srcPrimary, edge), edge, fk);
  }

  function Values(plan: seq<PlanEntry>): (r: seq<Planned>)
    reads plan
    ensures |r| == |plan| && forall k :: 0 <= k < |plan| ==> r[k] == plan[k].Value()
  {
    seq(|plan|, k requires 0 <= k < |plan| reads plan => plan[k].Value())
  }

  ghost predicate DistinctEntries(plan: seq<PlanEntry>) {
    forall i, j :: 0 <= i < j < |plan| ==> plan[i] != plan[j]
  }

  /** The entries in order, and by name. */
  ghost predicate EntriesOf(plan: seq<PlanEntry>, entityIndex: EntityIndex, entities: seq<Entity>) {
    && |plan| == |entities| && DistinctEntries(plan)
    && (forall k :: 0 <= k < |plan| ==> plan[k].entity == entities[k])
    && (forall name :: name in entityIndex <==> IndexOf(entities, name).Some?)
    && (forall name :: name in entityIndex ==> entityIndex[name] == plan[IndexOf(entities, name).value])
  }

  lemma IndexOfLast(entities: seq<Entity>, last: Entity, name: string)
    ensures IndexOf(entities + [last], name) == if last.name == name then Some(|entities|) else IndexOf(entities, name)
  {
    assert (entities + [last])[..|entities|] == entities;
  }

  lemma EntryAdded(plan: seq<PlanEntry>, entityIndex: EntityIndex, entities: seq<Entity>, entry: PlanEntry)
    requires EntriesOf(plan, entityIndex, entities) && entry !in plan
    ensures EntriesOf(plan + [entry], entityIndex[entry.entity.name := entry], entities + [entry.entity])
  {
    hide IndexOf;
    forall name
      ensures IndexOf(entities + [entry.entity], name) == if entry.entity.name == name then Some(|entities|)
        else IndexOf(entities, name)
    {
      IndexOfLast(entities, entry.entity, name);
    }
    forall i | 0 <= i < |plan| ensures plan[i] != entry { assert plan[i] in plan; }
  }

  method NewEntries(naming: Naming, entities: seq<Entity>) returns (plan: seq<PlanEntry>, entityIndex: EntityIndex)
    ensures EntriesOf(plan, entityIndex, entities) && fresh(plan)
    ensures Values(plan) == Start(naming, entities).entries
  {
    plan, entityIndex := [], map[];
    assert EntriesOf([], map[], entities[..0]);
    hide EntriesOf, Initial;
    for i := 0 to |entities|
      invariant EntriesOf(plan, entityIndex, entities[..i]) && fresh(plan) && |plan| == i
      invariant forall k :: 0 <= k < i ==> plan[k].Value() == Initial(naming, entities[k])
    {
      var entry := new PlanEntry(naming, entities[i]);
      EntryAdded(plan, entityIndex, entities[..i], entry);
      assert entities[..i + 1] == entities[..i] + [entry.entity];
      plan := plan + [entry];
      entityIndex := entityIndex[entities[i].name := entry];
    }
    assert entities[..|entities|] == entities;
  }

  method PlanEdge(naming: Naming, entities: seq<Entity>, plan: seq<PlanEntry>, entityIndex: EntityIndex,
      joins: map<string, JoinTable>, i: nat, edge: Edge, srcPrimary: Field) returns (joins': map<string, JoinTable>)
    requires EntriesOf(plan, entityIndex, entities) && i < |plan| && AllIndexed(entities, Plan(Values(plan), joins))
    modifies plan
    ensures Plan(Values(plan), joins') == Step(naming, entities, Plan(old(Values(plan)), joins), i, edge, srcPrimary)
  {
    joins' := joins;
    var src := plan[i];
    assert Indexed(Values(plan)[i]);
    match edge.kind
    case ToOne =>
      EnsureToOneColumn(naming, src, entityIndex, edge);
      assert Values(plan) == old(Values(plan))[i := src.Value()];
    case ToMany =>
      if edge.target in entityIndex {
        assert Indexed(Values(plan)[IndexOf(entities, edge.target).value]);
      }
      EnsureToManyColumn(naming, src, entityIndex, edge, srcPrimary);
      if edge.target in entityIndex {
        var t := IndexOf(entities, edge.target).value;
        assert Values(plan) == old(Values(plan))[t := plan[t].Value()];
      }
    case ManyToMany =>
      joins' := EnsureJoinTable(naming, joins, src.entity, entityIndex, edge, srcPrimary);
    case OtherKind =>
  }

  method EnsureJoinTable(naming: Naming, joinTables: map<string, JoinTable>, source: Entity, entityIndex: EntityIndex,
      edge: Edge, srcPrimary: Field) returns (r: map<string, JoinTable>)
    ensures r == if edge.target in entityIndex then
      WithJoin(naming, joinTables, source, entityIndex[edge.target].entity, edge, srcPrimary)
      else
        joinTables
  {
    r := joinTables;
    if edge.target !in entityIndex {
      return;
    }
    var targetPrimary := FindPrimaryField(entityIndex[edge.target].entity);
    if targetPrimary.None? {
      return;
    }
    var joinName := if edge.through != "" then edge.through else naming.joinTable(source.name, edge.target);
    if joinName == "" {
      return;
    }
    if joinName in joinTables {
      return;
    }
    r := joinTables[joinName := JoinTable(
      joinName,
      JoinSide(naming, source.name, srcPrimary, edge),
      JoinSide(naming, edge.target, targetPrimary.value, edge))];
  }

  method BuildMigrationPlan(naming: Naming, entities: seq<Entity>)
    returns (plan: seq<PlanEntry>, joinTables: map<string, JoinTable>)
    ensures |plan| == |entities| && DistinctEntries(plan) && fresh(plan)
    ensures forall k :: 0 <= k < |plan| ==> plan[k].entity == entities[k]
    ensures Plan(Values(plan), joinTables) == Walk(naming, entities, |entities|)
  {
    var entityIndex;
    plan, entityIndex := NewEntries(naming, entities);
    joinTables := map[];
    for i := 0 to |plan|
      invariant Plan(Values(plan), joinTables) == Walk(naming, entities, i)
    {
      var srcPrimary := FindPrimaryField(plan[i].entity);
      ghost var before := Plan(Values(plan), joinTables);
      if srcPrimary.None? {
        continue;
      }
      var edges := plan[i].entity.edges;
      for j := 0 to |edges|
        invariant Plan(Values(plan), joinTables) == Edges(naming, entities, before, i, j)
      {
        joinTables := PlanEdge(naming, entities, plan, entityIndex, joinTables, i, edges[j], srcPrimary.value);
      }
    }
  }
}
