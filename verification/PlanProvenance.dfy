/** Where the columns, foreign keys and join tables of the migration plan come from
    (generator/migrations.go): each from the first edge that asks for it. */
module PlanProvenance {
  import opened Results
  import opened SchemaSnapshot
  import opened Entities
  import opened MigrationPlan
  import opened PlanTheorems

  ghost predicate IsEdge(entities: seq<Entity>, i: nat, j: nat) {
    i < |entities| && j < |entities[i].edges|
  }

  /** Edge b of entity a is walked before edge j of entity i. */
  ghost predicate Precedes(entities: seq<Entity>, a: nat, b: nat, i: nat, j: nat) {
    IsEdge(entities, a, b) && (a < i || (a == i && b < j))
  }

  // What an edge asks for

  /** A column on the table of an entity, the field that is added if there is none, and the
      foreign key that is added if the column has none. */
  datatype Use = Use(entity: nat, column: string, field: Field, key: ForeignKey)

  function UseOf(naming: Naming, entities: seq<Entity>, p: Plan, i: nat, e: Edge, primary: Field): (u: Option<Use>)
    requires i < |entities| && |p.entries| == |entities|
    ensures u.Some? ==> u.value.entity < |entities| && u.value.key.column == u.value.column
    ensures u.Some? ==> u.value.field.nullable == e.nullable && u.value.field.isUnique == e.unique
  {
    var t := IndexOf(entities, e.target);
    if t.None? then None
    else
      var target := entities[t.value];
      match e.kind
      case ToOne =>
        var targetPrimary, column := FindPrimaryField(target), EdgeColumn(naming, e);
        if targetPrimary.None? || column == "" then None
        else
          Some(Use(i, column, ForeignKeyField(column, targetPrimary.value, e),
            KeyTo(naming, naming.pluralize(entities[i].name), column, e.target, targetPrimary.value, e)))
      case ToMany =>
        var column := ResolveForeignKeyColumn(naming, p.entries[t.value], target, entities[i], e, primary);
        if column == "" then None
        else
          Some(Use(t.value, column, ForeignKeyField(column, primary, e),
            KeyTo(naming, naming.pluralize(target.name), column, entities[i].name, primary, e)))
      case _ => None
  }

  function UseAt(naming: Naming, entities: seq<Entity>, i: nat, j: nat): (u: Option<Use>)
    requires IsEdge(entities, i, j)
    ensures u.Some? ==> u.value.entity < |entities| && u.value.key.column == u.value.column
    ensures u.Some? ==>
      u.value.field.nullable == entities[i].edges[j].nullable && u.value.field.isUnique == entities[i].edges[j].unique
  {
    var primary := FindPrimaryField(entities[i]);
    if primary.None? then None
    else
      UseOf(naming, entities, Before(naming, entities, i, j), i, entities[i].edges[j], primary.value)
  }

  /** The join table that an edge asks for. */
  function JoinAt(naming: Naming, entities: seq<Entity>, i: nat, j: nat): (join: Option<JoinTable>)
    requires IsEdge(entities, i, j)
  {
    var e, primary := entities[i].edges[j], FindPrimaryField(entities[i]);
    var t, name := IndexOf(entities, e.target), JoinName(naming, entities[i], e);
    if !e.kind.ManyToMany? || primary.None? || t.None? || name == "" then None
    else
      var targetPrimary := FindPrimaryField(entities[t.value]);
      if targetPrimary.None? then None
      else
        Some(JoinTable(name, JoinSide(naming, entities[i].name, primary.value, e),
          JoinSide(naming, e.target, targetPrimary.value, e)))
  }

  /** An edge adds what it asks for, and nothing else. */
  lemma EdgeAdds(naming: Naming, entities: seq<Entity>, i: nat, j: nat)
    requires IsEdge(entities, i, j)
    ensures var p, p' := Before(naming, entities, i, j), Before(naming, entities, i, j + 1);
      && (match UseAt(naming, entities, i, j)
        case None => p'.entries == p.entries
        case Some(u) =>
          p'.entries
            == p.entries[u.entity := Referenced(p.entries[u.entity], u.column, u.field, entities[i].edges[j], u.key)])
      && (match JoinAt(naming, entities, i, j)
        case None => p'.joins == p.joins
        case Some(join) => p'.joins == if join.name in p.joins then p.joins else p.joins[join.name := join])
  {
    hide Indexed, Referenced, KeyTo, ForeignKeyField, ResolveForeignKeyColumn, EdgeColumn, JoinSide, JoinName, IndexOf;
    hide FindPrimaryField, Walk;
  }

  // Who asks first

  datatype Wanted = TableNamed(name: string) | ColumnOn(entity: nat, column: string)

  ghost predicate Asks(naming: Naming, entities: seq<Entity>, i: nat, j: nat, w: Wanted)
    requires IsEdge(entities, i, j)
  {
    match w
    case TableNamed(name) => JoinAt(naming, entities, i, j).Some? && JoinAt(naming, entities, i, j).value.name == name
    case ColumnOn(k, column) =>
      && UseAt(naming, entities, i, j).Some?
      && UseAt(naming, entities, i, j).value.entity == k && UseAt(naming, entities, i, j).value.column == column
  }

  ghost predicate Asked(naming: Naming, entities: seq<Entity>, w: Wanted) {
    exists i: nat, j: nat :: IsEdge(entities, i, j) && Asks(naming, entities, i, j, w)
  }

  ghost predicate AsksFirst(naming: Naming, entities: seq<Entity>, i: nat, j: nat, w: Wanted) {
    && IsEdge(entities, i, j) && Asks(naming, entities, i, j, w)
    && forall a: nat, b: nat :: Precedes(entities, a, b, i, j) ==> !Asks(naming, entities, a, b, w)
  }

  /** Before an edge, after the last edge of an entity, or at the end. */
  ghost predicate IsPosition(entities: seq<Entity>, i: nat, j: nat) {
    (i < |entities| && j <= |entities[i].edges|) || (i == |entities| && j == 0)
  }

  ghost function PlanAt(naming: Naming, entities: seq<Entity>, i: nat, j: nat): (p: Plan)
    requires IsPosition(entities, i, j)
    ensures AllIndexed(entities, p)
  {
    if i == |entities| then Walk(naming, entities, i) else Before(naming, entities, i, j)
  }

  lemma NextEntity(naming: Naming, entities: seq<Entity>, i: nat)
    requires i < |entities|
    ensures PlanAt(naming, entities, i + 1, 0) == PlanAt(naming, entities, i, |entities[i].edges|)
  {
    hide AllIndexed, Step, Start, FindPrimaryField;
  }

  /** The first edge before a position to ask, found in the order of the walk. */
  ghost function FirstEdge(naming: Naming, entities: seq<Entity>, i: nat, j: nat, w: Wanted): (r: Option<(nat, nat)>)
    requires IsPosition(entities, i, j)
    ensures r.Some? ==>
      Precedes(entities, r.value.0, r.value.1, i, j) && Asks(naming, entities, r.value.0, r.value.1, w)
    decreases i, j
  {
    if j > 0 then
      var r := FirstEdge(naming, entities, i, j - 1, w);
      if r.None? && Asks(naming, entities, i, j - 1, w) then Some((i, j - 1)) else r
    else if i > 0 then FirstEdge(naming, entities, i - 1, |entities[i - 1].edges|, w)
    else None
  }

  lemma {:induction false} FirstEdgeIsFirst(naming: Naming, entities: seq<Entity>, i: nat, j: nat, w: Wanted, a: nat,
      b: nat)
    requires IsPosition(entities, i, j) && Precedes(entities, a, b, i, j) && Asks(naming, entities, a, b, w)
    ensures var r := FirstEdge(naming, entities, i, j, w);
      r.Some? && ((r.value.0 == a && r.value.1 == b) || Precedes(entities, r.value.0, r.value.1, a, b))
    decreases i, j
  {
    hide Asks;
    if j > 0 {
      if !(a == i && b == j - 1) { FirstEdgeIsFirst(naming, entities, i, j - 1, w, a, b); }
    } else {
      FirstEdgeIsFirst(naming, entities, i - 1, |entities[i - 1].edges|, w, a, b);
    }
  }

  /** In the whole walk. */
  ghost function First(naming: Naming, entities: seq<Entity>, w: Wanted): (r: Option<(nat, nat)>)
    ensures r.Some? ==> IsEdge(entities, r.value.0, r.value.1) && Asks(naming, entities, r.value.0, r.value.1, w)
  {
    FirstEdge(naming, entities, |entities|, 0, w)
  }

  lemma FirstExact(naming: Naming, entities: seq<Entity>, w: Wanted)
    ensures First(naming, entities, w).Some? <==> Asked(naming, entities, w)
    ensures var r := First(naming, entities, w); r.Some? ==> AsksFirst(naming, entities, r.value.0, r.value.1, w)
  {
    hide Asks;
    forall a: nat, b: nat | IsEdge(entities, a, b) && Asks(naming, entities, a, b, w)
      ensures var r := First(naming, entities, w);
        r.Some? && ((r.value.0 == a && r.value.1 == b) || Precedes(entities, r.value.0, r.value.1, a, b))
    {
      FirstEdgeIsFirst(naming, entities, |entities|, 0, w, a, b);
    }
  }

  lemma FirstUnique(naming: Naming, entities: seq<Entity>, w: Wanted, i: nat, j: nat)
    requires AsksFirst(naming, entities, i, j, w)
    ensures First(naming, entities, w) == Some((i, j))
  {
    hide Asks, FirstEdge;
    FirstEdgeIsFirst(naming, entities, |entities|, 0, w, i, j);
  }

  // Join tables

  lemma {:induction false} JoinsAt(naming: Naming, entities: seq<Entity>, i: nat, j: nat, name: string)
    requires IsPosition(entities, i, j)
    ensures var joins, first :=
      PlanAt(naming, entities, i, j).joins, FirstEdge(naming, entities, i, j, TableNamed(name));
      && (name in joins <==> first.Some?)
      && (first.Some? ==> JoinAt(naming, entities, first.value.0, first.value.1) == Some(joins[name]))
    decreases i, j
  {
    hide JoinAt, UseAt, AllIndexed, Referenced, Walk, Edges;
    if j > 0 {
      JoinsAt(naming, entities, i, j - 1, name);
      EdgeAdds(naming, entities, i, j - 1);
    } else if i > 0 {
      JoinsAt(naming, entities, i - 1, |entities[i - 1].edges|, name);
      NextEntity(naming, entities, i - 1);
    } else {
      NoJoins(naming, entities);
    }
  }

  lemma NoJoins(naming: Naming, entities: seq<Entity>)
    ensures PlanAt(naming, entities, 0, 0) == Start(naming, entities)
    ensures Start(naming, entities).joins == map[]
  {
  }

  /** The join table as the first edge to name it has it. */
  ghost function FirstJoin(naming: Naming, entities: seq<Entity>, name: string): Option<JoinTable> {
    match First(naming, entities, TableNamed(name))
    case None => None
    case Some(first) => JoinAt(naming, entities, first.0, first.1)
  }

  /** The planned join tables are those that edges ask for, each as the first edge has it that
      names it. */
  lemma {:induction false} JoinsComeFromEdges(naming: Naming, entities: seq<Entity>, name: string)
    ensures var joins := Walk(naming, entities, |entities|).joins;
      && (name in joins <==> Asked(naming, entities, TableNamed(name)))
      && FirstJoin(naming, entities, name) == if name in joins then Some(joins[name]) else None
  {
    hide Walk, Before, JoinAt, FirstEdge, Asked, AsksFirst;
    JoinsAt(naming, entities, |entities|, 0, name);
    FirstExact(naming, entities, TableNamed(name));
  }

  // Columns and foreign keys

  /** The entity declares a field of that column. */
  predicate DeclaresColumn(naming: Naming, ent: Entity, column: string) {
    exists f | f in ent.fields :: FieldColumn(naming, f) == column
  }

  lemma {:induction false} IndexedColumns(naming: Naming, fields: seq<Field>, column: string)
    ensures column in ColumnIndex(naming, fields) <==> exists f | f in fields :: FieldColumn(naming, f) == column
  {
    hide FieldColumn;
    if fields != [] {
      var init, last := fields[..|fields| - 1], fields[|fields| - 1];
      assert fields == init + [last];
      IndexedColumns(naming, init, column);
    }
  }

  /** What the entry has on a column that the edge `first` was the first to ask for. */
  ghost predicate ColumnFrom(naming: Naming, entities: seq<Entity>, v: Planned, k: nat, column: string,
      first: Option<(nat, nat)>)
    requires k < |entities| && Indexed(v)
    requires first.Some? ==> IsEdge(entities, first.value.0, first.value.1)
  {
    && (column in v.fkIndex <==> first.Some?)
    && (column in v.fieldIndex <==> DeclaresColumn(naming, entities[k], column) || first.Some?)
    && (first.Some? ==>
      var use := UseAt(naming, entities, first.value.0, first.value.1);
      && use.Some? && use.value.key in v.foreignKeys
      && (!DeclaresColumn(naming, entities[k], column) ==> OnlyRaised(use.value.field, v.fields[v.fieldIndex[column]])))
    && (forall fk :: fk in v.foreignKeys && fk.column == column ==>
      first.Some? && UseAt(naming, entities, first.value.0, first.value.1).Some?
      && fk == UseAt(naming, entities, first.value.0, first.value.1).value.key)
  }

  lemma ColumnStarts(naming: Naming, entities: seq<Entity>, k: nat, column: string)
    requires k < |entities|
    ensures Start(naming, entities).entries[k] == Initial(naming, entities[k])
    ensures Indexed(Initial(naming, entities[k]))
    ensures ColumnFrom(naming, entities, Initial(naming, entities[k]), k, column, None)
  {
    IndexedColumns(naming, entities[k].fields, column);
    InitialIndexed(naming, entities);
    hide FieldColumn, ColumnIndex;
  }

  /** A further edge asks for the column. */
  lemma ColumnAgain(naming: Naming, entities: seq<Entity>, v: Planned, k: nat, column: string,
      first: Option<(nat, nat)>, i: nat, j: nat)
    requires k < |entities| && Indexed(v) && IsEdge(entities, i, j)
    requires first.Some? ==> IsEdge(entities, first.value.0, first.value.1)
    requires ColumnFrom(naming, entities, v, k, column, first)
    requires UseAt(naming, entities, i, j).Some? && UseAt(naming, entities, i, j).value.column == column
    ensures var u := UseAt(naming, entities, i, j).value;
      Indexed(Referenced(v, column, u.field, entities[i].edges[j], u.key))
      && ColumnFrom(naming, entities, Referenced(v, column, u.field, entities[i].edges[j], u.key), k, column,
        if first.Some? then first else Some((i, j)))
  {
    hide UseAt, DeclaresColumn;
    var u, e := UseAt(naming, entities, i, j).value, entities[i].edges[j];
    var v' := Referenced(v, column, u.field, e, u.key);
    if first.None? {
      assert v'.foreignKeys == v.foreignKeys + [u.key];
    }
  }

  /** An edge asks for another column. */
  lemma ColumnElsewhere(naming: Naming, entities: seq<Entity>, v: Planned, k: nat, column: string,
      first: Option<(nat, nat)>, other: string, f: Field, e: Edge, fk: ForeignKey)
    requires k < |entities| && Indexed(v) && other != column && fk.column == other
    requires first.Some? ==> IsEdge(entities, first.value.0, first.value.1)
    requires ColumnFrom(naming, entities, v, k, column, first)
    ensures Indexed(Referenced(v, other, f, e, fk))
    ensures ColumnFrom(naming, entities, Referenced(v, other, f, e, fk), k, column, first)
  {
    hide UseAt, DeclaresColumn;
    var v' := Referenced(v, other, f, e, fk);
    assert forall x :: x in v'.foreignKeys ==> x in v.foreignKeys || x == fk;
  }

  lemma ColumnStep(naming: Naming, entities: seq<Entity>, i: nat, j: nat, k: nat, column: string,
      first: Option<(nat, nat)>)
    requires IsEdge(entities, i, j) && k < |entities|
    requires first.Some? ==> IsEdge(entities, first.value.0, first.value.1)
    requires ColumnFrom(naming, entities, Before(naming, entities, i, j).entries[k], k, column, first)
    ensures ColumnFrom(naming, entities, Before(naming, entities, i, j + 1).entries[k], k, column,
      if first.None? && Asks(naming, entities, i, j, ColumnOn(k, column)) then Some((i, j)) else first)
  {
    hide ColumnFrom, UseAt, JoinAt, Referenced, Before;
    EdgeAdds(naming, entities, i, j);
    var v, use := Before(naming, entities, i, j).entries[k], UseAt(naming, entities, i, j);
    if use.Some? && use.value.entity == k {
      if use.value.column == column {
        ColumnAgain(naming, entities, v, k, column, first, i, j);
      } else {
        ColumnElsewhere(naming, entities, v, k, column, first, use.value.column, use.value.field,
          entities[i].edges[j], use.value.key);
      }
    }
  }

  lemma {:induction false} ColumnsAt(naming: Naming, entities: seq<Entity>, i: nat, j: nat, k: nat, column: string)
    requires IsPosition(entities, i, j) && k < |entities|
    ensures ColumnFrom(naming, entities, PlanAt(naming, entities, i, j).entries[k], k, column,
      FirstEdge(naming, entities, i, j, ColumnOn(k, column)))
    decreases i, j
  {
    hide ColumnFrom, UseAt, JoinAt, Referenced, Before, Asks;
    if j > 0 {
      ColumnsAt(naming, entities, i, j - 1, k, column);
      ColumnStep(naming, entities, i, j - 1, k, column, FirstEdge(naming, entities, i, j - 1, ColumnOn(k, column)));
    } else if i > 0 {
      ColumnsAt(naming, entities, i - 1, |entities[i - 1].edges|, k, column);
      NextEntity(naming, entities, i - 1);
    } else {
      NoJoins(naming, entities);
      ColumnStarts(naming, entities, k, column);
    }
  }

  lemma TakeColumn(naming: Naming, entities: seq<Entity>, k: nat, column: string)
    requires k < |entities|
    ensures ColumnFrom(naming, entities, Walk(naming, entities, |entities|).entries[k], k, column,
      First(naming, entities, ColumnOn(k, column)))
  {
    hide ColumnFrom, Walk, UseAt;
    ColumnsAt(naming, entities, |entities|, 0, k, column);
  }

  /** The columns of a planned table are those declared and those that edges ask for; the
      columns with a foreign key are those that edges ask for, and there is no other key. */
  lemma {:induction false} ColumnsComeFromEdges(naming: Naming, entities: seq<Entity>, k: nat, column: string)
    requires k < |entities|
    ensures var v := Walk(naming, entities, |entities|).entries[k];
      && (column in v.fieldIndex <==>
        DeclaresColumn(naming, entities[k], column) || Asked(naming, entities, ColumnOn(k, column)))
      && (column in v.fkIndex <==> Asked(naming, entities, ColumnOn(k, column)))
      && ((exists fk :: fk in v.foreignKeys && fk.column == column) <==> Asked(naming, entities, ColumnOn(k, column)))
  {
    hide UseAt, DeclaresColumn, FirstEdge, First, Walk;
    TakeColumn(naming, entities, k, column);
    FirstExact(naming, entities, ColumnOn(k, column));
    var v, first := Walk(naming, entities, |entities|).entries[k], First(naming, entities, ColumnOn(k, column));
    if first.Some? {
      var key := UseAt(naming, entities, first.value.0, first.value.1).value.key;
      assert key in v.foreignKeys && key.column == column;
    }
  }

  /** The first edge to ask for a column decides its foreign key, and its type unless the column
      is declared. */
  lemma {:induction false} FirstEdgeDecides(naming: Naming, entities: seq<Entity>, i: nat, j: nat, u: Use,
      fk: ForeignKey)
    requires IsEdge(entities, i, j) && UseAt(naming, entities, i, j) == Some(u)
    requires AsksFirst(naming, entities, i, j, ColumnOn(u.entity, u.column))
    ensures var v := Walk(naming, entities, |entities|).entries[u.entity];
      && (fk in v.foreignKeys && fk.column == u.column <==> fk == u.key)
      && u.column in v.fieldIndex && v.fieldIndex[u.column] < |v.fields|
      && (!DeclaresColumn(naming, entities[u.entity], u.column) ==>
        OnlyRaised(u.field, v.fields[v.fieldIndex[u.column]]))
  {
    hide UseAt, DeclaresColumn, FirstEdge, First, Walk, Asks;
    TakeColumn(naming, entities, u.entity, u.column);
    FirstUnique(naming, entities, ColumnOn(u.entity, u.column), i, j);
    assert Indexed(Walk(naming, entities, |entities|).entries[u.entity]);
  }

  /** The foreign key that the first edge to ask for a column wants on it. */
  ghost function FirstKey(naming: Naming, entities: seq<Entity>, k: nat, column: string): Option<ForeignKey> {
    match First(naming, entities, ColumnOn(k, column))
    case None => None
    case Some(first) => Some(UseAt(naming, entities, first.0, first.1).value.key)
  }

  /** The foreign keys of a planned table are, column by column, those of the first edges. */
  lemma {:induction false} KeysComeFromEdges(naming: Naming, entities: seq<Entity>, k: nat, fk: ForeignKey)
    requires k < |entities|
    ensures fk in Walk(naming, entities, |entities|).entries[k].foreignKeys <==>
      FirstKey(naming, entities, k, fk.column) == Some(fk)
  {
    hide UseAt, DeclaresColumn, FirstEdge, First, Walk, Asks;
    TakeColumn(naming, entities, k, fk.column);
  }

  /** The key is that of the edge itself if it is the first to ask. */
  lemma FirstKeyIsOf(naming: Naming, entities: seq<Entity>, i: nat, j: nat, u: Use)
    requires IsEdge(entities, i, j) && UseAt(naming, entities, i, j) == Some(u)
    ensures FirstKey(naming, entities, u.entity, u.column).Some?
    ensures FirstKey(naming, entities, u.entity, u.column).value.column == u.column
    ensures AsksFirst(naming, entities, i, j, ColumnOn(u.entity, u.column)) ==>
      FirstKey(naming, entities, u.entity, u.column) == Some(u.key)
  {
    var w := ColumnOn(u.entity, u.column);
    assert Asks(naming, entities, i, j, w);
    FirstExact(naming, entities, w);
    var first := First(naming, entities, w);
    assert first.Some? ==> UseAt(naming, entities, first.value.0, first.value.1).value.column == u.column;
    hide UseAt, First, Asks, AsksFirst;
    if AsksFirst(naming, entities, i, j, w) { FirstUnique(naming, entities, w, i, j); }
  }

  // Every edge

  /** Every edge that asks for a column gets it, with a foreign key on it, as nullable and unique
      as it says. The key is its own exactly if the first edge to ask for the column wants it. */
  lemma {:induction false} EdgeIsPlanned(naming: Naming, entities: seq<Entity>, i: nat, j: nat, u: Use)
    requires IsEdge(entities, i, j) && UseAt(naming, entities, i, j) == Some(u)
    ensures var v := Walk(naming, entities, |entities|).entries[u.entity];
      && HasColumnFor(v, u.column, entities[i].edges[j])
      && (u.key in v.foreignKeys <==> FirstKey(naming, entities, u.entity, u.column) == Some(u.key))
  {
    hide UseAt, HasColumnFor, FirstKey, Walk;
    KeysComeFromEdges(naming, entities, u.entity, u.key);
    UseTakesEffect(naming, entities, i, j, u);
  }

  lemma UseTakesEffect(naming: Naming, entities: seq<Entity>, i: nat, j: nat, u: Use)
    requires IsEdge(entities, i, j) && UseAt(naming, entities, i, j) == Some(u)
    ensures HasColumnFor(Walk(naming, entities, |entities|).entries[u.entity], u.column, entities[i].edges[j])
  {
    hide UseAt, HasColumnFor, Grows, Walk, Before;
    EdgeIsKept(naming, entities, i, j, u.entity);
    EdgeAdds(naming, entities, i, j);
    var e, before, after := entities[i].edges[j], Before(naming, entities, i, j), Before(naming, entities, i, j + 1);
    ReferencedHas(before.entries[u.entity], u.column, u.field, e, u.key);
    GrowsKeeps(after.entries[u.entity], Walk(naming, entities, |entities|).entries[u.entity], u.column, e);
  }

  ghost predicate AskedBefore(naming: Naming, entities: seq<Entity>, i: nat, j: nat, w: Wanted) {
    exists a: nat, b: nat :: Precedes(entities, a, b, i, j) && Asks(naming, entities, a, b, w)
  }

  /** The columns that are there when an edge is reached. */
  lemma PlannedBefore(naming: Naming, entities: seq<Entity>, i: nat, j: nat, k: nat, column: string)
    requires IsEdge(entities, i, j) && k < |entities|
    ensures column in Before(naming, entities, i, j).entries[k].fieldIndex <==>
      DeclaresColumn(naming, entities[k], column) || AskedBefore(naming, entities, i, j, ColumnOn(k, column))
  {
    hide Asks, Before, DeclaresColumn, UseAt;
    ColumnsAt(naming, entities, i, j, k, column);
    var w := ColumnOn(k, column);
    if AskedBefore(naming, entities, i, j, w) {
      var a: nat, b: nat :| Precedes(entities, a, b, i, j) && Asks(naming, entities, a, b, w);
      FirstEdgeIsFirst(naming, entities, i, j, w, a, b);
    }
  }

  /** The column was added with the types of the field it refers to; its flags are another matter. */
  ghost predicate AddedFor(v: Planned, column: string, referenced: Field) {
    && column in v.fieldIndex && v.fieldIndex[column] < |v.fields|
    && var f := v.fields[v.fieldIndex[column]];
      f == Field(column, column, referenced.typ, referenced.goType, false, f.nullable, f.isUnique, false, "", [],
        false, None,
        false)
  }

  lemma FirstEdgeAdds(naming: Naming, entities: seq<Entity>, i: nat, j: nat, u: Use, referenced: Field)
    requires IsEdge(entities, i, j) && UseAt(naming, entities, i, j) == Some(u)
    requires u.field == ForeignKeyField(u.column, referenced, entities[i].edges[j])
    ensures AsksFirst(naming, entities, i, j, ColumnOn(u.entity, u.column)) ==>
      DeclaresColumn(naming, entities[u.entity], u.column)
      || AddedFor(Walk(naming, entities, |entities|).entries[u.entity], u.column, referenced)
  {
    hide UseAt, DeclaresColumn, AsksFirst, Walk;
    if AsksFirst(naming, entities, i, j, ColumnOn(u.entity, u.column)) {
      FirstEdgeDecides(naming, entities, i, j, u, u.key);
    }
  }

  /** Every to-one edge with a known target gets its column, and on it a key to the target unless
      an earlier edge gave the column another. If it is the first to ask for the column, and the column
      is not declared, it has the types of the target's primary field. */
  lemma {:induction false} ToOneEdgesArePlanned(naming: Naming, entities: seq<Entity>, i: nat, j: nat)
    requires IsEdge(entities, i, j) && entities[i].edges[j].kind.ToOne?
    requires FindPrimaryField(entities[i]).Some? && IndexOf(entities, entities[i].edges[j].target).Some?
    requires FindPrimaryField(entities[IndexOf(entities, entities[i].edges[j].target).value]).Some?
    ensures var e, v := entities[i].edges[j], Walk(naming, entities, |entities|).entries[i];
      var column := if e.column != "" then e.column else naming.snake(e.name) + "_id";
      var primary := FindPrimaryField(entities[IndexOf(entities, e.target).value]).value;
      var key := ForeignKey(
        column, naming.pluralize(e.target), if primary.column != "" then primary.column else naming.snake(primary.name),
        "fk_" + naming.pluralize(entities[i].name) + "_" + column, e.onDelete, e.onUpdate);
      && HasColumnFor(v, column, e)
      && (key in v.foreignKeys <==> FirstKey(naming, entities, i, column) == Some(key))
      && (!DeclaresColumn(naming, entities[i], column) && AsksFirst(naming, entities, i, j, ColumnOn(i, column)) ==>
        AddedFor(v, column, primary))
  {
    hide FindPrimaryField, IndexOf, HasColumnFor, Walk, FirstKey, Before, AsksFirst, AddedFor, DeclaresColumn;
    var u := UseAt(naming, entities, i, j);
    assert u.Some?;
    EdgeIsPlanned(naming, entities, i, j, u.value);
    var primary := FindPrimaryField(entities[IndexOf(entities, entities[i].edges[j].target).value]).value;
    FirstEdgeAdds(naming, entities, i, j, u.value, primary);
  }

  /** The column of a to-many edge on its target, in terms of the edges: its reference column,
      unless there is no such column yet and an edge of that name leads to another. */
  ghost function ToManyColumn(naming: Naming, entities: seq<Entity>, i: nat, j: nat): string
    requires IsEdge(entities, i, j) && FindPrimaryField(entities[i]).Some?
    requires IndexOf(entities, entities[i].edges[j].target).Some?
  {
    var e, t := entities[i].edges[j], IndexOf(entities, entities[i].edges[j].target).value;
    var primary, named := FindPrimaryField(entities[i]).value, FindEdgeByName(entities[t].edges, e.refName);
    if e.refName == "" then
      naming.snake(entities[i].name) + "_"
      + (if primary.column != "" then primary.column else naming.snake(primary.name))
    else if DeclaresColumn(naming, entities[t], e.refName)
      || AskedBefore(naming, entities, i, j, ColumnOn(t, e.refName)) || named.None? then e.refName
    else if named.value.column != "" then named.value.column
    else if named.value.kind.ToOne? then naming.snake(named.value.name) + "_id"
    else if naming.snake(named.value.name) != "" then naming.snake(named.value.name)
    else e.refName
  }

  /** The first edge of the name. */
  ghost predicate FoundAt(edges: seq<Edge>, name: string, r: Option<Edge>) {
    if r.None? then forall x :: x in edges ==> x.name != name
    else
      exists k ::
        0 <= k < |edges| && edges[k] == r.value && edges[k].name == name
          && forall l :: 0 <= l < k ==> edges[l].name != name
  }

  lemma {:induction false} FindEdgeExact(edges: seq<Edge>, name: string)
    ensures FoundAt(edges, name, FindEdgeByName(edges, name))
  {
    if edges != [] && edges[0].name != name {
      var r := FindEdgeByName(edges[1..], name);
      FindEdgeExact(edges[1..], name);
      assert edges == [edges[0]] + edges[1..];
      if r.Some? {
        var k :| 0 <= k < |edges[1..]| && edges[1..][k] == r.value && edges[1..][k].name == name
          && forall l :: 0 <= l < k ==> edges[1..][l].name != name;
        assert edges[k + 1] == r.value;
        forall l | 0 <= l < k + 1 ensures edges[l].name != name {
          assert l > 0 ==> edges[l] == edges[1..][l - 1];
        }
      }
    } else if edges != [] {
      assert edges[0] == FindEdgeByName(edges, name).value;
    }
  }

  /** Every to-many edge whose source has a named primary field, or which has a reference column, gets
      that column on the target, and on it a key back to the source unless an earlier edge gave the
      column another. If it is the first to ask, and the column is not declared, it has the types of
      the source's primary field. */
  lemma {:induction false} ToManyEdgesArePlanned(naming: Naming, entities: seq<Entity>, i: nat, j: nat)
    requires IsEdge(entities, i, j) && entities[i].edges[j].kind.ToMany?
    requires FindPrimaryField(entities[i]).Some? && IndexOf(entities, entities[i].edges[j].target).Some?
    requires entities[i].edges[j].refName != "" || FindPrimaryField(entities[i]).value.name != ""
    ensures var e, t := entities[i].edges[j], IndexOf(entities, entities[i].edges[j].target).value;
      var v, column := Walk(naming, entities, |entities|).entries[t], ToManyColumn(naming, entities, i, j);
      var primary := FindPrimaryField(entities[i]).value;
      var key := ForeignKey(
        column, naming.pluralize(entities[i].name),
        if primary.column != "" then primary.column else naming.snake(primary.name),
        "fk_" + naming.pluralize(entities[t].name) + "_" + column, e.onDelete, e.onUpdate);
      && HasColumnFor(v, column, e)
      && (key in v.foreignKeys <==> FirstKey(naming, entities, t, column) == Some(key))
      && (!DeclaresColumn(naming, entities[t], column) && AsksFirst(naming, entities, i, j, ColumnOn(t, column)) ==>
        AddedFor(v, column, primary))
  {
    hide FindPrimaryField, IndexOf, HasColumnFor, Walk, FirstKey, Before, FindEdgeByName, AskedBefore, DeclaresColumn;
    hide AsksFirst, AddedFor;
    var e, t := entities[i].edges[j], IndexOf(entities, entities[i].edges[j].target).value;
    var u, column :=
      UseAt(naming, entities, i, j), EdgeRefColumn(naming, entities[i], e, FindPrimaryField(entities[i]).value);
    PlannedBefore(naming, entities, i, j, t, column);
    assert u.Some? && u.value.column == ToManyColumn(naming, entities, i, j);
    EdgeIsPlanned(naming, entities, i, j, u.value);
    FirstEdgeAdds(naming, entities, i, j, u.value, FindPrimaryField(entities[i]).value);
  }

  /** Every many-to-many edge with a known target has its join table, and between its own sides
      exactly if the first edge to name the table has them. */
  lemma {:induction false} ManyToManyEdgesArePlanned(naming: Naming, entities: seq<Entity>, i: nat, j: nat)
    requires IsEdge(entities, i, j) && entities[i].edges[j].kind.ManyToMany?
    requires entities[i].edges[j].through != "" || naming.joinTable(entities[i].name, entities[i].edges[j].target) != ""
    requires FindPrimaryField(entities[i]).Some? && IndexOf(entities, entities[i].edges[j].target).Some?
    requires FindPrimaryField(entities[IndexOf(entities, entities[i].edges[j].target).value]).Some?
    ensures var e, joins := entities[i].edges[j], Walk(naming, entities, |entities|).joins;
      var name := if e.through != "" then e.through else naming.joinTable(entities[i].name, e.target);
      var l, r :=
        FindPrimaryField(entities[i]).value, FindPrimaryField(entities[IndexOf(entities, e.target).value]).value;
      var lc := if l.column != "" then l.column else naming.snake(l.name);
      var rc := if r.column != "" then r.column else naming.snake(r.name);
      var join := JoinTable(
        name,
        JoinColumn(naming.snake(entities[i].name) + "_" + lc, naming.pluralize(entities[i].name), lc, l, e.onDelete,
          e.onUpdate),
        JoinColumn(naming.snake(e.target) + "_" + rc, naming.pluralize(e.target), rc, r, e.onDelete, e.onUpdate));
      && name in joins
      && (joins[name] == join <==> FirstJoin(naming, entities, name) == Some(join))
  {
    hide FindPrimaryField, IndexOf, Walk, FirstJoin;
    var join := JoinAt(naming, entities, i, j);
    assert join.Some? && Asks(naming, entities, i, j, TableNamed(join.value.name));
    JoinsComeFromEdges(naming, entities, join.value.name);
  }

  // A column that two edges want for different keys

  /** At most one of two edges that want different keys on one column has its key. */
  lemma {:induction false} OneKeyPerColumn(naming: Naming, entities: seq<Entity>, i: nat, j: nat, a: nat, b: nat)
    requires IsEdge(entities, i, j) && IsEdge(entities, a, b)
    requires UseAt(naming, entities, i, j).Some? && UseAt(naming, entities, a, b).Some?
    ensures var u, w := UseAt(naming, entities, i, j).value, UseAt(naming, entities, a, b).value;
      var keys := Walk(naming, entities, |entities|).entries[u.entity].foreignKeys;
      u.entity == w.entity && u.column == w.column && u.key in keys && w.key in keys ==> u.key == w.key
  {
    hide UseAt, Walk;
    hide FirstKey;
    EdgeIsPlanned(naming, entities, i, j, UseAt(naming, entities, i, j).value);
    EdgeIsPlanned(naming, entities, a, b, UseAt(naming, entities, a, b).value);
  }

  /** A message with an author and a reader, both in column account_id. */
  function TwoTargets(): seq<Entity> {
    var id := Field("id", "id", "uuid", "string", true, false, false, false, "", [], false, None, false);
    var author := Edge("author", "account_id", "", "", "User", ToOne, false, false, "", "", "");
    [ Entity("Message", [id], [author, author.(name := "reader", target := "Bot")], []),
      Entity("User", [id], [], []), Entity("Bot", [id], [], [])]
  }

  lemma FindTargets()
    ensures IndexOf(TwoTargets(), "User") == Some(1) && IndexOf(TwoTargets(), "Bot") == Some(2)
  {
    var es := TwoTargets();
    assert es[..2][1] == es[1];
  }

  /** The reader's key is not planned: the only key of the column refers to the author's table. */
  lemma {:induction false} SecondTargetLoses(naming: Naming)
    requires naming.pluralize("User") != naming.pluralize("Bot")
    ensures var v := Walk(naming, TwoTargets(), 3).entries[0];
      && HasColumnFor(v, "account_id", TwoTargets()[0].edges[1])
      && (exists fk :: fk in v.foreignKeys && fk.column == "account_id")
      && forall fk :: fk in v.foreignKeys && fk.column == "account_id" ==>
        fk.targetTable == naming.pluralize("User") != naming.pluralize(TwoTargets()[0].edges[1].target)
  {
    var es := TwoTargets();
    FindTargets();
    hide Walk, Before, HasColumnFor, IndexOf;
    assert AsksFirst(naming, es, 0, 0, ColumnOn(0, "account_id"));
    var u := UseAt(naming, es, 0, 0).value;
    UseTakesEffect(naming, es, 0, 1, UseAt(naming, es, 0, 1).value);
    forall fk ensures fk in Walk(naming, es, 3).entries[0].foreignKeys && fk.column == "account_id" <==> fk == u.key {
      FirstEdgeDecides(naming, es, 0, 0, u, fk);
    }
  }
}
