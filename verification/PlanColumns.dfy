/** What the columns of a planned table are: their names, types and flags
    (generator/migrations.go). */
module PlanColumns {
  import opened Results
  import opened SchemaSnapshot
  import opened Entities
  import opened MigrationPlan
  import opened PlanTheorems
  import opened PlanProvenance

  // Names

  /** The column of a field is its explicit one, or else its name in snake case. */
  ghost predicate ColumnOfField(naming: Naming, f: Field, column: string) {
    column == if f.column != "" then f.column else naming.snake(f.name)
  }

  /** The primary field of an entity is the first that is marked so, or else the first of all. */
  ghost predicate IsPrimaryOf(ent: Entity, k: nat) {
    && k < |ent.fields|
    && if exists f :: f in ent.fields && f.isPrimary then
        ent.fields[k].isPrimary && forall i :: 0 <= i < k ==> !ent.fields[i].isPrimary
      else k == 0
  }

  lemma {:induction false} FirstPrimaryAt(fields: seq<Field>) returns (k: nat)
    ensures FirstPrimary(fields).Some? <==> exists f :: f in fields && f.isPrimary
    ensures FirstPrimary(fields).Some? ==>
      && k < |fields| && FirstPrimary(fields) == Some(fields[k]) && fields[k].isPrimary
      && forall i :: 0 <= i < k ==> !fields[i].isPrimary
  {
    k := 0;
    if fields != [] && !fields[0].isPrimary {
      var l := FirstPrimaryAt(fields[1..]);
      assert fields == [fields[0]] + fields[1..];
      k := l + 1;
    }
  }

  lemma PrimaryExact(ent: Entity) returns (k: nat)
    ensures FindPrimaryField(ent).Some? <==> ent.fields != []
    ensures ent.fields != [] ==> IsPrimaryOf(ent, k) && FindPrimaryField(ent) == Some(ent.fields[k])
  {
    k := FirstPrimaryAt(ent.fields);
    if FirstPrimary(ent.fields).None? { k := 0; }
  }

  // Flags

  /** An edge before the position asks for the column, and is nullable (or unique). */
  ghost predicate NullableBefore(naming: Naming, entities: seq<Entity>, i: nat, j: nat, w: Wanted) {
    exists a: nat, b: nat ::
      Precedes(entities, a, b, i, j) && Asks(naming, entities, a, b, w) && entities[a].edges[b].nullable
  }

  ghost predicate UniqueBefore(naming: Naming, entities: seq<Entity>, i: nat, j: nat, w: Wanted) {
    exists a: nat, b: nat ::
      Precedes(entities, a, b, i, j) && Asks(naming, entities, a, b, w) && entities[a].edges[b].unique
  }

  ghost predicate DeclaredNullable(naming: Naming, ent: Entity, column: string) {
    exists f :: f in ent.fields && FieldColumn(naming, f) == column && f.nullable
  }

  ghost predicate DeclaredUnique(naming: Naming, ent: Entity, column: string) {
    exists f :: f in ent.fields && FieldColumn(naming, f) == column && f.isUnique
  }

  /** A column is nullable (or unique) exactly if its declared field or an edge that asks for it is. */
  ghost predicate Flags(naming: Naming, entities: seq<Entity>, v: Planned, i: nat, j: nat, k: nat, column: string)
    requires k < |entities| && Indexed(v)
  {
    column in v.fieldIndex ==>
      var f := v.fields[v.fieldIndex[column]];
      && (f.nullable <==>
        DeclaredNullable(naming, entities[k], column) || NullableBefore(naming, entities, i, j, ColumnOn(k, column)))
      && (f.isUnique <==>
        DeclaredUnique(naming, entities[k], column) || UniqueBefore(naming, entities, i, j, ColumnOn(k, column)))
  }

  lemma FlagsBeforeStep(naming: Naming, entities: seq<Entity>, i: nat, j: nat, w: Wanted)
    requires IsEdge(entities, i, j)
    ensures var e := entities[i].edges[j];
      && (NullableBefore(naming, entities, i, j + 1, w) <==>
        NullableBefore(naming, entities, i, j, w) || (Asks(naming, entities, i, j, w) && e.nullable))
      && (UniqueBefore(naming, entities, i, j + 1, w) <==>
        UniqueBefore(naming, entities, i, j, w) || (Asks(naming, entities, i, j, w) && e.unique))
  {
    hide Asks;
    forall a: nat, b: nat ensures Precedes(entities, a, b, i, j + 1) <==>
      Precedes(entities, a, b, i, j) || (a == i && b == j) {}
    if Asks(naming, entities, i, j, w) { assert Precedes(entities, i, j, i, j + 1); }
  }

  lemma NobodyBefore(naming: Naming, entities: seq<Entity>, i: nat, j: nat, w: Wanted)
    requires !AskedBefore(naming, entities, i, j, w)
    ensures !NullableBefore(naming, entities, i, j, w) && !UniqueBefore(naming, entities, i, j, w)
  {
    hide Asks;
  }

  lemma NotDeclared(naming: Naming, ent: Entity, column: string)
    requires !DeclaresColumn(naming, ent, column)
    ensures !DeclaredNullable(naming, ent, column) && !DeclaredUnique(naming, ent, column)
  {
    hide FieldColumn;
  }

  lemma FlagsElsewhere(naming: Naming, v: Planned, column: string, u: Use, e: Edge)
    requires IndexExact(naming, v) && u.column != column && column in v.fieldIndex
    ensures var v' := Referenced(v, u.column, u.field, e, u.key);
      && column in v'.fieldIndex && v'.fieldIndex[column] < |v'.fields|
      && v'.fields[v'.fieldIndex[column]] == v.fields[v.fieldIndex[column]]
  {
    hide FieldColumn;
  }

  lemma OtherColumn(v: Planned, column: string, u: Use, e: Edge)
    requires Indexed(v) && u.column != column && column !in v.fieldIndex
    ensures column !in Referenced(v, u.column, u.field, e, u.key).fieldIndex
  {
  }

  lemma FlagsAgain(v: Planned, u: Use, e: Edge)
    requires Indexed(v) && u.field.nullable == e.nullable && u.field.isUnique == e.unique
    ensures var v' := Referenced(v, u.column, u.field, e, u.key);
      && u.column in v'.fieldIndex && v'.fieldIndex[u.column] < |v'.fields|
      && var f := v'.fields[v'.fieldIndex[u.column]];
        if u.column in v.fieldIndex then
          var o := v.fields[v.fieldIndex[u.column]];
          (f.nullable <==> o.nullable || e.nullable) && (f.isUnique <==> o.isUnique || e.unique)
        else f.nullable == e.nullable && f.isUnique == e.unique
  {
  }

  lemma AsksColumn(naming: Naming, entities: seq<Entity>, i: nat, j: nat, k: nat, column: string)
    requires IsEdge(entities, i, j)
    ensures Asks(naming, entities, i, j, ColumnOn(k, column)) <==>
      var use := UseAt(naming, entities, i, j); use.Some? && use.value.entity == k && use.value.column == column
  {
  }

  lemma FlagsStep(naming: Naming, entities: seq<Entity>, i: nat, j: nat, k: nat, column: string)
    requires IsEdge(entities, i, j) && k < |entities|
    requires IndexExact(naming, Before(naming, entities, i, j).entries[k])
    requires Flags(naming, entities, Before(naming, entities, i, j).entries[k], i, j, k, column)
    ensures Flags(naming, entities, Before(naming, entities, i, j + 1).entries[k], i, j + 1, k, column)
  {
    hide UseAt, JoinAt, Referenced, Before, NullableBefore, UniqueBefore, DeclaredNullable, DeclaredUnique, Asks,
      IndexExact;
    hide AskedBefore, DeclaresColumn;
    var v, v' := Before(naming, entities, i, j).entries[k], Before(naming, entities, i, j + 1).entries[k];
    var use, e := UseAt(naming, entities, i, j), entities[i].edges[j];
    EdgeAdds(naming, entities, i, j);
    FlagsBeforeStep(naming, entities, i, j, ColumnOn(k, column));
    PlannedBefore(naming, entities, i, j, k, column);
    AsksColumn(naming, entities, i, j, k, column);
    if column !in v.fieldIndex {
      NobodyBefore(naming, entities, i, j, ColumnOn(k, column));
      NotDeclared(naming, entities[k], column);
    }
    if use.Some? && use.value.entity == k {
      if use.value.column == column {
        FlagsAgain(v, use.value, e);
      } else if column in v.fieldIndex {
        FlagsElsewhere(naming, v, column, use.value, e);
      } else {
        OtherColumn(v, column, use.value, e);
      }
    }
  }

  lemma GoodBefore(naming: Naming, entities: seq<Entity>, i: nat, j: nat, k: nat)
    requires IsPosition(entities, i, j) && k < |entities|
    requires forall l :: 0 <= l < |entities| ==> DistinctColumns(naming, entities[l])
    ensures IndexExact(naming, PlanAt(naming, entities, i, j).entries[k])
  {
    PlanIsGood(naming, entities, i);
    if i < |entities| { EdgesGood(naming, entities, Walk(naming, entities, i), i, j); }
    hide Walk, Edges, IndexExact, Declared, KeysOk, DistinctColumns, JoinOk;
    assert GoodPlan(naming, entities, PlanAt(naming, entities, i, j));
    assert GoodEntry(naming, entities, entities[k], PlanAt(naming, entities, i, j).entries[k]);
  }

  lemma FlagsStart(naming: Naming, entities: seq<Entity>, k: nat, column: string)
    requires k < |entities| && DistinctColumns(naming, entities[k])
    ensures Indexed(Initial(naming, entities[k]))
    ensures Flags(naming, entities, Initial(naming, entities[k]), 0, 0, k, column)
  {
    var ent := entities[k];
    InitialIndexed(naming, entities);
    ColumnIndexExact(naming, ent.fields);
    hide ColumnIndex, FieldColumn, Asks;
    if column in Initial(naming, ent).fieldIndex {
      var x := Initial(naming, ent).fieldIndex[column];
      assert ent.fields[x] in ent.fields;
      forall f | f in ent.fields && FieldColumn(naming, f) == column ensures f == ent.fields[x] {
        var y :| 0 <= y < |ent.fields| && ent.fields[y] == f;
      }
    }
  }

  lemma {:induction false} FlagsAt(naming: Naming, entities: seq<Entity>, i: nat, j: nat, k: nat, column: string)
    requires IsPosition(entities, i, j) && k < |entities|
    requires forall l :: 0 <= l < |entities| ==> DistinctColumns(naming, entities[l])
    ensures Flags(naming, entities, PlanAt(naming, entities, i, j).entries[k], i, j, k, column)
    decreases i, j
  {
    hide Flags, UseAt, JoinAt, Before, Asks, DistinctColumns, IndexExact;
    if j > 0 {
      FlagsAt(naming, entities, i, j - 1, k, column);
      GoodBefore(naming, entities, i, j - 1, k);
      FlagsStep(naming, entities, i, j - 1, k, column);
    } else if i > 0 {
      FlagsAt(naming, entities, i - 1, |entities[i - 1].edges|, k, column);
      NextEntity(naming, entities, i - 1);
      FlagsNext(naming, entities, PlanAt(naming, entities, i, 0).entries[k], i - 1, k, column);
    } else {
      NoJoins(naming, entities);
      ColumnStarts(naming, entities, k, column);
      FlagsStart(naming, entities, k, column);
    }
  }

  lemma FlagsNext(naming: Naming, entities: seq<Entity>, v: Planned, i: nat, k: nat, column: string)
    requires i < |entities| && k < |entities| && Indexed(v)
    requires Flags(naming, entities, v, i, |entities[i].edges|, k, column)
    ensures Flags(naming, entities, v, i + 1, 0, k, column)
  {
    hide Asks, DeclaredNullable, DeclaredUnique;
    assert forall a: nat, b: nat :: Precedes(entities, a, b, i + 1, 0) <==>
      Precedes(entities, a, b, i, |entities[i].edges|);
  }

  /** Every planned column is nullable (or unique) exactly if its declared field or an edge that asks
      for it is. */
  lemma {:induction false} FlagsAreExact(naming: Naming, entities: seq<Entity>, k: nat, column: string)
    requires k < |entities| && forall l :: 0 <= l < |entities| ==> DistinctColumns(naming, entities[l])
    ensures var v := Walk(naming, entities, |entities|).entries[k];
      column in v.fieldIndex ==>
        var f := v.fields[v.fieldIndex[column]];
        && (f.nullable <==>
          || (exists d :: d in entities[k].fields && FieldColumn(naming, d) == column && d.nullable)
          || (exists i: nat, j: nat ::
            IsEdge(entities, i, j) && Asks(naming, entities, i, j, ColumnOn(k, column))
              && entities[i].edges[j].nullable))
        && (f.isUnique <==>
          || (exists d :: d in entities[k].fields && FieldColumn(naming, d) == column && d.isUnique)
          || (exists i: nat, j: nat ::
            IsEdge(entities, i, j) && Asks(naming, entities, i, j, ColumnOn(k, column)) && entities[i].edges[j].unique))
  {
    FlagsAt(naming, entities, |entities|, 0, k, column);
    hide Walk, Asks, FieldColumn;
    assert forall i: nat, j: nat :: IsEdge(entities, i, j) <==> Precedes(entities, i, j, |entities|, 0);
  }
}
