/** What the migration plan (generator/migrations.go) keeps, whatever the entities and edges. */
module PlanTheorems {
  import opened Results
  import opened SchemaSnapshot
  import opened Entities
  import opened MigrationPlan

  ghost predicate DistinctColumns(naming: Naming, ent: Entity) {
    forall i, j :: 0 <= i < j < |ent.fields| ==>
      FieldColumn(naming, ent.fields[i]) != FieldColumn(naming, ent.fields[j])
  }

  /** fieldIndex is an exact index of the fields. */
  ghost predicate IndexExact(naming: Naming, v: Planned) {
    && Indexed(v)
    && (forall c :: c in v.fieldIndex ==> FieldColumn(naming, v.fields[v.fieldIndex[c]]) == c)
    && (forall k :: 0 <= k < |v.fields| ==>
      FieldColumn(naming, v.fields[k]) in v.fieldIndex && v.fieldIndex[FieldColumn(naming, v.fields[k])] == k)
  }

  /** `f'` is `f`, possibly made nullable or unique. */
  predicate OnlyRaised(f: Field, f': Field) {
    f' == f.(nullable := f'.nullable, isUnique := f'.isUnique) && (f.nullable ==> f'.nullable)
      && (f.isUnique ==> f'.isUnique)
  }

  /** The declared fields come first, the columns after them are not primary. */
  ghost predicate Declared(ent: Entity, v: Planned) {
    && |ent.fields| <= |v.fields|
    && (forall k :: 0 <= k < |ent.fields| ==> OnlyRaised(ent.fields[k], v.fields[k]))
    && (forall k :: |ent.fields| <= k < |v.fields| ==> !v.fields[k].isPrimary)
  }

  /** A table of the plan and one of the columns declared for it. */
  ghost predicate Resolves(naming: Naming, entities: seq<Entity>, table: string, column: string) {
    exists t, k ::
      0 <= t < |entities| && 0 <= k < |entities[t].fields| && ResolvesAt(naming, entities[t], k, table, column)
  }

  predicate ResolvesAt(naming: Naming, target: Entity, k: nat, table: string, column: string)
    requires k < |target.fields|
  {
    naming.pluralize(target.name) == table && FieldColumn(naming, target.fields[k]) == column
  }

  ghost predicate KeyOk(naming: Naming, entities: seq<Entity>, ent: Entity, v: Planned, fk: ForeignKey) {
    && fk.column in v.fieldIndex && fk.constraint == "fk_" + naming.pluralize(ent.name) + "_" + fk.column
    && Resolves(naming, entities, fk.targetTable, fk.targetColumn)
  }

  /** At most one foreign key per column, on a column of the table, to a column that exists. */
  ghost predicate KeysOk(naming: Naming, entities: seq<Entity>, ent: Entity, v: Planned) {
    && (forall i, j :: 0 <= i < j < |v.foreignKeys| ==> v.foreignKeys[i].column != v.foreignKeys[j].column)
    && (forall i :: 0 <= i < |v.foreignKeys| ==> v.foreignKeys[i].column in v.fkIndex)
    && (forall c :: c in v.fkIndex ==> exists i :: 0 <= i < |v.foreignKeys| && v.foreignKeys[i].column == c)
    && (forall i :: 0 <= i < |v.foreignKeys| ==> KeyOk(naming, entities, ent, v, v.foreignKeys[i]))
  }

  ghost predicate GoodEntry(naming: Naming, entities: seq<Entity>, ent: Entity, v: Planned) {
    IndexExact(naming, v) && Declared(ent, v) && KeysOk(naming, entities, ent, v)
  }

  ghost predicate JoinOk(naming: Naming, entities: seq<Entity>, join: JoinTable) {
    && Resolves(naming, entities, join.left.targetTable, join.left.targetColumn)
    && Resolves(naming, entities, join.right.targetTable, join.right.targetColumn)
  }

  ghost predicate GoodPlan(naming: Naming, entities: seq<Entity>, p: Plan) {
    && |p.entries| == |entities|
    && (forall k :: 0 <= k < |entities| ==> GoodEntry(naming, entities, entities[k], p.entries[k]))
    && (forall name :: name in p.joins ==> p.joins[name].name == name && JoinOk(naming, entities, p.joins[name]))
  }

  // One entry

  lemma {:induction false} ColumnIndexExact(naming: Naming, fields: seq<Field>)
    requires forall i, j :: 0 <= i < j < |fields| ==> FieldColumn(naming, fields[i]) != FieldColumn(naming, fields[j])
    ensures forall c :: c in ColumnIndex(naming, fields) ==>
      ColumnIndex(naming, fields)[c] < |fields| && FieldColumn(naming, fields[ColumnIndex(naming, fields)[c]]) == c
    ensures forall k :: 0 <= k < |fields| ==>
      FieldColumn(naming, fields[k]) in ColumnIndex(naming, fields)
        && ColumnIndex(naming, fields)[FieldColumn(naming, fields[k])] == k
  {
    if fields != [] { ColumnIndexExact(naming, fields[..|fields| - 1]); }
  }

  lemma InitialGood(naming: Naming, entities: seq<Entity>, ent: Entity)
    requires DistinctColumns(naming, ent)
    ensures GoodEntry(naming, entities, ent, Initial(naming, ent))
  {
    ColumnIndexExact(naming, ent.fields);
  }

  lemma RaisedIndex(naming: Naming, v: Planned, column: string, e: Edge)
    requires IndexExact(naming, v) && column in v.fieldIndex
    ensures IndexExact(naming,
      v.(fields := v.fields[v.fieldIndex[column] := Raised(v.fields[v.fieldIndex[column]], e)]))
  {
    var v' := v.(fields := v.fields[v.fieldIndex[column] := Raised(v.fields[v.fieldIndex[column]], e)]);
    assert forall k :: 0 <= k < |v.fields| ==> FieldColumn(naming, v'.fields[k]) == FieldColumn(naming, v.fields[k]);
    hide FieldColumn, Raised;
  }

  lemma AppendedIndex(naming: Naming, v: Planned, column: string, f: Field)
    requires IndexExact(naming, v) && column !in v.fieldIndex && FieldColumn(naming, f) == column
    ensures IndexExact(naming, v.(fields := v.fields + [f], fieldIndex := v.fieldIndex[column := |v.fields|]))
  {
    hide FieldColumn;
  }

  lemma ReferencedIndex(naming: Naming, v: Planned, column: string, f: Field, e: Edge, fk: ForeignKey)
    requires IndexExact(naming, v) && FieldColumn(naming, f) == column
    ensures IndexExact(naming, Referenced(v, column, f, e, fk))
  {
    if column in v.fieldIndex {
      RaisedIndex(naming, v, column, e);
    } else {
      AppendedIndex(naming, v, column, f);
    }
    hide FieldColumn, Raised;
  }

  lemma ReferencedDeclared(ent: Entity, v: Planned, column: string, f: Field, e: Edge, fk: ForeignKey)
    requires Indexed(v) && Declared(ent, v) && !f.isPrimary
    ensures Declared(ent, Referenced(v, column, f, e, fk))
  {
  }

  lemma ReferencedKeys(naming: Naming, entities: seq<Entity>, ent: Entity, v: Planned, column: string, f: Field,
      e: Edge, fk: ForeignKey)
    requires Indexed(v) && KeysOk(naming, entities, ent, v) && fk.column == column
    requires fk.constraint == "fk_" + naming.pluralize(ent.name) + "_" + column
    requires Resolves(naming, entities, fk.targetTable, fk.targetColumn)
    ensures KeysOk(naming, entities, ent, Referenced(v, column, f, e, fk))
  {
    hide Resolves;
    var v' := Referenced(v, column, f, e, fk);
    assert forall c :: c in v.fieldIndex ==> c in v'.fieldIndex;
    forall i | 0 <= i < |v'.foreignKeys| ensures KeyOk(naming, entities, ent, v', v'.foreignKeys[i]) {
      assert i < |v.foreignKeys| ==> KeyOk(naming, entities, ent, v, v.foreignKeys[i]);
    }
    forall c | c in v'.fkIndex ensures exists i :: 0 <= i < |v'.foreignKeys| && v'.foreignKeys[i].column == c {
      if c in v.fkIndex {
        var i :| 0 <= i < |v.foreignKeys| && v.foreignKeys[i].column == c;
        assert v'.foreignKeys[i].column == c;
      } else {
        assert v'.foreignKeys[|v.foreignKeys|].column == c;
      }
    }
  }

  lemma {:induction false} FirstPrimaryDeclared(fields: seq<Field>)
    ensures FirstPrimary(fields).Some? ==> FirstPrimary(fields).value in fields
  {
    if fields != [] { FirstPrimaryDeclared(fields[1..]); }
  }

  lemma PrimaryResolves(naming: Naming, entities: seq<Entity>, t: nat)
    requires t < |entities| && FindPrimaryField(entities[t]).Some?
    ensures Resolves(naming, entities, naming.pluralize(entities[t].name),
      FieldColumn(naming, FindPrimaryField(entities[t]).value))
  {
    var target := entities[t];
    FirstPrimaryDeclared(target.fields);
    var f := FindPrimaryField(target).value;
    assert f in target.fields;
    var k :| 0 <= k < |target.fields| && target.fields[k] == f;
    assert ResolvesAt(naming, target, k, naming.pluralize(target.name), FieldColumn(naming, f));
  }

  lemma ReferencedGood(naming: Naming, entities: seq<Entity>, ent: Entity, v: Planned, column: string, t: nat,
      targetName: string, referenced: Field, e: Edge)
    requires GoodEntry(naming, entities, ent, v) && column != "" && t < |entities| && entities[t].name == targetName
    requires FindPrimaryField(entities[t]) == Some(referenced)
    ensures GoodEntry(naming, entities, ent,
      Referenced(v, column, ForeignKeyField(column, referenced, e), e,
        KeyTo(naming, naming.pluralize(ent.name), column, targetName, referenced, e)))
  {
    var f, fk :=
      ForeignKeyField(column, referenced, e),
      KeyTo(naming, naming.pluralize(ent.name), column, targetName, referenced, e);
    PrimaryResolves(naming, entities, t);
    hide Resolves, FindPrimaryField;
    ReferencedIndex(naming, v, column, f, e, fk);
    ReferencedDeclared(ent, v, column, f, e, fk);
    hide IndexExact, Declared, KeysOk;
    ReferencedKeys(naming, entities, ent, v, column, f, e, fk);
  }

  lemma ToOneGood(naming: Naming, entities: seq<Entity>, ent: Entity, v: Planned, t: nat, e: Edge)
    requires Indexed(v) && GoodEntry(naming, entities, ent, v) && t < |entities| && entities[t].name == e.target
    ensures GoodEntry(naming, entities, ent, WithToOne(naming, v, ent, entities[t], e))
  {
    hide GoodEntry, FindPrimaryField, EdgeColumn, Referenced, KeyTo, ForeignKeyField;
    var primary, column := FindPrimaryField(entities[t]), EdgeColumn(naming, e);
    if primary.Some? && column != "" {
      ReferencedGood(naming, entities, ent, v, column, t, e.target, primary.value, e);
    }
  }

  lemma ToManyGood(naming: Naming, entities: seq<Entity>, i: nat, v: Planned, t: nat, e: Edge, primary: Field)
    requires i < |entities| && t < |entities| && Indexed(v) && GoodEntry(naming, entities, entities[t], v)
    requires FindPrimaryField(entities[i]) == Some(primary)
    ensures GoodEntry(naming, entities, entities[t], WithToMany(naming, v, entities[t], entities[i], e, primary))
  {
    hide GoodEntry, FindPrimaryField, ResolveForeignKeyColumn, Referenced, KeyTo, ForeignKeyField;
    var column := ResolveForeignKeyColumn(naming, v, entities[t], entities[i], e, primary);
    if column != "" {
      ReferencedGood(naming, entities, entities[t], v, column, i, entities[i].name, primary, e);
    }
  }

  lemma JoinGood(naming: Naming, entities: seq<Entity>, joins: map<string, JoinTable>, i: nat, t: nat, e: Edge,
      primary: Field, name: string)
    requires i < |entities| && t < |entities| && entities[t].name == e.target
    requires FindPrimaryField(entities[i]) == Some(primary)
    requires name in WithJoin(naming, joins, entities[i], entities[t], e, primary)
    requires name in joins ==> joins[name].name == name && JoinOk(naming, entities, joins[name])
    ensures var joins' := WithJoin(naming, joins, entities[i], entities[t], e, primary);
      joins'[name].name == name && JoinOk(naming, entities, joins'[name])
  {
    PrimaryResolves(naming, entities, i);
    if FindPrimaryField(entities[t]).Some? { PrimaryResolves(naming, entities, t); }
    hide Resolves, FindPrimaryField, FieldColumn;
  }

  // The whole plan

  lemma EntryReplaced(naming: Naming, entities: seq<Entity>, p: Plan, k: nat, v: Planned)
    requires GoodPlan(naming, entities, p) && k < |entities| && GoodEntry(naming, entities, entities[k], v)
    ensures GoodPlan(naming, entities, p.(entries := p.entries[k := v]))
  {
    hide GoodEntry, JoinOk;
  }

  lemma JoinsReplaced(naming: Naming, entities: seq<Entity>, p: Plan, i: nat, t: nat, e: Edge, primary: Field)
    requires GoodPlan(naming, entities, p) && i < |entities| && t < |entities| && entities[t].name == e.target
    requires FindPrimaryField(entities[i]) == Some(primary)
    ensures GoodPlan(naming, entities, p.(joins := WithJoin(naming, p.joins, entities[i], entities[t], e, primary)))
  {
    hide GoodEntry, JoinOk, WithJoin, FindPrimaryField;
    var joins := WithJoin(naming, p.joins, entities[i], entities[t], e, primary);
    forall name | name in joins ensures joins[name].name == name && JoinOk(naming, entities, joins[name]) {
      JoinGood(naming, entities, p.joins, i, t, e, primary, name);
    }
  }

  lemma StepGood(naming: Naming, entities: seq<Entity>, p: Plan, i: nat, e: Edge, primary: Field)
    requires i < |entities| && AllIndexed(entities, p) && GoodPlan(naming, entities, p)
    requires FindPrimaryField(entities[i]) == Some(primary)
    ensures GoodPlan(naming, entities, Step(naming, entities, p, i, e, primary))
  {
    var t := IndexOf(entities, e.target);
    if t.Some? {
      assert GoodEntry(naming, entities, entities[i], p.entries[i]);
      assert GoodEntry(naming, entities, entities[t.value], p.entries[t.value]);
      hide GoodEntry, GoodPlan, FindPrimaryField, WithToOne, WithToMany, WithJoin, IndexOf, Indexed;
      match e.kind
      case ToOne =>
        ToOneGood(naming, entities, entities[i], p.entries[i], t.value, e);
        EntryReplaced(naming, entities, p, i, WithToOne(naming, p.entries[i], entities[i], entities[t.value], e));
      case ToMany =>
        ToManyGood(naming, entities, i, p.entries[t.value], t.value, e, primary);
        EntryReplaced(naming, entities, p, t.value,
          WithToMany(naming, p.entries[t.value], entities[t.value], entities[i], e, primary));
      case ManyToMany => JoinsReplaced(naming, entities, p, i, t.value, e, primary);
      case OtherKind =>
    }
  }

  lemma {:induction false} EdgesGood(naming: Naming, entities: seq<Entity>, p: Plan, i: nat, j: nat)
    requires i < |entities| && j <= |entities[i].edges| && AllIndexed(entities, p) && GoodPlan(naming, entities, p)
    ensures GoodPlan(naming, entities, Edges(naming, entities, p, i, j))
  {
    hide GoodPlan, Step, AllIndexed, FindPrimaryField;
    var primary := FindPrimaryField(entities[i]);
    if j > 0 && primary.Some? {
      EdgesGood(naming, entities, p, i, j - 1);
      StepGood(naming, entities, Edges(naming, entities, p, i, j - 1), i, entities[i].edges[j - 1], primary.value);
    }
  }

  lemma StartGood(naming: Naming, entities: seq<Entity>)
    requires forall k :: 0 <= k < |entities| ==> DistinctColumns(naming, entities[k])
    ensures GoodPlan(naming, entities, Start(naming, entities))
  {
    hide GoodEntry, Initial, DistinctColumns, Indexed;
    forall k | 0 <= k < |entities|
      ensures GoodEntry(naming, entities, entities[k], Start(naming, entities).entries[k])
    {
      InitialGood(naming, entities, entities[k]);
    }
  }

  /** For all entities with distinct columns, after any number of them: exact indexes, declared
      fields first and only raised, one foreign key per column, and every reference resolves. */
  lemma {:induction false} PlanIsGood(naming: Naming, entities: seq<Entity>, n: nat)
    requires n <= |entities| && forall k :: 0 <= k < |entities| ==> DistinctColumns(naming, entities[k])
    ensures GoodPlan(naming, entities, Walk(naming, entities, n))
  {
    hide GoodPlan, Edges, Start, DistinctColumns, AllIndexed;
    if n == 0 {
      StartGood(naming, entities);
    } else {
      PlanIsGood(naming, entities, n - 1);
      EdgesGood(naming, entities, Walk(naming, entities, n - 1), n - 1, |entities[n - 1].edges|);
    }
  }

  /** What a reference resolves to is a column of a planned table. */
  lemma {:induction false} ResolvedColumnIsPlanned(naming: Naming, entities: seq<Entity>, p: Plan, table: string,
      column: string)
    returns (t: nat)
    requires GoodPlan(naming, entities, p) && Resolves(naming, entities, table, column)
    ensures t < |entities| && naming.pluralize(entities[t].name) == table && column in p.entries[t].fieldIndex
  {
    var t', k :| 0 <= t' < |entities| && 0 <= k < |entities[t'].fields|
      && ResolvesAt(naming, entities[t'], k, table, column);
    t := t';
    assert GoodEntry(naming, entities, entities[t], p.entries[t]);
    hide KeysOk;
    assert OnlyRaised(entities[t].fields[k], p.entries[t].fields[k]);
  }

  // No edge is lost

  /** Entries only grow: columns stay where they are, keys stay, flags are only raised. */
  ghost predicate Grows(v: Planned, v': Planned) {
    && |v.fields| <= |v'.fields| && (forall k :: 0 <= k < |v.fields| ==> OnlyRaised(v.fields[k], v'.fields[k]))
    && (forall c :: c in v.fieldIndex ==> c in v'.fieldIndex && v'.fieldIndex[c] == v.fieldIndex[c])
    && v.foreignKeys <= v'.foreignKeys && v.fkIndex <= v'.fkIndex
  }

  lemma GrowsTransitive(a: Planned, b: Planned, c: Planned)
    requires Grows(a, b) && Grows(b, c)
    ensures Grows(a, c)
  {
    forall k | 0 <= k < |a.fields| ensures OnlyRaised(a.fields[k], c.fields[k]) {
      assert OnlyRaised(a.fields[k], b.fields[k]) && OnlyRaised(b.fields[k], c.fields[k]);
    }
  }

  lemma ReferencedGrows(v: Planned, column: string, f: Field, e: Edge, fk: ForeignKey)
    requires Indexed(v)
    ensures Grows(v, Referenced(v, column, f, e, fk))
  {
  }

  lemma StepGrows(naming: Naming, entities: seq<Entity>, p: Plan, i: nat, e: Edge, primary: Field, k: nat)
    requires i < |entities| && AllIndexed(entities, p) && k < |entities|
    ensures Grows(p.entries[k], Step(naming, entities, p, i, e, primary).entries[k])
    ensures p.joins.Keys <= Step(naming, entities, p, i, e, primary).joins.Keys
  {
    GrowsSame(p.entries[k]);
    hide Grows, Referenced, FindPrimaryField, EdgeColumn, ResolveForeignKeyColumn, KeyTo, ForeignKeyField, JoinSide,
      IndexOf;
    forall column, f, e', fk ensures Grows(p.entries[k], Referenced(p.entries[k], column, f, e', fk)) {
      ReferencedGrows(p.entries[k], column, f, e', fk);
    }
  }

  lemma GrowsSame(v: Planned)
    ensures Grows(v, v)
  {
  }

  lemma {:induction false} EdgesGrow(naming: Naming, entities: seq<Entity>, p: Plan, i: nat, lo: nat, hi: nat, k: nat)
    requires i < |entities| && lo <= hi <= |entities[i].edges| && AllIndexed(entities, p) && k < |entities|
    ensures Grows(Edges(naming, entities, p, i, lo).entries[k], Edges(naming, entities, p, i, hi).entries[k])
    ensures Edges(naming, entities, p, i, lo).joins.Keys <= Edges(naming, entities, p, i, hi).joins.Keys
    decreases hi
  {
    GrowsSame(Edges(naming, entities, p, i, hi).entries[k]);
    hide Grows, Step, AllIndexed, FindPrimaryField;
    var primary := FindPrimaryField(entities[i]);
    if lo < hi && primary.Some? {
      var before := Edges(naming, entities, p, i, hi - 1);
      EdgesGrow(naming, entities, p, i, lo, hi - 1, k);
      StepGrows(naming, entities, before, i, entities[i].edges[hi - 1], primary.value, k);
      GrowsTransitive(Edges(naming, entities, p, i, lo).entries[k], before.entries[k],
        Edges(naming, entities, p, i, hi).entries[k]);
    }
  }

  lemma {:induction false} WalkGrows(naming: Naming, entities: seq<Entity>, lo: nat, hi: nat, k: nat)
    requires lo <= hi <= |entities| && k < |entities|
    ensures Grows(Walk(naming, entities, lo).entries[k], Walk(naming, entities, hi).entries[k])
    ensures Walk(naming, entities, lo).joins.Keys <= Walk(naming, entities, hi).joins.Keys
    decreases hi
  {
    GrowsSame(Walk(naming, entities, hi).entries[k]);
    hide Grows, AllIndexed, Start;
    if lo < hi {
      WalkGrows(naming, entities, lo, hi - 1, k);
      var p, n := Walk(naming, entities, hi - 1), |entities[hi - 1].edges|;
      assert Edges(naming, entities, p, hi - 1, 0) == p;
      EdgesGrow(naming, entities, p, hi - 1, 0, n, k);
      hide Edges;
      GrowsTransitive(Walk(naming, entities, lo).entries[k], p.entries[k], Walk(naming, entities, hi).entries[k]);
    }
  }

  /** The column has a foreign key, and is nullable and unique if the edge is. */
  ghost predicate HasColumnFor(v: Planned, column: string, e: Edge) {
    && column in v.fieldIndex && v.fieldIndex[column] < |v.fields| && column in v.fkIndex
    && (e.nullable ==> v.fields[v.fieldIndex[column]].nullable)
    && (e.unique ==> v.fields[v.fieldIndex[column]].isUnique)
  }

  lemma ReferencedHas(v: Planned, column: string, f: Field, e: Edge, fk: ForeignKey)
    requires Indexed(v) && f.nullable == e.nullable && f.isUnique == e.unique
    ensures HasColumnFor(Referenced(v, column, f, e, fk), column, e)
  {
  }

  lemma GrowsKeeps(v: Planned, v': Planned, column: string, e: Edge)
    requires Grows(v, v') && HasColumnFor(v, column, e)
    ensures HasColumnFor(v', column, e)
  {
    assert OnlyRaised(v.fields[v.fieldIndex[column]], v'.fields[v.fieldIndex[column]]);
  }

  /** The plan when edge j of entity i is reached. */
  function Before(naming: Naming, entities: seq<Entity>, i: nat, j: nat): (p: Plan)
    requires i < |entities| && j <= |entities[i].edges|
    ensures AllIndexed(entities, p)
  {
    Edges(naming, entities, Walk(naming, entities, i), i, j)
  }

  /** What an entry has after edge j of entity i stays to the end. */
  lemma EdgeIsKept(naming: Naming, entities: seq<Entity>, i: nat, j: nat, k: nat)
    requires i < |entities| && j < |entities[i].edges| && k < |entities|
    ensures Grows(Before(naming, entities, i, j + 1).entries[k], Walk(naming, entities, |entities|).entries[k])
  {
    hide Grows, Indexed, Start, Step, FindPrimaryField;
    var p, n := Walk(naming, entities, i), |entities[i].edges|;
    EdgesGrow(naming, entities, p, i, j + 1, n, k);
    assert Walk(naming, entities, i + 1) == Edges(naming, entities, p, i, n);
    WalkGrows(naming, entities, i + 1, |entities|, k);
    GrowsTransitive(
      Edges(naming, entities, p, i, j + 1).entries[k], Walk(naming, entities, i + 1).entries[k],
      Walk(naming, entities, |entities|).entries[k]);
  }
}
