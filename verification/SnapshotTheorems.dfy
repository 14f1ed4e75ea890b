/** When the snapshot of the entities is well formed, so that the migration theorems apply. */
module SnapshotTheorems {
  import opened Names
  import opened Results
  import opened SchemaSnapshot
  import opened Database
  import opened Entities
  import opened MigrationPlan
  import opened PlanTheorems
  import opened SnapshotNormal
  import opened SnapshotBuild
  import Migration
  import MigrationFaithful

  // The conditions on the entities

  /** No two tables of one name, be they of entities or join tables. */
  ghost predicate TableNamesDistinct(naming: Naming, entities: seq<Entity>, p: Plan) {
    && (forall i, j :: 0 <= i < j < |entities| ==>
      naming.pluralize(entities[i].name) != naming.pluralize(entities[j].name))
    && (forall k :: 0 <= k < |entities| ==> naming.pluralize(entities[k].name) !in p.joins)
  }

  /** No two indexes of one name, and indexes are on planned columns. */
  ghost predicate IndexesFit(entities: seq<Entity>, p: Plan)
    requires |p.entries| == |entities|
  {
    && (forall k, i, j :: 0 <= k < |entities| && 0 <= i < j < |entities[k].indexes| ==>
      entities[k].indexes[i].name != entities[k].indexes[j].name)
    && (forall k, l, a, b ::
      0 <= k < |entities| && 0 <= l < |entities| && k != l && a in entities[k].indexes && b in entities[l].indexes ==>
      a.name != b.name)
    && (forall k, a, c :: 0 <= k < |entities| && a in entities[k].indexes && c in a.columns ==>
      c in p.entries[k].fieldIndex)
  }

  /** The two columns of a join table have different names. */
  ghost predicate JoinColumnsDistinct(p: Plan) {
    forall n :: n in p.joins ==> p.joins[n].left.column != p.joins[n].right.column
  }

  ghost predicate Buildable(naming: Naming, entities: seq<Entity>, p: Plan)
    requires |p.entries| == |entities|
  {
    TableNamesDistinct(naming, entities, p) && IndexesFit(entities, p) && JoinColumnsDistinct(p)
  }

  // Tables of entities

  lemma {:induction false} ColumnNames(cs: seq<Column>)
    ensures forall n :: n in ColumnsByName(cs) <==> exists i :: 0 <= i < |cs| && cs[i].name == n
  {
    if cs != [] {
      ColumnNames(cs[..|cs| - 1]);
      assert cs == cs[..|cs| - 1] + [cs[|cs| - 1]];
    }
  }

  /** The columns of the table are those of the index. */
  lemma PlannedColumns(naming: Naming, ent: Entity, v: Planned)
    requires IndexExact(naming, v)
    ensures Columns(TableOf(naming, ent, v)).Keys == v.fieldIndex.Keys
    ensures forall i, j :: 0 <= i < j < |v.fields| ==>
      FieldColumn(naming, v.fields[i]) != FieldColumn(naming, v.fields[j])
  {
    var cs := ColumnsOf(naming, v.fields);
    ColumnNames(cs);
    forall c | c in v.fieldIndex ensures c in ColumnsByName(cs) {
      assert cs[v.fieldIndex[c]].name == c;
    }
    forall c | c in ColumnsByName(cs) ensures c in v.fieldIndex {
      var i :| 0 <= i < |cs| && cs[i].name == c;
      assert FieldColumn(naming, v.fields[i]) in v.fieldIndex;
    }
  }

  lemma {:induction false} PrimaryColumnsPlanned(naming: Naming, fields: seq<Field>)
    ensures forall c :: c in PrimaryColumns(naming, fields) ==>
      exists k :: 0 <= k < |fields| && FieldColumn(naming, fields[k]) == c
    ensures HypertableOf(naming, fields) != "" ==>
      exists k :: 0 <= k < |fields| && FieldColumn(naming, fields[k]) == HypertableOf(naming, fields)
  {
    if fields != [] {
      var init := fields[..|fields| - 1];
      PrimaryColumnsPlanned(naming, init);
      forall c | c in PrimaryColumns(naming, fields)
        ensures exists k :: 0 <= k < |fields| && FieldColumn(naming, fields[k]) == c
      {
        if c in PrimaryColumns(naming, init) {
          var k :| 0 <= k < |init| && FieldColumn(naming, init[k]) == c;
          assert fields[k] == init[k];
        } else {
          assert c == FieldColumn(naming, fields[|fields| - 1]);
        }
      }
      if !fields[|fields| - 1].timeseries && HypertableOf(naming, init) != "" {
        var k :| 0 <= k < |init| && FieldColumn(naming, init[k]) == HypertableOf(naming, init);
        assert fields[k] == init[k];
      } else {
        assert FieldColumn(naming, fields[|fields| - 1]) == FieldColumn(naming, fields[|fields| - 1]);
      }
    }
  }

  lemma ConstraintsDiffer(table: string, a: string, b: string)
    requires a != b
    ensures "fk_" + table + "_" + a != "fk_" + table + "_" + b
  {
    var x, y := "fk_" + table + "_" + a, "fk_" + table + "_" + b;
    assert x[|table| + 4..] == a && y[|table| + 4..] == b;
  }

  lemma KeysDistinct(naming: Naming, entities: seq<Entity>, ent: Entity, v: Planned)
    requires KeysOk(naming, entities, ent, v)
    ensures forall i, j :: 0 <= i < j < |v.foreignKeys| ==> v.foreignKeys[i].constraint != v.foreignKeys[j].constraint
    ensures forall k :: k in ForeignKeysByName(v.foreignKeys) ==>
      KeyOk(naming, entities, ent, v, ForeignKeysByName(v.foreignKeys)[k])
  {
    hide MigrationPlan.Indexed;
    forall i, j | 0 <= i < j < |v.foreignKeys| ensures v.foreignKeys[i].constraint != v.foreignKeys[j].constraint {
      assert KeyOk(naming, entities, ent, v, v.foreignKeys[i]) && KeyOk(naming, entities, ent, v, v.foreignKeys[j]);
      ConstraintsDiffer(naming.pluralize(ent.name), v.foreignKeys[i].column, v.foreignKeys[j].column);
    }
    ForeignKeyKeys(v.foreignKeys);
    forall k | k in ForeignKeysByName(v.foreignKeys)
      ensures KeyOk(naming, entities, ent, v, ForeignKeysByName(v.foreignKeys)[k])
    {
      var fk := ForeignKeysByName(v.foreignKeys)[k];
      var i :| 0 <= i < |v.foreignKeys| && v.foreignKeys[i] == fk;
    }
  }

  ghost predicate IndexesFitTable(ent: Entity, v: Planned) {
    && (forall i, j :: 0 <= i < j < |ent.indexes| ==> ent.indexes[i].name != ent.indexes[j].name)
    && (forall a, c :: a in ent.indexes && c in a.columns ==> c in v.fieldIndex)
  }

  lemma EntityTableKeys(naming: Naming, entities: seq<Entity>, ent: Entity, v: Planned)
    requires GoodEntry(naming, entities, ent, v)
    ensures var t := TableOf(naming, ent, v);
      && (forall c :: c in t.primaryKey ==> c in Columns(t))
      && (t.hypertableColumn == "" || t.hypertableColumn in Columns(t))
      && (forall i, j :: 0 <= i < j < |t.columns| ==> t.columns[i].name != t.columns[j].name)
  {
    PlannedColumns(naming, ent, v);
    PrimaryColumnsPlanned(naming, v.fields);
    hide KeysOk, Declared, ColumnsByName, PrimaryColumns, HypertableOf;
  }

  lemma EntityTableForeignKeys(naming: Naming, entities: seq<Entity>, ent: Entity, v: Planned)
    requires GoodEntry(naming, entities, ent, v)
    ensures var t := TableOf(naming, ent, v);
      && (forall i, j :: 0 <= i < j < |t.foreignKeys| ==> t.foreignKeys[i].constraint != t.foreignKeys[j].constraint)
      && (forall k :: k in ForeignKeys(t) ==> ForeignKeys(t)[k].column in Columns(t))
  {
    PlannedColumns(naming, ent, v);
    KeysDistinct(naming, entities, ent, v);
    hide KeysOk, Declared, ColumnsByName, PrimaryColumns, HypertableOf, ForeignKeysByName, ColumnsOf;
  }

  lemma EntityTableIndexes(naming: Naming, ent: Entity, v: Planned)
    requires IndexExact(naming, v)
    ensures var t := TableOf(naming, ent, v);
      (forall i, j :: 0 <= i < j < |t.indexes| ==> t.indexes[i].name != t.indexes[j].name) ==>
        ((forall i, c :: i in Indexes(t) && c in Indexes(t)[i].columns ==> c in Columns(t))
        <==> forall a, c :: a in ent.indexes && c in a.columns ==> c in v.fieldIndex)
  {
    PlannedColumns(naming, ent, v);
    IndexKeys(ent.indexes);
    var t := TableOf(naming, ent, v);
    assert Columns(t).Keys == v.fieldIndex.Keys && Indexes(t) == IndexesByName(ent.indexes);
    hide ColumnsByName, PrimaryColumns, HypertableOf, ColumnsOf, TableOf, Columns, IndexExact;
    if forall i, j :: 0 <= i < j < |ent.indexes| ==> ent.indexes[i].name != ent.indexes[j].name {
      IndexUnique(ent.indexes);
      hide IndexesByName;
      if forall i, c :: i in Indexes(t) && c in Indexes(t)[i].columns ==> c in Columns(t) {
        forall a, c | a in ent.indexes && c in a.columns ensures c in v.fieldIndex {
          assert a.name in Indexes(t) && Indexes(t)[a.name] == a;
        }
      }
    }
  }

  /** The table of an entity is well formed exactly when its indexes fit it. */
  lemma EntityTableWellFormed(naming: Naming, entities: seq<Entity>, ent: Entity, v: Planned)
    requires GoodEntry(naming, entities, ent, v)
    ensures WellFormedTable(TableOf(naming, ent, v)) <==> IndexesFitTable(ent, v)
  {
    EntityTableKeys(naming, entities, ent, v);
    EntityTableForeignKeys(naming, entities, ent, v);
    EntityTableIndexes(naming, ent, v);
    hide Columns, Indexes, ForeignKeys, PrimaryColumns, HypertableOf, ColumnsOf, GoodEntry;
  }

  // Join tables

  lemma TwoColumns(a: Column, b: Column)
    requires a.name != b.name
    ensures ColumnsByName([a, b]) == map[a.name := a, b.name := b]
  {
    assert [a, b][..1] == [a] && [a][..0] == [];
    assert ColumnsByName([a]) == map[a.name := a];
  }

  lemma TwoKeys(a: ForeignKey, b: ForeignKey)
    requires a.constraint != b.constraint
    ensures ForeignKeysByName([a, b]) == map[a.constraint := a, b.constraint := b]
  {
    assert [a, b][..1] == [a] && [a][..0] == [];
    assert ForeignKeysByName([a]) == map[a.constraint := a];
  }

  lemma JoinTableWellFormed(naming: Naming, join: JoinTable)
    ensures WellFormedTable(JoinTableOf(naming, join)) <==> join.left.column != join.right.column
    ensures Indexes(JoinTableOf(naming, join)) == map[]
    ensures join.left.column != join.right.column ==> var t := JoinTableOf(naming, join);
      forall k :: k in ForeignKeys(t) ==>
        ForeignKeys(t)[k] in {JoinKeyOf(join.name, join.left), JoinKeyOf(join.name, join.right)}
  {
    var t := JoinTableOf(naming, join);
    if join.left.column != join.right.column {
      TwoColumns(t.columns[0], t.columns[1]);
      ConstraintsDiffer(join.name, join.left.column, join.right.column);
      TwoKeys(t.foreignKeys[0], t.foreignKeys[1]);
    } else {
      assert t.columns[0].name == t.columns[1].name;
    }
  }

  // The snapshot

  lemma TablesAt(s: Schema, k: nat)
    requires k < |s.tables| && forall i, j :: 0 <= i < j < |s.tables| ==> s.tables[i].name != s.tables[j].name
    ensures s.tables[k].name in Tables(s) && Tables(s)[s.tables[k].name] == s.tables[k]
  {
    TableUnique(s.tables);
  }

  lemma TableFrom(s: Schema, t: string) returns (k: nat)
    requires t in Tables(s)
    ensures k < |s.tables| && s.tables[k] == Tables(s)[t] && s.tables[k].name == t
  {
    TableKeys(s.tables);
    var k' :| 0 <= k' < |s.tables| && s.tables[k'] == Tables(s)[t];
    k := k';
  }

  ghost predicate NamesDistinct(s: Schema) {
    forall i, j :: 0 <= i < j < |s.tables| ==> s.tables[i].name != s.tables[j].name
  }

  lemma SnapshotNames(naming: Naming, entities: seq<Entity>, p: Plan, order: seq<string>, flags: ExtensionFlags)
    requires GoodPlan(naming, entities, p) && OrderOf(p, order)
    ensures var ts := SnapshotOf(naming, entities, p, order, flags).tables;
      && |ts| == |entities| + |order|
      && (forall k :: 0 <= k < |entities| ==> ts[k] == TableOf(naming, entities[k], p.entries[k]))
      && (forall k :: 0 <= k < |entities| ==> ts[k].name == naming.pluralize(entities[k].name))
      && (forall k :: 0 <= k < |order| ==>
        order[k] in p.joins && ts[|entities| + k] == JoinTableOf(naming, p.joins[order[k]]))
      && (forall k :: 0 <= k < |order| ==> ts[|entities| + k].name == order[k])
  {
    hide GoodEntry, JoinOk, TableOf, JoinTableOf, FieldColumn;
    var es, js := EntityTables(naming, entities, p), JoinTables(naming, p, order);
    assert SnapshotOf(naming, entities, p, order, flags).tables == es + js;
    forall k | 0 <= k < |entities| ensures es[k].name == naming.pluralize(entities[k].name) {
      EntityTableName(naming, entities[k], p.entries[k]);
    }
    forall k | 0 <= k < |order| ensures order[k] in p.joins && js[k].name == order[k] {
      assert order[k] in order;
      JoinTableName(naming, p.joins[order[k]]);
    }
    hide SnapshotOf, EntityTables, JoinTables, GoodPlan, OrderOf;
  }

  lemma EntityTableName(naming: Naming, ent: Entity, v: Planned)
    ensures TableOf(naming, ent, v).name == naming.pluralize(ent.name)
  {
  }

  lemma JoinTableName(naming: Naming, join: JoinTable)
    ensures JoinTableOf(naming, join).name == join.name
  {
  }

  function NamesIn(ts: seq<Table>): (r: seq<string>)
    ensures |r| == |ts| && forall i :: 0 <= i < |ts| ==> r[i] == ts[i].name
  {
    seq(|ts|, i requires 0 <= i < |ts| => ts[i].name)
  }

  function Plurals(naming: Naming, entities: seq<Entity>): (r: seq<string>)
    ensures |r| == |entities| && forall i :: 0 <= i < |entities| ==> r[i] == naming.pluralize(entities[i].name)
  {
    seq(|entities|, i requires 0 <= i < |entities| => naming.pluralize(entities[i].name))
  }

  lemma NamesApart(plurals: seq<string>, order: seq<string>, joins: set<string>)
    requires Distinct(order) && forall n :: n in order <==> n in joins
    ensures Distinct(plurals + order) <==> Distinct(plurals) && forall k :: 0 <= k < |plurals| ==> plurals[k] !in joins
  {
    var names, n := plurals + order, |plurals|;
    if Distinct(names) {
      forall i, j | 0 <= i < j < n ensures plurals[i] != plurals[j] { assert names[i] != names[j]; }
      forall k | 0 <= k < n ensures plurals[k] !in joins {
        forall l | 0 <= l < |order| ensures order[l] != plurals[k] { assert names[k] != names[n + l]; }
      }
    }
  }

  lemma NamesOf(naming: Naming, entities: seq<Entity>, p: Plan, order: seq<string>, flags: ExtensionFlags)
    requires GoodPlan(naming, entities, p) && OrderOf(p, order)
    ensures NamesDistinct(SnapshotOf(naming, entities, p, order, flags)) <==> TableNamesDistinct(naming, entities, p)
  {
    hide *;
    NamesListed(naming, entities, p, order, flags);
    TakeOrder(p, order);
    TakeLength(naming, entities, p);
    NamesApart(Plurals(naming, entities), order, p.joins.Keys);
    DistinctNamesIn(SnapshotOf(naming, entities, p, order, flags));
    PluralsApart(naming, entities, p);
  }

  lemma TakeLength(naming: Naming, entities: seq<Entity>, p: Plan)
    requires GoodPlan(naming, entities, p)
    ensures |p.entries| == |entities|
  {
  }

  lemma TakeOrder(p: Plan, order: seq<string>)
    requires OrderOf(p, order)
    ensures Distinct(order) && forall n :: n in order <==> n in p.joins.Keys
  {
  }

  lemma NamesListed(naming: Naming, entities: seq<Entity>, p: Plan, order: seq<string>, flags: ExtensionFlags)
    requires GoodPlan(naming, entities, p) && OrderOf(p, order)
    ensures NamesIn(SnapshotOf(naming, entities, p, order, flags).tables) == Plurals(naming, entities) + order
  {
    hide *;
    TakeOrder(p, order);
    TakeLength(naming, entities, p);
    TablesListed(naming, entities, p, order, flags);
    var ts := SnapshotOf(naming, entities, p, order, flags).tables;
    var names, plurals := NamesIn(ts), Plurals(naming, entities);
    forall k | 0 <= k < |names| ensures names[k] == (plurals + order)[k] {
      NameAt(naming, entities, p, order, flags, k);
    }
  }

  lemma NameAt(naming: Naming, entities: seq<Entity>, p: Plan, order: seq<string>, flags: ExtensionFlags, k: nat)
    requires GoodPlan(naming, entities, p) && OrderOf(p, order) && k < |entities| + |order|
    ensures k < |SnapshotOf(naming, entities, p, order, flags).tables|
    ensures SnapshotOf(naming, entities, p, order, flags).tables[k].name
      == if k < |entities| then naming.pluralize(entities[k].name) else order[k - |entities|]
  {
    SnapshotNames(naming, entities, p, order, flags);
    hide *;
    if k >= |entities| {
      var l := k - |entities|;
      assert SnapshotOf(naming, entities, p, order, flags).tables[|entities| + l].name == order[l];
    }
  }

  lemma DistinctNamesIn(s: Schema)
    ensures NamesDistinct(s) <==> Distinct(NamesIn(s.tables))
  {
    if Distinct(NamesIn(s.tables)) {
      forall i, j | 0 <= i < j < |s.tables| ensures s.tables[i].name != s.tables[j].name {
        assert NamesIn(s.tables)[i] != NamesIn(s.tables)[j];
      }
    }
  }

  lemma PluralsApart(naming: Naming, entities: seq<Entity>, p: Plan)
    ensures TableNamesDistinct(naming, entities, p) <==>
      Distinct(Plurals(naming, entities))
        && forall k :: 0 <= k < |entities| ==> Plurals(naming, entities)[k] !in p.joins
  {
    var plurals := Plurals(naming, entities);
    if Distinct(plurals) {
      forall i, j | 0 <= i < j < |entities|
        ensures naming.pluralize(entities[i].name) != naming.pluralize(entities[j].name)
      {
        assert plurals[i] != plurals[j];
      }
    }
  }

  /** Table k of the snapshot is well formed exactly when its part of the conditions holds. */
  ghost predicate TableFits(entities: seq<Entity>, p: Plan, order: seq<string>, k: nat)
    requires |p.entries| == |entities| && k < |entities| + |order| && forall n :: n in order ==> n in p.joins
  {
    if k < |entities| then IndexesFitTable(entities[k], p.entries[k])
    else
      assert order[k - |entities|] in order;
      p.joins[order[k - |entities|]].left.column != p.joins[order[k - |entities|]].right.column
  }

  lemma TableFitsExact(naming: Naming, entities: seq<Entity>, p: Plan, order: seq<string>, flags: ExtensionFlags,
      k: nat)
    requires GoodPlan(naming, entities, p) && OrderOf(p, order) && k < |entities| + |order|
    ensures |SnapshotOf(naming, entities, p, order, flags).tables| == |entities| + |order|
    ensures WellFormedTable(SnapshotOf(naming, entities, p, order, flags).tables[k]) <==>
      TableFits(entities, p, order, k)
  {
    SnapshotNames(naming, entities, p, order, flags);
    hide TableOf, JoinTableOf, WellFormedTable, GoodEntry, JoinOk, IndexesFitTable;
    if k < |entities| {
      EntityTableWellFormed(naming, entities, entities[k], p.entries[k]);
    } else {
      var name := order[k - |entities|];
      assert name in order;
      assert SnapshotOf(naming, entities, p, order, flags).tables[|entities| + (k - |entities|)]
        == JoinTableOf(naming, p.joins[name]);
      JoinTableWellFormed(naming, p.joins[name]);
    }
  }

  /** A planned reference resolves in the snapshot. */
  lemma ReferenceResolves(naming: Naming, entities: seq<Entity>, p: Plan, order: seq<string>, flags: ExtensionFlags,
      fk: ForeignKey)
    requires GoodPlan(naming, entities, p) && OrderOf(p, order)
    requires NamesDistinct(SnapshotOf(naming, entities, p, order, flags))
    requires PlanTheorems.Resolves(naming, entities, fk.targetTable, fk.targetColumn)
    ensures SchemaSnapshot.Resolves(SnapshotOf(naming, entities, p, order, flags), fk)
  {
    var s := SnapshotOf(naming, entities, p, order, flags);
    var t := ResolvedColumnIsPlanned(naming, entities, p, fk.targetTable, fk.targetColumn);
    SnapshotNames(naming, entities, p, order, flags);
    assert GoodEntry(naming, entities, entities[t], p.entries[t]);
    hide SnapshotOf, GoodPlan, PlanTheorems.Resolves, KeysOk, Declared, TableOf, JoinTableOf, Tables;
    PlannedColumns(naming, entities[t], p.entries[t]);
    TablesAt(s, t);
  }

  lemma KeysResolve(naming: Naming, entities: seq<Entity>, p: Plan, order: seq<string>, flags: ExtensionFlags,
      t: string, k: string)
    requires GoodPlan(naming, entities, p) && OrderOf(p, order)
    requires var s := SnapshotOf(naming, entities, p, order, flags);
      NamesDistinct(s) && t in Tables(s) && WellFormedTable(Tables(s)[t]) && k in ForeignKeys(Tables(s)[t])
    ensures var s := SnapshotOf(naming, entities, p, order, flags);
      SchemaSnapshot.Resolves(s, ForeignKeys(Tables(s)[t])[k])
  {
    hide SnapshotOf, TableOf, JoinTableOf, Tables, WellFormedTable, PlanTheorems.Resolves, SchemaSnapshot.Resolves,
      GoodPlan, ForeignKeys;
    TakeLength(naming, entities, p);
    TakeOrder(p, order);
    var s := SnapshotOf(naming, entities, p, order, flags);
    var i := TableFrom(s, t);
    TablesListed(naming, entities, p, order, flags);
    SnapshotNames(naming, entities, p, order, flags);
    var fk := ForeignKeys(Tables(s)[t])[k];
    if i < |entities| {
      EntityKeyResolves(naming, entities, p, i, k);
    } else {
      JoinKeyResolves(naming, entities, p, order, i - |entities|, k);
    }
    ReferenceResolves(naming, entities, p, order, flags, fk);
  }

  lemma EntityKeyResolves(naming: Naming, entities: seq<Entity>, p: Plan, i: nat, k: string)
    requires GoodPlan(naming, entities, p) && i < |entities|
    requires k in ForeignKeys(TableOf(naming, entities[i], p.entries[i]))
    ensures var fk := ForeignKeys(TableOf(naming, entities[i], p.entries[i]))[k];
      PlanTheorems.Resolves(naming, entities, fk.targetTable, fk.targetColumn)
  {
    assert GoodEntry(naming, entities, entities[i], p.entries[i]);
    hide GoodPlan, PlanTheorems.Resolves;
    KeysDistinct(naming, entities, entities[i], p.entries[i]);
    hide KeysOk;
  }

  lemma JoinKeyResolves(naming: Naming, entities: seq<Entity>, p: Plan, order: seq<string>, l: nat, k: string)
    requires GoodPlan(naming, entities, p) && OrderOf(p, order) && l < |order| && order[l] in p.joins
    requires WellFormedTable(JoinTableOf(naming, p.joins[order[l]]))
    requires k in ForeignKeys(JoinTableOf(naming, p.joins[order[l]]))
    ensures var fk := ForeignKeys(JoinTableOf(naming, p.joins[order[l]]))[k];
      PlanTheorems.Resolves(naming, entities, fk.targetTable, fk.targetColumn)
  {
    var join := p.joins[order[l]];
    assert JoinOk(naming, entities, join) && join.name == order[l];
    hide GoodPlan, PlanTheorems.Resolves, WellFormedTable;
    JoinTableWellFormed(naming, join);
  }

  /** Indexes of different tables have different names. */
  ghost predicate IndexesApart(s: Schema) {
    forall t, u, i :: t in Tables(s) && u in Tables(s) && i in Indexes(Tables(s)[t]) && i in Indexes(Tables(s)[u]) ==>
      t == u
  }

  ghost predicate IndexesApartIn(entities: seq<Entity>) {
    forall k, l, a, b ::
      0 <= k < |entities| && 0 <= l < |entities| && k != l && a in entities[k].indexes && b in entities[l].indexes ==>
      a.name != b.name
  }

  lemma JoinsHaveNoIndexes(naming: Naming, entities: seq<Entity>, p: Plan, order: seq<string>, flags: ExtensionFlags)
    requires GoodPlan(naming, entities, p) && OrderOf(p, order)
    ensures var ts := SnapshotOf(naming, entities, p, order, flags).tables;
      forall k :: |entities| <= k < |ts| ==> Indexes(ts[k]) == map[]
  {
    SnapshotNames(naming, entities, p, order, flags);
    var ts := SnapshotOf(naming, entities, p, order, flags).tables;
    hide SnapshotOf, JoinTableOf, TableOf, GoodPlan;
    forall k | |entities| <= k < |ts| ensures Indexes(ts[k]) == map[] {
      assert ts[|entities| + (k - |entities|)] == JoinTableOf(naming, p.joins[order[k - |entities|]]);
      JoinTableWellFormed(naming, p.joins[order[k - |entities|]]);
    }
  }

  /** Index i is one of entity k, whose table has the name. */
  lemma IndexFrom(naming: Naming, entities: seq<Entity>, p: Plan, order: seq<string>, flags: ExtensionFlags,
      t: string, i: string)
    returns (k: nat, a: Index)
    requires GoodPlan(naming, entities, p) && OrderOf(p, order)
    requires var s := SnapshotOf(naming, entities, p, order, flags); t in Tables(s) && i in Indexes(Tables(s)[t])
    ensures k < |entities| && a in entities[k].indexes && a.name == i && naming.pluralize(entities[k].name) == t
  {
    var s := SnapshotOf(naming, entities, p, order, flags);
    k := TableFrom(s, t);
    JoinsHaveNoIndexes(naming, entities, p, order, flags);
    SnapshotNames(naming, entities, p, order, flags);
    assert k < |entities|;
    IndexKeys(entities[k].indexes);
    a := Indexes(Tables(s)[t])[i];
  }

  lemma IndexesApartExact(naming: Naming, entities: seq<Entity>, p: Plan, order: seq<string>, flags: ExtensionFlags)
    requires GoodPlan(naming, entities, p) && OrderOf(p, order)
    requires NamesDistinct(SnapshotOf(naming, entities, p, order, flags))
    ensures IndexesApart(SnapshotOf(naming, entities, p, order, flags)) <==> IndexesApartIn(entities)
  {
    var s := SnapshotOf(naming, entities, p, order, flags);
    SnapshotNames(naming, entities, p, order, flags);
    hide SnapshotOf, GoodPlan, OrderOf, TableOf, JoinTableOf, Tables, Indexes;
    if IndexesApartIn(entities) {
      forall t, u, i | t in Tables(s) && u in Tables(s) && i in Indexes(Tables(s)[t]) && i in Indexes(Tables(s)[u])
        ensures t == u
      {
        var k, a := IndexFrom(naming, entities, p, order, flags, t, i);
        var l, b := IndexFrom(naming, entities, p, order, flags, u, i);
      }
    } else {
      var k, l, a, b :| 0 <= k < |entities| && 0 <= l < |entities| && k != l && a in entities[k].indexes
        && b in entities[l].indexes && a.name == b.name;
      IndexAt(naming, entities, p, s, k, a);
      IndexAt(naming, entities, p, s, l, b);
      assert s.tables[k].name != s.tables[l].name;
    }
  }

  lemma IndexAt(naming: Naming, entities: seq<Entity>, p: Plan, s: Schema, k: nat, a: Index)
    requires NamesDistinct(s) && k < |entities| <= |s.tables| && |p.entries| == |entities|
    requires s.tables[k] == TableOf(naming, entities[k], p.entries[k]) && a in entities[k].indexes
    ensures s.tables[k].name in Tables(s) && a.name in Indexes(Tables(s)[s.tables[k].name])
  {
    TablesAt(s, k);
    IndexKeys(entities[k].indexes);
  }

  /** The conditions are those of the single tables, and apart from that on names. */
  lemma BuildableByTable(naming: Naming, entities: seq<Entity>, p: Plan, order: seq<string>)
    requires |p.entries| == |entities| && OrderOf(p, order)
    ensures Buildable(naming, entities, p) <==>
      TableNamesDistinct(naming, entities, p) && IndexesApartIn(entities)
      && forall k :: 0 <= k < |entities| + |order| ==> TableFits(entities, p, order, k)
  {
    hide TableNamesDistinct;
    if Buildable(naming, entities, p) {
      forall k | 0 <= k < |entities| + |order| ensures TableFits(entities, p, order, k) {
        assert k >= |entities| ==> order[k - |entities|] in order;
      }
    } else if TableNamesDistinct(naming, entities, p) && IndexesApartIn(entities)
        && forall k :: 0 <= k < |entities| + |order| ==> TableFits(entities, p, order, k) {
      FitsEntities(entities, p, order);
      FitsJoins(entities, p, order);
    }
  }

  lemma FitsEntities(entities: seq<Entity>, p: Plan, order: seq<string>)
    requires |p.entries| == |entities| && OrderOf(p, order) && IndexesApartIn(entities)
    requires forall k :: 0 <= k < |entities| + |order| ==> TableFits(entities, p, order, k)
    ensures IndexesFit(entities, p)
  {
    forall k | 0 <= k < |entities| ensures IndexesFitTable(entities[k], p.entries[k]) {
      assert TableFits(entities, p, order, k);
    }
    forall k, i, j | 0 <= k < |entities| && 0 <= i < j < |entities[k].indexes|
      ensures entities[k].indexes[i].name != entities[k].indexes[j].name
    {
      assert IndexesFitTable(entities[k], p.entries[k]);
    }
    forall k, a, c | 0 <= k < |entities| && a in entities[k].indexes && c in a.columns
      ensures c in p.entries[k].fieldIndex
    {
      assert IndexesFitTable(entities[k], p.entries[k]);
    }
  }

  lemma FitsJoins(entities: seq<Entity>, p: Plan, order: seq<string>)
    requires |p.entries| == |entities| && OrderOf(p, order)
    requires forall k :: 0 <= k < |entities| + |order| ==> TableFits(entities, p, order, k)
    ensures JoinColumnsDistinct(p)
  {
    hide IndexesFitTable;
    forall n | n in p.joins ensures p.joins[n].left.column != p.joins[n].right.column {
      var l :| 0 <= l < |order| && order[l] == n;
      assert TableFits(entities, p, order, |entities| + l);
    }
  }

  /** The snapshot of entities with distinct columns is well formed exactly under conditions on
      names, indexes and join columns: every column, key and reference that the plan adds fits. */
  lemma PlannedIsWellFormed(naming: Naming, entities: seq<Entity>, order: seq<string>, flags: ExtensionFlags)
    requires forall k :: 0 <= k < |entities| ==> DistinctColumns(naming, entities[k])
    requires OrderOf(Walk(naming, entities, |entities|), order)
    ensures var p := Walk(naming, entities, |entities|);
      WellFormed(SnapshotOf(naming, entities, p, order, flags)) <==> Buildable(naming, entities, p)
  {
    hide *;
    var p := Walk(naming, entities, |entities|);
    PlanIsGood(naming, entities, |entities|);
    TakeLength(naming, entities, p);
    TakeOrder(p, order);
    BuildableByTable(naming, entities, p, order);
    NamesOf(naming, entities, p, order, flags);
    var s := SnapshotOf(naming, entities, p, order, flags);
    forall k: nat | k < |entities| + |order|
      ensures |s.tables| == |entities| + |order| && (WellFormedTable(s.tables[k]) <==> TableFits(entities, p, order, k))
    {
      TableFitsExact(naming, entities, p, order, flags, k);
    }
    TablesListed(naming, entities, p, order, flags);
    if NamesDistinct(s) {
      IndexesApartExact(naming, entities, p, order, flags);
      TablesByIndex(s);
      if forall t :: t in Tables(s) ==> WellFormedTable(Tables(s)[t]) {
        forall t, k | t in Tables(s) && k in ForeignKeys(Tables(s)[t])
          ensures SchemaSnapshot.Resolves(s, ForeignKeys(Tables(s)[t])[k])
        {
          KeysResolve(naming, entities, p, order, flags, t, k);
        }
      }
    }
    WellFormedParts(s);
  }

  lemma TablesListed(naming: Naming, entities: seq<Entity>, p: Plan, order: seq<string>, flags: ExtensionFlags)
    requires GoodPlan(naming, entities, p) && OrderOf(p, order)
    ensures |SnapshotOf(naming, entities, p, order, flags).tables| == |entities| + |order|
  {
    SnapshotNames(naming, entities, p, order, flags);
  }

  lemma TablesByIndex(s: Schema)
    requires NamesDistinct(s)
    ensures (forall t :: t in Tables(s) ==> WellFormedTable(Tables(s)[t])) <==>
      forall k :: 0 <= k < |s.tables| ==> WellFormedTable(s.tables[k])
  {
    TableUnique(s.tables);
    TableKeys(s.tables);
    hide WellFormedTable, TablesByName;
    if forall t :: t in Tables(s) ==> WellFormedTable(Tables(s)[t]) {
      forall k | 0 <= k < |s.tables| ensures WellFormedTable(s.tables[k]) {
        assert s.tables[k] in s.tables && Tables(s)[s.tables[k].name] == s.tables[k];
      }
    } else {
      var t :| t in Tables(s) && !WellFormedTable(Tables(s)[t]);
      var k := TableFrom(s, t);
      assert !WellFormedTable(s.tables[k]);
    }
  }

  lemma WellFormedParts(s: Schema)
    ensures WellFormed(s) <==>
      && NamesDistinct(s) && IndexesApart(s)
      && (forall t :: t in Tables(s) ==> WellFormedTable(Tables(s)[t]))
      && forall t, k :: t in Tables(s) && k in ForeignKeys(Tables(s)[t]) ==>
        SchemaSnapshot.Resolves(s, ForeignKeys(Tables(s)[t])[k])
  {
    hide WellFormedTable, Tables, Indexes, ForeignKeys, SchemaSnapshot.Resolves;
  }
}
