/** From entities to migrations (generator/schema_snapshot.go, generator/migrations.go): the plan,
    the snapshot and the differ together. */
module Generation {
  import opened Names
  import opened Results
  import opened Sorting
  import opened SchemaSnapshot
  import opened Database
  import opened SchemaDiff
  import opened Entities
  import opened MigrationPlan
  import opened PlanTheorems
  import opened SnapshotNormal
  import opened SnapshotBuild
  import opened SnapshotTheorems
  import opened SnapshotConditions
  import opened SchemaPatch
  import opened Migration
  import opened MigrationFaithful

  // The order of a range loop over a map does not matter

  lemma NamesTotal(ts: seq<Table>)
    requires forall i, j :: 0 <= i < j < |ts| ==> ts[i].name != ts[j].name
    ensures Distinct(ts) && Total(TableLess, ts)
  {
    forall a, b | a in ts && b in ts && !TableLess(a, b) && !TableLess(b, a) ensures a == b {
      LessTotal(a.name, b.name);
      var i :| 0 <= i < |ts| && ts[i] == a;
      var j :| 0 <= j < |ts| && ts[j] == b;
    }
  }

  lemma SortedTables(ts: seq<Table>)
    requires forall i, j :: 0 <= i < j < |ts| ==> ts[i].name != ts[j].name
    ensures Ordered(TableLess, SortBy(TableLess, ts)) && Distinct(SortBy(TableLess, ts))
    ensures Total(TableLess, SortBy(TableLess, ts))
    ensures forall t :: t in SortBy(TableLess, ts) <==> t in ts
  {
    NamesTotal(ts);
    KeyedAreWeak();
    hide Less, TableLess;
    SortOrdered(TableLess, ts);
    DistinctPermuted(ts, SortBy(TableLess, ts));
    SameMembers(ts, SortBy(TableLess, ts));
  }

  lemma JoinTablesSame(naming: Naming, p: Plan, order: seq<string>, other: seq<string>, t: Table)
    requires OrderOf(p, order) && OrderOf(p, other) && t in JoinTables(naming, p, order)
    ensures t in JoinTables(naming, p, other)
  {
    hide JoinTableOf;
    var k :| 0 <= k < |order| && JoinTables(naming, p, order)[k] == t;
    assert order[k] in order;
    var l :| 0 <= l < |other| && other[l] == order[k];
    assert JoinTables(naming, p, other)[l] == t;
  }

  lemma SameTables(naming: Naming, entities: seq<Entity>, p: Plan, order: seq<string>, other: seq<string>,
      flags: ExtensionFlags)
    requires |p.entries| == |entities| && OrderOf(p, order) && OrderOf(p, other)
    ensures forall t :: t in SnapshotOf(naming, entities, p, order, flags).tables <==>
      t in SnapshotOf(naming, entities, p, other, flags).tables
  {
    var es, js, ks := EntityTables(naming, entities, p), JoinTables(naming, p, order), JoinTables(naming, p, other);
    assert SnapshotOf(naming, entities, p, order, flags).tables == es + js
      && SnapshotOf(naming, entities, p, other, flags).tables == es + ks;
    hide EntityTables, SnapshotOf, JoinTables;
    forall t ensures t in js <==> t in ks {
      if t in js { JoinTablesSame(naming, p, order, other, t); }
      if t in ks { JoinTablesSame(naming, p, other, order, t); }
    }
    assert forall t :: t in es + js <==> t in es + ks;
  }

  /** The snapshot of entities whose tables have distinct names does not depend on the order in
      which the join tables are met. */
  lemma {:induction false} SnapshotIsDeterministic(naming: Naming, entities: seq<Entity>, p: Plan, order: seq<string>,
      other: seq<string>, flags: ExtensionFlags)
    requires GoodPlan(naming, entities, p) && OrderOf(p, order) && OrderOf(p, other)
    requires TableNamesDistinct(naming, entities, p)
    ensures Normal(SnapshotOf(naming, entities, p, order, flags))
      == Normal(SnapshotOf(naming, entities, p, other, flags))
  {
    hide *;
    TakeLength(naming, entities, p);
    TakeOrder(p, order);
    TakeOrder(p, other);
    NamesOf(naming, entities, p, order, flags);
    NamesOf(naming, entities, p, other, flags);
    SameTables(naming, entities, p, order, other, flags);
    SameExtensions(naming, entities, p, order, other, flags);
    NormalUnique(SnapshotOf(naming, entities, p, order, flags), SnapshotOf(naming, entities, p, other, flags));
  }

  lemma SameExtensions(naming: Naming, entities: seq<Entity>, p: Plan, order: seq<string>, other: seq<string>,
      flags: ExtensionFlags)
    requires |p.entries| == |entities| && (forall n :: n in order ==> n in p.joins)
    requires forall n :: n in other ==> n in p.joins
    ensures SnapshotOf(naming, entities, p, order, flags).extensions
      == SnapshotOf(naming, entities, p, other, flags).extensions
  {
  }

  lemma NormalUnique(s: Schema, n: Schema)
    requires NamesDistinct(s) && NamesDistinct(n) && s.extensions == n.extensions
    requires forall t :: t in s.tables <==> t in n.tables
    ensures Normal(s) == Normal(n)
  {
    SortedTables(s.tables);
    SortedTables(n.tables);
    hide TableLess;
    OrderedUnique(TableLess, SortBy(TableLess, s.tables), SortBy(TableLess, n.tables));
  }

  // Entities to migrations

  ghost predicate Acceptable(naming: Naming, entities: seq<Entity>) {
    && (forall k :: 0 <= k < |entities| ==> DistinctColumns(naming, entities[k]))
    && EntitiesFit(naming, entities)
  }

  lemma AcceptableIsWellFormed(naming: Naming, entities: seq<Entity>, flags: ExtensionFlags, s: Schema)
    requires Acceptable(naming, entities) && IsSnapshot(naming, entities, flags, s)
    ensures WellFormed(s)
  {
    hide Walk, EntitiesFit, Normal, SnapshotOf, WellFormed, DistinctColumns;
    var order :| OrderOf(Walk(naming, entities, |entities|), order)
      && s == Normal(SnapshotOf(naming, entities, Walk(naming, entities, |entities|), order, flags));
    SnapshotIsWellFormed(naming, entities, order, flags);
    NormalKeepsDatabase(SnapshotOf(naming, entities, Walk(naming, entities, |entities|), order, flags));
  }

  /** Between the snapshots of any two acceptable lists of entities: the migration runs unless an
      index moves backwards, and leaves the database of the next one exactly under Faithful. */
  lemma {:induction false} EntitiesMigrate(naming: Naming, prev: seq<Entity>, next: seq<Entity>,
      before: ExtensionFlags, after: ExtensionFlags, p: Schema, n: Schema)
    requires Acceptable(naming, prev) && IsSnapshot(naming, prev, before, p)
    requires Acceptable(naming, next) && IsSnapshot(naming, next, after, n)
    ensures AllEnabled(DbOf(p), MigrationOps(p, n)) <==> IndexesMoveForward(p, n)
    ensures Run(DbOf(p), MigrationOps(p, n)) == DbOf(n) <==> Faithful(p, n)
    ensures Agrees(Run(DbOf(p), MigrationOps(p, n)), p, n)
  {
    hide *;
    AcceptableIsWellFormed(naming, prev, before, p);
    AcceptableIsWellFormed(naming, next, after, n);
    MigrationIsPatch(p, n);
    MigrationReachesNext(p, n);
    AlwaysAgrees(p, n);
  }

  /** Generating again from the same entities with distinct columns and table names gives no
      statement, although the two runs may meet the join tables in different orders. */
  lemma {:induction false} RegenerationIsFixpoint(naming: Naming, entities: seq<Entity>, flags: ExtensionFlags,
      p: Schema, n: Schema)
    requires forall k :: 0 <= k < |entities| ==> DistinctColumns(naming, entities[k])
    requires TablesApart(naming, entities)
    requires IsSnapshot(naming, entities, flags, p) && IsSnapshot(naming, entities, flags, n)
    ensures p == n && MigrationOps(p, n) == []
  {
    TablesApartExact(naming, entities);
    hide Walk, Normal, SnapshotOf, DistinctColumns, TableNamesDistinct, TablesApart, MigrationOps;
    var w := Walk(naming, entities, |entities|);
    var a :| OrderOf(w, a) && p == Normal(SnapshotOf(naming, entities, w, a, flags));
    var b :| OrderOf(w, b) && n == Normal(SnapshotOf(naming, entities, w, b, flags));
    PlanIsGood(naming, entities, |entities|);
    SnapshotIsDeterministic(naming, entities, w, a, b, flags);
    DiffSelfIsEmpty(p);
  }
}
