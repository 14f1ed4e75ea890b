/** What the snapshot of the entities holds (generator/schema_snapshot.go), in the words of the
    fields and edges that were declared. */
module SnapshotContents {
  import opened Names
  import opened Results
  import opened Sorting
  import opened SchemaSnapshot
  import opened Entities
  import opened MigrationPlan
  import opened PlanTheorems
  import opened PlanProvenance
  import opened PlanColumns
  import opened SnapshotNormal
  import opened SnapshotBuild

  // Columns

  /** The column of a declared field; its two flags are another matter. */
  ghost predicate DeclaredAs(naming: Naming, f: Field, col: Column) {
    && col.name == (if f.column != "" then f.column else naming.snake(f.name))
    && col.typ == naming.sqlType(f.(nullable := col.nullable, isUnique := col.unique))
    && col.identity == naming.identity(f.(nullable := col.nullable, isUnique := col.unique))
    && col.defaultExpr == f.defaultExpr && col.defaultNow == f.hasDefaultNow && col.enumValues == f.enumValues
    && (match f.computed
      case None => col.generatedExpr == "" && col.dependencies == [] && col.readOnly == f.readOnly
      case Some(c) =>
        col.generatedExpr == c.expr && multiset(col.dependencies) == multiset(c.dependencies) && col.readOnly)
  }

  /** The column that was added for edge j of entity i: of the type of the primary field it refers to,
      and with nothing else. */
  ghost predicate AddedAs(naming: Naming, entities: seq<Entity>, i: nat, j: nat, col: Column)
    requires IsEdge(entities, i, j)
  {
    var e := entities[i].edges[j];
    && (e.kind.ToOne? || e.kind.ToMany?) && IndexOf(entities, e.target).Some?
    && var referenced := FindPrimaryField(entities[if e.kind.ToOne? then IndexOf(entities, e.target).value else i]);
      && referenced.Some?
      && var f :=
        Field(col.name, col.name, referenced.value.typ, referenced.value.goType, false, col.nullable, col.unique,
        false, "", [], false, None, false);
        && col.typ == naming.sqlType(f) && col.identity == naming.identity(f)
        && col == Column(col.name, col.typ, col.nullable, col.unique, "", false, col.identity, "", [], false, [])
  }

  /** Nullable (or unique) exactly if declared so, or if an edge that asks for the column is. */
  ghost predicate FlaggedAs(naming: Naming, entities: seq<Entity>, k: nat, col: Column)
    requires k < |entities|
  {
    && (col.nullable <==>
      || (exists f :: f in entities[k].fields && FieldColumn(naming, f) == col.name && f.nullable)
      || (exists i: nat, j: nat ::
        IsEdge(entities, i, j) && Asks(naming, entities, i, j, ColumnOn(k, col.name)) && entities[i].edges[j].nullable))
    && (col.unique <==>
      || (exists f :: f in entities[k].fields && FieldColumn(naming, f) == col.name && f.isUnique)
      || (exists i: nat, j: nat ::
        IsEdge(entities, i, j) && Asks(naming, entities, i, j, ColumnOn(k, col.name)) && entities[i].edges[j].unique))
  }

  ghost predicate ColumnsAre(naming: Naming, entities: seq<Entity>, k: nat, columns: seq<Column>)
    requires k < |entities|
  {
    var fields := entities[k].fields;
    && |fields| <= |columns|
    && (forall x :: 0 <= x < |fields| ==> DeclaredAs(naming, fields[x], columns[x]))
    && (forall x :: |fields| <= x < |columns| ==> AddedFirst(naming, entities, k, columns[x]))
    && (forall x :: 0 <= x < |columns| ==> FlaggedAs(naming, entities, k, columns[x]))
    && (forall c :: HasColumnNamed(columns, c) <==>
      DeclaresColumn(naming, entities[k], c) || Asked(naming, entities, ColumnOn(k, c)))
  }

  ghost predicate HasColumnNamed(columns: seq<Column>, c: string) {
    exists x :: 0 <= x < |columns| && columns[x].name == c
  }

  ghost predicate AddedFirst(naming: Naming, entities: seq<Entity>, k: nat, col: Column) {
    exists i: nat, j: nat ::
      AsksFirst(naming, entities, i, j, ColumnOn(k, col.name)) && AddedAs(naming, entities, i, j, col)
  }

  lemma DeclaredColumn(naming: Naming, f: Field, f': Field)
    requires OnlyRaised(f, f')
    ensures DeclaredAs(naming, f, ColumnOf(naming, f'))
  {
  }

  lemma AddedColumn(naming: Naming, entities: seq<Entity>, i: nat, j: nat, u: Use, f': Field)
    requires IsEdge(entities, i, j) && UseAt(naming, entities, i, j) == Some(u) && OnlyRaised(u.field, f')
    requires u.column != ""
    ensures AddedAs(naming, entities, i, j, ColumnOf(naming, f')) && ColumnOf(naming, f').name == u.column
    ensures !f'.isPrimary && !f'.timeseries
  {
    hide PlanTheorems.Before, IndexOf, FindPrimaryField, ResolveForeignKeyColumn, EdgeColumn, KeyTo;
    UsedColumn(naming, entities, i, j, u);
  }

  lemma UsedColumn(naming: Naming, entities: seq<Entity>, i: nat, j: nat, u: Use)
    requires IsEdge(entities, i, j) && UseAt(naming, entities, i, j) == Some(u)
    ensures u.column != ""
  {
    hide PlanTheorems.Before, IndexOf, FindPrimaryField, ResolveForeignKeyColumn, EdgeColumn, KeyTo, ForeignKeyField;
  }

  /** Column x of the planned table is one that an edge was the first to ask for. */
  lemma ExtraColumn(naming: Naming, entities: seq<Entity>, k: nat, x: nat) returns (i: nat, j: nat)
    requires k < |entities| && forall l :: 0 <= l < |entities| ==> DistinctColumns(naming, entities[l])
    requires var v := Walk(naming, entities, |entities|).entries[k]; |entities[k].fields| <= x < |v.fields|
    ensures var f := Walk(naming, entities, |entities|).entries[k].fields[x];
      && AsksFirst(naming, entities, i, j, ColumnOn(k, ColumnOf(naming, f).name))
      && AddedAs(naming, entities, i, j, ColumnOf(naming, f)) && !f.isPrimary && !f.timeseries
  {
    var v := Walk(naming, entities, |entities|).entries[k];
    var f, c := v.fields[x], FieldColumn(naming, v.fields[x]);
    PlanIsGood(naming, entities, |entities|);
    assert GoodEntry(naming, entities, entities[k], v);
    NotDeclaredColumn(naming, entities[k], v, x);
    ColumnsComeFromEdges(naming, entities, k, c);
    FirstExact(naming, entities, ColumnOn(k, c));
    var first := First(naming, entities, ColumnOn(k, c));
    assert first.Some?;
    i, j := first.value.0, first.value.1;
    assert Asks(naming, entities, i, j, ColumnOn(k, c));
    var u := UseAt(naming, entities, i, j).value;
    hide Walk, First, AddedAs, UseAt, KeysOk, Declared, DeclaresColumn, Asked;
    FirstEdgeDecides(naming, entities, i, j, u, u.key);
    UsedColumn(naming, entities, i, j, u);
    AddedColumn(naming, entities, i, j, u, f);
  }

  lemma NotDeclaredColumn(naming: Naming, ent: Entity, v: Planned, x: nat)
    requires IndexExact(naming, v) && Declared(ent, v) && |ent.fields| <= x < |v.fields|
    ensures !DeclaresColumn(naming, ent, FieldColumn(naming, v.fields[x]))
    ensures FieldColumn(naming, v.fields[x]) in v.fieldIndex && v.fieldIndex[FieldColumn(naming, v.fields[x])] == x
  {
    forall f | f in ent.fields ensures FieldColumn(naming, f) != FieldColumn(naming, v.fields[x]) {
      var y :| 0 <= y < |ent.fields| && ent.fields[y] == f;
      assert OnlyRaised(ent.fields[y], v.fields[y]) && FieldColumn(naming, v.fields[y]) == FieldColumn(naming, f);
      assert v.fieldIndex[FieldColumn(naming, v.fields[y])] == y;
    }
  }

  lemma ColumnFlags(naming: Naming, entities: seq<Entity>, k: nat, x: nat)
    requires k < |entities| && forall l :: 0 <= l < |entities| ==> DistinctColumns(naming, entities[l])
    requires x < |Walk(naming, entities, |entities|).entries[k].fields|
    ensures FlaggedAs(naming, entities, k, ColumnOf(naming, Walk(naming, entities, |entities|).entries[k].fields[x]))
  {
    var v := Walk(naming, entities, |entities|).entries[k];
    PlanIsGood(naming, entities, |entities|);
    assert GoodEntry(naming, entities, entities[k], v);
    FlagsAreExact(naming, entities, k, FieldColumn(naming, v.fields[x]));
    hide Walk, Asks, KeysOk, Declared, FieldColumn;
  }

  lemma NamesOfColumns(naming: Naming, entities: seq<Entity>, k: nat, c: string)
    requires k < |entities| && forall l :: 0 <= l < |entities| ==> DistinctColumns(naming, entities[l])
    ensures var columns := ColumnsOf(naming, Walk(naming, entities, |entities|).entries[k].fields);
      HasColumnNamed(columns, c) <==>
        DeclaresColumn(naming, entities[k], c) || Asked(naming, entities, ColumnOn(k, c))
  {
    var v := Walk(naming, entities, |entities|).entries[k];
    PlanIsGood(naming, entities, |entities|);
    assert GoodEntry(naming, entities, entities[k], v);
    ColumnsComeFromEdges(naming, entities, k, c);
    hide Walk, Asked, KeysOk, Declared, DeclaresColumn, FieldColumn;
    if c in v.fieldIndex { assert ColumnsOf(naming, v.fields)[v.fieldIndex[c]].name == c; }
  }

  lemma PlannedColumnsAre(naming: Naming, entities: seq<Entity>, k: nat)
    requires k < |entities| && forall l :: 0 <= l < |entities| ==> DistinctColumns(naming, entities[l])
    ensures ColumnsAre(naming, entities, k, ColumnsOf(naming, Walk(naming, entities, |entities|).entries[k].fields))
  {
    var v := Walk(naming, entities, |entities|).entries[k];
    PlanIsGood(naming, entities, |entities|);
    assert GoodEntry(naming, entities, entities[k], v);
    hide Walk, Asked, KeysOk, IndexExact, DeclaresColumn, ColumnOf, DeclaredAs, AddedAs, FlaggedAs, AsksFirst,
      DistinctColumns;
    var columns := ColumnsOf(naming, v.fields);
    forall x | 0 <= x < |entities[k].fields| ensures DeclaredAs(naming, entities[k].fields[x], columns[x]) {
      DeclaredColumn(naming, entities[k].fields[x], v.fields[x]);
    }
    forall x | |entities[k].fields| <= x < |columns| ensures AddedFirst(naming, entities, k, columns[x]) {
      var i, j := ExtraColumn(naming, entities, k, x);
    }
    forall x | 0 <= x < |columns| ensures FlaggedAs(naming, entities, k, columns[x]) {
      ColumnFlags(naming, entities, k, x);
    }
    forall c ensures HasColumnNamed(columns, c) <==>
      DeclaresColumn(naming, entities[k], c) || Asked(naming, entities, ColumnOn(k, c))
    {
      NamesOfColumns(naming, entities, k, c);
    }
  }

  // Primary key and hypertable

  /** The columns of the primary fields, in the order of the fields. */
  ghost predicate PrimaryKeyIs(naming: Naming, fields: seq<Field>, key: seq<string>) {
    exists at: seq<nat> :: PrimaryAt(naming, fields, key, at)
  }

  ghost predicate PrimaryAt(naming: Naming, fields: seq<Field>, key: seq<string>, at: seq<nat>) {
    && |at| == |key|
    && (forall x, y :: 0 <= x < y < |at| ==> at[x] < at[y])
    && (forall x :: 0 <= x < |at| ==> at[x] < |fields|)
    && (forall f :: 0 <= f < |fields| ==> (f in at <==> fields[f].isPrimary))
    && forall x :: 0 <= x < |at| ==>
      key[x] == if fields[at[x]].column != "" then fields[at[x]].column else naming.snake(fields[at[x]].name)
  }

  lemma {:induction false} PrimaryKeyOf(naming: Naming, fields: seq<Field>) returns (at: seq<nat>)
    ensures PrimaryAt(naming, fields, PrimaryColumns(naming, fields), at)
  {
    if fields == [] {
      at := [];
    } else {
      var init, last := fields[..|fields| - 1], fields[|fields| - 1];
      var before := PrimaryKeyOf(naming, init);
      at := before + if last.isPrimary then [|init|] else [];
      if !last.isPrimary { assert before + [] == before; }
      forall f | 0 <= f < |fields| ensures f in at <==> fields[f].isPrimary {
        assert f < |init| ==> init[f] == fields[f];
      }
      assert forall x :: 0 <= x < |before| ==> init[before[x]] == fields[before[x]];
    }
  }

  ghost predicate LastMarked(fields: seq<Field>, x: nat) {
    x < |fields| && fields[x].timeseries && forall y :: x < y < |fields| ==> !fields[y].timeseries
  }

  ghost predicate MarksColumn(naming: Naming, fields: seq<Field>, x: nat, column: string) {
    LastMarked(fields, x) && column == if fields[x].column != "" then fields[x].column else naming.snake(fields[x].name)
  }

  /** The column of the last field that is marked as a time series. */
  ghost predicate HypertableIs(naming: Naming, fields: seq<Field>, column: string) {
    || (column == "" && forall x :: 0 <= x < |fields| ==> !fields[x].timeseries)
    || exists x: nat :: MarksColumn(naming, fields, x, column)
  }

  lemma {:induction false} HypertableAt(naming: Naming, fields: seq<Field>)
    ensures HypertableIs(naming, fields, HypertableOf(naming, fields))
  {
    if fields != [] {
      var init, last := fields[..|fields| - 1], fields[|fields| - 1];
      HypertableAt(naming, init);
      if last.timeseries {
        assert MarksColumn(naming, fields, |init|, HypertableOf(naming, fields));
      } else if x: nat :| MarksColumn(naming, init, x, HypertableOf(naming, init)) {
        assert fields[x] == init[x];
        assert MarksColumn(naming, fields, x, HypertableOf(naming, fields));
      } else {
        assert forall x :: 0 <= x < |init| ==> fields[x] == init[x];
      }
    }
  }

  /** Raised fields have the same primary key and hypertable, and fields without a mark add nothing. */
  lemma PrimaryKeyDeclared(naming: Naming, fields: seq<Field>, fields': seq<Field>, key: seq<string>, at: seq<nat>)
    requires |fields| <= |fields'| && forall x :: 0 <= x < |fields| ==> OnlyRaised(fields[x], fields'[x])
    requires forall x :: |fields| <= x < |fields'| ==> !fields'[x].isPrimary
    requires PrimaryAt(naming, fields', key, at)
    ensures PrimaryAt(naming, fields, key, at)
  {
    forall x | 0 <= x < |at| ensures at[x] < |fields| {
      assert at[x] in at && fields'[at[x]].isPrimary;
    }
  }

  lemma HypertableDeclared(naming: Naming, fields: seq<Field>, fields': seq<Field>, column: string)
    requires |fields| <= |fields'| && forall x :: 0 <= x < |fields| ==> OnlyRaised(fields[x], fields'[x])
    requires forall x :: |fields| <= x < |fields'| ==> !fields'[x].timeseries
    requires HypertableIs(naming, fields', column)
    ensures HypertableIs(naming, fields, column)
  {
    if x: nat :| MarksColumn(naming, fields', x, column) {
      assert x < |fields| && OnlyRaised(fields[x], fields'[x]);
      forall y | x < y < |fields| ensures !fields[y].timeseries { assert OnlyRaised(fields[y], fields'[y]); }
      assert MarksColumn(naming, fields, x, column);
    } else {
      forall x | 0 <= x < |fields| ensures !fields[x].timeseries { assert OnlyRaised(fields[x], fields'[x]); }
    }
  }

  // Tables

  /** The table of an entity. */
  ghost predicate EntityTable(naming: Naming, entities: seq<Entity>, k: nat, t: Table)
    requires k < |entities|
  {
    && t.name == naming.pluralize(entities[k].name) && !t.isJoinTable
    && ColumnsAre(naming, entities, k, t.columns)
    && PrimaryKeyIs(naming, entities[k].fields, t.primaryKey)
    && HypertableIs(naming, entities[k].fields, t.hypertableColumn)
    && multiset(t.indexes) == multiset(entities[k].indexes)
    && forall fk :: fk in t.foreignKeys <==> FirstKey(naming, entities, k, fk.column) == Some(fk)
  }

  lemma PlannedTable(naming: Naming, entities: seq<Entity>, k: nat)
    requires k < |entities| && forall l :: 0 <= l < |entities| ==> DistinctColumns(naming, entities[l])
    ensures EntityTable(naming, entities, k,
      TableOf(naming, entities[k], Walk(naming, entities, |entities|).entries[k]))
  {
    hide *;
    EntriesOfWalk(naming, entities);
    var ent, v := entities[k], Walk(naming, entities, |entities|).entries[k];
    PlannedColumnsAre(naming, entities, k);
    PlannedMarks(naming, entities, k);
    forall fk ensures fk in v.foreignKeys <==> FirstKey(naming, entities, k, fk.column) == Some(fk) {
      KeysComeFromEdges(naming, entities, k, fk);
    }
    MakeTable(naming, entities, k, v);
  }

  lemma EntriesOfWalk(naming: Naming, entities: seq<Entity>)
    ensures |Walk(naming, entities, |entities|).entries| == |entities|
  {
  }

  lemma MakeTable(naming: Naming, entities: seq<Entity>, k: nat, v: Planned)
    requires k < |entities| && ColumnsAre(naming, entities, k, ColumnsOf(naming, v.fields))
    requires PrimaryKeyIs(naming, entities[k].fields, PrimaryColumns(naming, v.fields))
    requires HypertableIs(naming, entities[k].fields, HypertableOf(naming, v.fields))
    requires forall fk :: fk in v.foreignKeys <==> FirstKey(naming, entities, k, fk.column) == Some(fk)
    ensures EntityTable(naming, entities, k, TableOf(naming, entities[k], v))
  {
    hide ColumnsAre, PrimaryKeyIs, HypertableIs, FirstKey, PrimaryColumns, HypertableOf;
  }

  lemma TakeDeclared(naming: Naming, entities: seq<Entity>, k: nat)
    requires k < |entities| && forall l :: 0 <= l < |entities| ==> DistinctColumns(naming, entities[l])
    ensures Declared(entities[k], Walk(naming, entities, |entities|).entries[k])
  {
    PlanIsGood(naming, entities, |entities|);
    hide Walk, Declared, IndexExact, KeysOk, DistinctColumns;
    assert GoodEntry(naming, entities, entities[k], Walk(naming, entities, |entities|).entries[k]);
  }

  lemma PlannedMarks(naming: Naming, entities: seq<Entity>, k: nat)
    requires k < |entities| && forall l :: 0 <= l < |entities| ==> DistinctColumns(naming, entities[l])
    ensures var v := Walk(naming, entities, |entities|).entries[k];
      && PrimaryKeyIs(naming, entities[k].fields, PrimaryColumns(naming, v.fields))
      && HypertableIs(naming, entities[k].fields, HypertableOf(naming, v.fields))
  {
    var ent, v := entities[k], Walk(naming, entities, |entities|).entries[k];
    TakeDeclared(naming, entities, k);
    hide Walk, AddedAs, AsksFirst, DistinctColumns, HypertableIs, HypertableOf, PrimaryColumns, ColumnOf, PrimaryAt;
    var at := PrimaryKeyOf(naming, v.fields);
    HypertableAt(naming, v.fields);
    forall x | |ent.fields| <= x < |v.fields| ensures !v.fields[x].isPrimary && !v.fields[x].timeseries {
      var i, j := ExtraColumn(naming, entities, k, x);
    }
    PrimaryKeyDeclared(naming, ent.fields, v.fields, PrimaryColumns(naming, v.fields), at);
    HypertableDeclared(naming, ent.fields, v.fields, HypertableOf(naming, v.fields));
  }

  /** The join table of edge j of entity i: a column and a foreign key for each side, which together
      are the primary key. */
  ghost predicate JoinTableFor(naming: Naming, entities: seq<Entity>, i: nat, j: nat, t: Table)
    requires IsEdge(entities, i, j)
  {
    var e := entities[i].edges[j];
    && e.kind.ManyToMany? && IndexOf(entities, e.target).Some? && FindPrimaryField(entities[i]).Some?
    && FindPrimaryField(entities[IndexOf(entities, e.target).value]).Some?
    && var l, r :=
      FindPrimaryField(entities[i]).value, FindPrimaryField(entities[IndexOf(entities, e.target).value]).value;
      var lc, rc := if l.column != "" then l.column else naming.snake(l.name),
        if r.column != "" then r.column else naming.snake(r.name);
      var left, right := naming.snake(entities[i].name) + "_" + lc, naming.snake(e.target) + "_" + rc;
      && t.name == (if e.through != "" then e.through else naming.joinTable(entities[i].name, e.target))
      && t.columns == [
          Column(left, naming.sqlType(l), false, false, "", false, false, "", [], false, []),
          Column(right, naming.sqlType(r), false, false, "", false, false, "", [], false, [])]
      && t.primaryKey == [left, right] && t.indexes == [] && t.hypertableColumn == "" && t.isJoinTable
      && multiset(t.foreignKeys) == multiset{
          ForeignKey(left, naming.pluralize(entities[i].name), lc, "fk_" + t.name + "_" + left, e.onDelete, e.onUpdate),
          ForeignKey(right, naming.pluralize(e.target), rc, "fk_" + t.name + "_" + right, e.onDelete, e.onUpdate)}
  }

  lemma PlannedJoinTable(naming: Naming, entities: seq<Entity>, i: nat, j: nat, join: JoinTable)
    requires IsEdge(entities, i, j) && JoinAt(naming, entities, i, j) == Some(join)
    ensures JoinTableFor(naming, entities, i, j, JoinTableOf(naming, join))
  {
    hide IndexOf, FindPrimaryField;
  }

  // Normalising keeps what a table is

  lemma NormalColumnsAre(naming: Naming, entities: seq<Entity>, k: nat, columns: seq<Column>)
    requires k < |entities| && ColumnsAre(naming, entities, k, columns)
    ensures ColumnsAre(naming, entities, k, NormalColumns(columns))
  {
    var fields, r := entities[k].fields, NormalColumns(columns);
    hide Asks, AsksFirst, DeclaresColumn, Asked, SortBy, FlaggedAs;
    forall x | 0 <= x < |fields| ensures DeclaredAs(naming, fields[x], r[x]) {
      NormalDeclared(naming, fields[x], columns[x]);
    }
    forall x | |fields| <= x < |columns| ensures AddedFirst(naming, entities, k, r[x]) {
      var i: nat, j: nat :|
        AsksFirst(naming, entities, i, j, ColumnOn(k, columns[x].name)) && AddedAs(naming, entities, i, j, columns[x]);
      NormalAdded(naming, entities, i, j, columns[x]);
    }
    forall x | 0 <= x < |columns| ensures FlaggedAs(naming, entities, k, r[x]) {
      NormalFlags(naming, entities, k, columns[x]);
    }
    forall c ensures HasColumnNamed(r, c) <==> HasColumnNamed(columns, c) {
      if x :| 0 <= x < |columns| && columns[x].name == c { assert r[x].name == c; }
    }
  }

  lemma NormalDeclared(naming: Naming, f: Field, col: Column)
    requires DeclaredAs(naming, f, col)
    ensures DeclaredAs(naming, f, NormalColumn(col))
  {
    assert multiset(SortBy(Less, col.dependencies)) == multiset(col.dependencies);
    if col.dependencies == [] { assert SortBy(Less, col.dependencies) == []; }
    hide SortBy;
  }

  lemma NormalAdded(naming: Naming, entities: seq<Entity>, i: nat, j: nat, col: Column)
    requires IsEdge(entities, i, j) && AddedAs(naming, entities, i, j, col)
    ensures NormalColumn(col) == col
  {
    var none: seq<string> := [];
    assert SortBy(Less, none) == none;
    hide FindPrimaryField, IndexOf;
  }

  lemma NormalFlags(naming: Naming, entities: seq<Entity>, k: nat, col: Column)
    requires k < |entities| && FlaggedAs(naming, entities, k, col)
    ensures FlaggedAs(naming, entities, k, NormalColumn(col))
  {
    hide Asks;
  }

  lemma NormalEntityTable(naming: Naming, entities: seq<Entity>, k: nat, t: Table)
    requires k < |entities| && EntityTable(naming, entities, k, t)
    ensures EntityTable(naming, entities, k, NormalTable(t))
  {
    NormalColumnsAre(naming, entities, k, t.columns);
    SameMembers(t.foreignKeys, SortBy(ForeignKeyLess, t.foreignKeys));
    hide ColumnsAre, PrimaryKeyIs, HypertableIs, FirstKey, SortBy;
  }

  lemma NormalJoinTable(naming: Naming, entities: seq<Entity>, i: nat, j: nat, t: Table)
    requires IsEdge(entities, i, j) && JoinTableFor(naming, entities, i, j, t)
    ensures JoinTableFor(naming, entities, i, j, NormalTable(t))
  {
    var none: seq<string>, noIndex: seq<Index> := [], [];
    assert SortBy(Less, none) == none && SortBy(IndexLess, noIndex) == noIndex;
    assert forall x :: 0 <= x < |t.columns| ==> t.columns[x].dependencies == [];
    assert NormalColumns(t.columns) == t.columns;
    assert multiset(SortBy(ForeignKeyLess, t.foreignKeys)) == multiset(t.foreignKeys);
    hide FindPrimaryField, IndexOf, SortBy;
  }

  // The whole snapshot

  ghost predicate IsJoinTableOf(naming: Naming, entities: seq<Entity>, name: string, t: Table) {
    exists i: nat, j: nat ::
      AsksFirst(naming, entities, i, j, TableNamed(name)) && JoinTableFor(naming, entities, i, j, t)
  }

  ghost predicate HasEntityTable(naming: Naming, entities: seq<Entity>, k: nat, s: Schema)
    requires k < |entities|
  {
    exists t :: t in s.tables && EntityTable(naming, entities, k, t)
  }

  /** One table for each entity and one for each join table that an edge asks for, as the first such
      edge has it; and the extensions that are called for. */
  ghost predicate Holds(naming: Naming, entities: seq<Entity>, flags: ExtensionFlags, s: Schema) {
    && (forall k :: 0 <= k < |entities| ==> HasEntityTable(naming, entities, k, s))
    && (forall name :: Asked(naming, entities, TableNamed(name)) ==>
      exists t :: t in s.tables && IsJoinTableOf(naming, entities, name, t))
    && (forall t :: t in s.tables ==>
      || (exists k :: 0 <= k < |entities| && EntityTable(naming, entities, k, t))
      || (exists name :: IsJoinTableOf(naming, entities, name, t)))
    && (forall e :: e in s.extensions <==>
      || (e == "postgis" && flags.postgis) || (e == "vector" && flags.pgvector)
      || (e == "timescaledb" && flags.timescale))
  }

  lemma JoinTableHeld(naming: Naming, entities: seq<Entity>, name: string)
    requires name in Walk(naming, entities, |entities|).joins
    ensures IsJoinTableOf(naming, entities, name,
      NormalTable(JoinTableOf(naming, Walk(naming, entities, |entities|).joins[name])))
  {
    hide Walk, JoinAt, JoinTableFor, JoinTableOf, NormalTable, AsksFirst, First;
    var join := Walk(naming, entities, |entities|).joins[name];
    JoinsComeFromEdges(naming, entities, name);
    FirstExact(naming, entities, TableNamed(name));
    var first := First(naming, entities, TableNamed(name));
    var i, j := first.value.0, first.value.1;
    PlannedJoinTable(naming, entities, i, j, join);
    NormalJoinTable(naming, entities, i, j, JoinTableOf(naming, join));
  }

  lemma ExtensionsHeld(flags: ExtensionFlags, e: string)
    ensures e in ExtensionsOf(flags) <==>
      || (e == "postgis" && flags.postgis) || (e == "vector" && flags.pgvector)
      || (e == "timescaledb" && flags.timescale)
  {
  }

  lemma TablesHeld(naming: Naming, entities: seq<Entity>, order: seq<string>, flags: ExtensionFlags, t: Table)
    requires OrderOf(Walk(naming, entities, |entities|), order)
    requires |Walk(naming, entities, |entities|).entries| == |entities|
    ensures var p := Walk(naming, entities, |entities|);
      t in Normal(SnapshotOf(naming, entities, p, order, flags)).tables <==>
        || (exists k :: 0 <= k < |entities| && t == NormalTable(TableOf(naming, entities[k], p.entries[k])))
        || (exists n :: n in p.joins && t == NormalTable(JoinTableOf(naming, p.joins[n])))
  {
    hide Walk, NormalTable, TableOf, JoinTableOf, SortBy, TableLess, SnapshotOf, OrderOf;
    var p := Walk(naming, entities, |entities|);
    TakeJoins(p, order);
    var raw := SnapshotOf(naming, entities, p, order, flags).tables;
    SortedMembers(raw, t);
    forall x ensures x in raw <==>
      || (exists k :: 0 <= k < |entities| && x == TableOf(naming, entities[k], p.entries[k]))
      || (exists n :: n in p.joins && x == JoinTableOf(naming, p.joins[n]))
    {
      RawTables(naming, entities, p, order, flags, x);
    }
  }

  lemma TakeJoins(p: Plan, order: seq<string>)
    requires OrderOf(p, order)
    ensures forall n :: n in order ==> n in p.joins
  {
  }

  lemma SortedMembers(raw: seq<Table>, t: Table)
    ensures t in NormalTables(SortBy(TableLess, raw)) <==> exists x :: x in raw && t == NormalTable(x)
  {
    hide SortBy, TableLess, NormalTable;
    SameMembers(raw, SortBy(TableLess, raw));
    MappedMembers(SortBy(TableLess, raw), t);
  }

  lemma RawTables(naming: Naming, entities: seq<Entity>, p: Plan, order: seq<string>, flags: ExtensionFlags, x: Table)
    requires |p.entries| == |entities| && OrderOf(p, order)
    ensures x in SnapshotOf(naming, entities, p, order, flags).tables <==>
      || (exists k :: 0 <= k < |entities| && x == TableOf(naming, entities[k], p.entries[k]))
      || (exists n :: n in p.joins && x == JoinTableOf(naming, p.joins[n]))
  {
    hide TableOf, JoinTableOf;
    var es, js := EntityTables(naming, entities, p), JoinTables(naming, p, order);
    if k :| 0 <= k < |entities| && x == TableOf(naming, entities[k], p.entries[k]) {
      assert es[k] == x;
    } else if n :| n in p.joins && x == JoinTableOf(naming, p.joins[n]) {
      var l :| 0 <= l < |order| && order[l] == n;
      assert js[l] == x;
    }
    assert forall y :: 0 <= y < |js| ==> order[y] in order;
    assert x in es + js ==> x in es || x in js;
  }

  lemma MappedMembers(ts: seq<Table>, t: Table)
    ensures t in NormalTables(ts) <==> exists x :: x in ts && t == NormalTable(x)
  {
    hide NormalTable;
    if x :| x in ts && t == NormalTable(x) {
      var i :| 0 <= i < |ts| && ts[i] == x;
      assert NormalTables(ts)[i] == t;
    }
  }

  /** The snapshot of any entities with distinct columns. */
  lemma {:induction false} SnapshotHolds(naming: Naming, entities: seq<Entity>, flags: ExtensionFlags, s: Schema)
    requires forall k :: 0 <= k < |entities| ==> DistinctColumns(naming, entities[k])
    requires IsSnapshot(naming, entities, flags, s)
    ensures Holds(naming, entities, flags, s)
  {
    EntriesOfWalk(naming, entities);
    hide Walk, Normal, SnapshotOf, DistinctColumns, EntityTable, IsJoinTableOf, NormalTable, TableOf, JoinTableOf,
      Asked;
    var p := Walk(naming, entities, |entities|);
    var order :| OrderOf(p, order) && s == Normal(SnapshotOf(naming, entities, p, order, flags));
    forall t ensures t in s.tables <==>
      || (exists k :: 0 <= k < |entities| && t == NormalTable(TableOf(naming, entities[k], p.entries[k])))
      || (exists n :: n in p.joins && t == NormalTable(JoinTableOf(naming, p.joins[n])))
    {
      TablesHeld(naming, entities, order, flags, t);
    }
    forall k | 0 <= k < |entities|
      ensures EntityTable(naming, entities, k, NormalTable(TableOf(naming, entities[k], p.entries[k])))
      ensures HasEntityTable(naming, entities, k, s)
    {
      assert NormalTable(TableOf(naming, entities[k], p.entries[k])) in s.tables;
      PlannedTable(naming, entities, k);
      NormalEntityTable(naming, entities, k, TableOf(naming, entities[k], p.entries[k]));
    }
    forall n | n in p.joins
      ensures NormalTable(JoinTableOf(naming, p.joins[n])) in s.tables
      ensures IsJoinTableOf(naming, entities, n, NormalTable(JoinTableOf(naming, p.joins[n])))
    {
      assert NormalTable(JoinTableOf(naming, p.joins[n])) in s.tables;
      JoinTableHeld(naming, entities, n);
    }
    forall n ensures n in p.joins <==> Asked(naming, entities, TableNamed(n)) {
      JoinsComeFromEdges(naming, entities, n);
    }
    ExtensionsOfSnapshot(naming, entities, p, order, flags);
  }

  lemma ExtensionsOfSnapshot(naming: Naming, entities: seq<Entity>, p: Plan, order: seq<string>, flags: ExtensionFlags)
    requires OrderOf(p, order) && |p.entries| == |entities|
    ensures forall e :: e in Normal(SnapshotOf(naming, entities, p, order, flags)).extensions <==>
      || (e == "postgis" && flags.postgis) || (e == "vector" && flags.pgvector)
      || (e == "timescaledb" && flags.timescale)
  {
    SameMembers(ExtensionsOf(flags), SortBy(Less, ExtensionsOf(flags)));
    forall e ensures e in ExtensionsOf(flags) <==>
      || (e == "postgis" && flags.postgis) || (e == "vector" && flags.pgvector)
      || (e == "timescaledb" && flags.timescale)
    {
      ExtensionsHeld(flags, e);
    }
    hide SortBy, ExtensionsOf, TableOf, JoinTableOf, NormalTables;
  }
}
