/** When the migration leaves exactly the database that the next snapshot describes. */
module MigrationFaithful {
  import opened Names
  import opened Results
  import opened SchemaSnapshot
  import opened Database
  import opened SchemaDiff
  import opened PatchPhases
  import opened TablePatch
  import opened SchemaPatch
  import opened Migration

  // The conditions, on the two snapshots alone

  /** UNIQUE is not altered on a plain column, and neither are the default and the enum
      values of a generated or read-only column that is not made anew. */
  ghost predicate ColumnFaithful(p: Column, n: Column) {
    if Regenerated(p, n) then true
    else if Guarded(p, n) then ColumnDefault(p) == ColumnDefault(n) && p.enumValues == n.enumValues
    else p.unique == n.unique
  }

  /** The primary key is not altered, only lost with its columns. */
  ghost predicate PrimaryKeyFaithful(p: Table, n: Table) {
    if Touches(p.primaryKey, Lost(p, n)) then n.primaryKey == [] else p.primaryKey == n.primaryKey
  }

  /** A kept index must not use a column that is made anew; a new one must not wait for
      its name to be dropped from a later table. */
  ghost predicate IndexesFaithful(P: TableMap, N: TableMap, t: string)
    requires t in P && t in N
  {
    && (forall i :: Kept(Indexes(P[t]), Indexes(N[t]), i) ==> !Touches(Indexes(N[t])[i].columns, Lost(P[t], N[t])))
    && NoIndexMovesBack(P, N, t)
  }

  /** A kept foreign key must not join columns that are made anew; the foreign keys of a
      new table must not have actions. */
  ghost predicate KeyFaithful(P: TableMap, N: TableMap, k: FkKey)
    requires HasForeignKey(N, k)
  {
    var fk := ForeignKeyAt(N, k);
    if k.0 !in P then fk.onDelete == "" && fk.onUpdate == ""
    else Kept(ForeignKeys(P[k.0]), ForeignKeys(N[k.0]), k.1) ==>
      && fk.column !in Lost(P[k.0], N[k.0])
      && (fk.targetTable in P && fk.targetTable in N ==> fk.targetColumn !in Lost(P[fk.targetTable], N[fk.targetTable]))
  }

  ghost predicate TableFaithful(P: TableMap, N: TableMap, t: string)
    requires t in P && t in N
  {
    && (forall c :: c in Columns(P[t]) && c in Columns(N[t]) ==> ColumnFaithful(Columns(P[t])[c], Columns(N[t])[c]))
    && PrimaryKeyFaithful(P[t], N[t])
    && IndexesFaithful(P, N, t)
  }

  ghost predicate Faithful(p: Schema, n: Schema) {
    && (forall t :: t in Tables(p) && t in Tables(n) ==> TableFaithful(Tables(p), Tables(n), t))
    && (forall k: FkKey :: k in ForeignKeySet(Tables(n)) ==> KeyFaithful(Tables(p), Tables(n), k))
  }

  lemma ColumnsExact(p: Table, n: Table)
    ensures ColumnsAfter(p, n) == RenderedAll(Columns(n)) <==>
      forall c :: c in Columns(p) && c in Columns(n) ==> ColumnFaithful(Columns(p)[c], Columns(n)[c])
  {
    forall c | c in Columns(p) && c in Columns(n)
      ensures PatchedColumn(Columns(p)[c], Columns(n)[c]) == Rendered(Columns(n)[c]) <==>
        ColumnFaithful(Columns(p)[c], Columns(n)[c])
    {
    }
    if ColumnsAfter(p, n) == RenderedAll(Columns(n)) {
      forall c | c in Columns(p) && c in Columns(n) ensures ColumnFaithful(Columns(p)[c], Columns(n)[c]) {
        assert c in ColumnsAfter(p, n) && ColumnsAfter(p, n)[c] == RenderedAll(Columns(n))[c];
      }
    }
  }

  lemma IndexesExact(P: TableMap, N: TableMap, t: string)
    requires t in P && t in N
    ensures IndexesAfter(P, N, t) == Indexes(N[t]) <==> IndexesFaithful(P, N, t)
  {
    if IndexesAfter(P, N, t) == Indexes(N[t]) {
      forall i | i in Indexes(N[t]) ensures IndexSurvives(P, N, t, i) {
        assert i in IndexesAfter(P, N, t);
      }
    }
  }

  lemma TableExact(P: TableMap, N: TableMap, t: string)
    requires t in P && t in N
    ensures TableAfter(P, N, t) == Described(N[t]) <==> TableFaithful(P, N, t)
  {
    ColumnsExact(P[t], N[t]);
    IndexesExact(P, N, t);
  }

  lemma KeptKeyResolves(P: TableMap, N: TableMap, k: FkKey)
    requires MapsWellFormed(P) && MapsWellFormed(N) && HasForeignKey(N, k) && !Added(P, N, k)
    ensures HasForeignKey(P, k) && ForeignKeyAt(P, k) == ForeignKeyAt(N, k)
    ensures ForeignKeyAt(N, k).targetTable in P && ForeignKeyAt(N, k).targetTable in N
  {
    assert k in AllForeignKeys(P) && ResolvesIn(P, AllForeignKeys(P)[k]);
    assert k in AllForeignKeys(N) && ResolvesIn(N, AllForeignKeys(N)[k]);
  }

  lemma KeptKeyExact(P: TableMap, N: TableMap, k: FkKey)
    requires MapsWellFormed(P) && MapsWellFormed(N) && HasForeignKey(N, k) && !Added(P, N, k)
    ensures k in Surviving(P, N) <==> KeyFaithful(P, N, k)
    ensures k in Surviving(P, N) ==> Surviving(P, N)[k] == ForeignKeyAt(N, k)
  {
    KeptKeyResolves(P, N, k);
    RemainsIsFaithful(P, N, k);
    assert k in AllForeignKeys(P) && AllForeignKeys(P)[k] == ForeignKeyAt(N, k);
  }

  lemma RemainsIsFaithful(P: TableMap, N: TableMap, k: FkKey)
    requires HasForeignKey(P, k) && HasForeignKey(N, k) && ForeignKeyAt(P, k) == ForeignKeyAt(N, k)
    requires ForeignKeyAt(N, k).targetTable in P && ForeignKeyAt(N, k).targetTable in N
    ensures KeyRemains(P, N, SharedTables(P, N), k, ForeignKeyAt(N, k)) <==> KeyFaithful(P, N, k)
  {
  }

  lemma KeyExact(P: TableMap, N: TableMap, k: FkKey)
    requires MapsWellFormed(P) && MapsWellFormed(N) && HasForeignKey(N, k)
    ensures (k in KeysAdded(P, N, Surviving(P, N), N.Keys)
      && KeysAdded(P, N, Surviving(P, N), N.Keys)[k] == ForeignKeyAt(N, k))
      <==> KeyFaithful(P, N, k)
  {
    if Added(P, N, k) {
      AddedIsNotThere(P, N, k);
      AddedKeyExact(P, N, k);
    } else {
      KeptKeyExact(P, N, k);
    }
  }

  lemma AddedKeyExact(P: TableMap, N: TableMap, k: FkKey)
    requires Added(P, N, k)
    ensures AddedAs(P, N, k) == ForeignKeyAt(N, k) <==> KeyFaithful(P, N, k)
  {
  }

  lemma NoOtherKeys(P: TableMap, N: TableMap, k: FkKey)
    requires k in KeysAdded(P, N, Surviving(P, N), N.Keys)
    ensures HasForeignKey(N, k)
  {
    if k in Surviving(P, N) { assert HasForeignKey(P, k); }
  }

  lemma KeysExact(P: TableMap, N: TableMap)
    requires MapsWellFormed(P) && MapsWellFormed(N)
    ensures KeysAdded(P, N, Surviving(P, N), N.Keys) == AllForeignKeys(N) <==>
      forall k: FkKey :: k in ForeignKeySet(N) ==> KeyFaithful(P, N, k)
  {
    var a := KeysAdded(P, N, Surviving(P, N), N.Keys);
    forall k: FkKey | k in ForeignKeySet(N) ensures (k in a && a[k] == ForeignKeyAt(N, k)) <==> KeyFaithful(P, N, k) {
      KeyExact(P, N, k);
    }
    forall k: FkKey | k in a ensures k in ForeignKeySet(N) {
      NoOtherKeys(P, N, k);
    }
    KeysEqual(a, N);
  }

  lemma KeysEqual(a: map<FkKey, ForeignKey>, N: TableMap)
    requires forall k: FkKey :: k in a ==> k in ForeignKeySet(N)
    ensures a == AllForeignKeys(N) <==>
      forall k: FkKey :: k in ForeignKeySet(N) ==> k in a && a[k] == ForeignKeyAt(N, k)
  {
    if a == AllForeignKeys(N) {
      forall k: FkKey | k in ForeignKeySet(N) ensures k in a && a[k] == ForeignKeyAt(N, k) {
        assert k in AllForeignKeys(N);
      }
    }
  }

  lemma TablesExact(p: Schema, n: Schema)
    ensures Patched(p, n).tables == DbOf(n).tables <==>
      forall t :: t in Tables(p) && t in Tables(n) ==> TableFaithful(Tables(p), Tables(n), t)
  {
    var P, N := Tables(p), Tables(n);
    forall t | t in P && t in N ensures TableAfter(P, N, t) == Described(N[t]) <==> TableFaithful(P, N, t) {
      TableExact(P, N, t);
    }
    if Patched(p, n).tables == DbOf(n).tables {
      forall t | t in P && t in N ensures TableAfter(P, N, t) == Described(N[t]) {
        assert t in Patched(p, n).tables && Patched(p, n).tables[t] == DbOf(n).tables[t];
      }
    }
  }

  /** Running the migration gives the database of the next snapshot if and only if the two
      snapshots meet the conditions of Faithful. */
  lemma MigrationReachesNext(p: Schema, n: Schema)
    requires WellFormed(p) && WellFormed(n)
    ensures Run(DbOf(p), MigrationOps(p, n)) == DbOf(n) <==> Faithful(p, n)
    ensures Faithful(p, n) ==> AllEnabled(DbOf(p), MigrationOps(p, n))
  {
    MigrationIsPatch(p, n);
    SchemaMaps(p);
    SchemaMaps(n);
    TablesExact(p, n);
    KeysExact(Tables(p), Tables(n));
  }

  /** Table `t` of `r` has the hypertable and the columns of snapshot `n`, of the right types
      and nullability, and plain columns have the right defaults and enum values. */
  ghost predicate ShapeAgrees(r: DbTable, p: Schema, n: Schema, t: string)
    requires t in Tables(n)
  {
    var N := Columns(Tables(n)[t]);
    && r.hypertable == Tables(n)[t].hypertableColumn
    && r.columns.Keys == N.Keys
    && (forall c :: c in N ==> r.columns[c].typ == N[c].typ && r.columns[c].nullable == N[c].nullable)
    && (forall c :: c in N && Plain(p, t, N[c]) ==>
          r.columns[c].default_ == ColumnDefault(N[c]) && r.columns[c].enumValues == N[c].enumValues)
  }

  /** The column is new, or neither generated nor read-only in either snapshot. */
  ghost predicate Plain(p: Schema, t: string, col: Column) {
    t in Tables(p) && col.name in Columns(Tables(p)[t]) ==> !Guarded(Columns(Tables(p)[t])[col.name], col)
  }

  lemma ShapeAlwaysAgrees(p: Schema, n: Schema, t: string)
    requires t in Tables(n)
    ensures ShapeAgrees(Patched(p, n).tables[t], p, n, t)
  {
    ColumnKeys(Tables(n)[t].columns);
    if t in Tables(p) {
      SharedShape(p, n, t);
    }
  }

  lemma SharedShape(p: Schema, n: Schema, t: string)
    requires t in Tables(n) && t in Tables(p) && NamedByKey(Columns(Tables(n)[t]))
    ensures ShapeAgrees(TableAfter(Tables(p), Tables(n), t), p, n, t)
  {
    var P, N := Columns(Tables(p)[t]), Columns(Tables(n)[t]);
    forall c | c in P && c in N
      ensures PatchedColumn(P[c], N[c]).typ == N[c].typ && PatchedColumn(P[c], N[c]).nullable == N[c].nullable
    {
    }
  }

  lemma KeysAlwaysAgree(p: Schema, n: Schema, k: FkKey)
    requires k in Patched(p, n).foreignKeys
    ensures HasForeignKey(Tables(n), k)
    ensures WithoutActions(Patched(p, n).foreignKeys[k]) == WithoutActions(ForeignKeyAt(Tables(n), k))
  {
    NoOtherKeys(Tables(p), Tables(n), k);
    if k in Surviving(Tables(p), Tables(n)) { assert HasForeignKey(Tables(p), k); }
  }

  /** Extensions, tables and their shape are right, and no foreign key joins something
      else than the next snapshot says. */
  ghost predicate Agrees(r: Db, p: Schema, n: Schema) {
    && r.extensions == DbOf(n).extensions && r.tables.Keys == Tables(n).Keys
    && (forall t :: t in Tables(n) ==> ShapeAgrees(r.tables[t], p, n, t))
    && (forall k: FkKey :: k in r.foreignKeys ==>
          HasForeignKey(Tables(n), k) && WithoutActions(r.foreignKeys[k]) == WithoutActions(ForeignKeyAt(Tables(n), k)))
  }

  lemma PatchedAgrees(p: Schema, n: Schema)
    ensures Agrees(Patched(p, n), p, n)
  {
    forall t | t in Tables(n) ensures ShapeAgrees(Patched(p, n).tables[t], p, n, t) {
      ShapeAlwaysAgrees(p, n, t);
    }
    forall k: FkKey | k in Patched(p, n).foreignKeys
      ensures HasForeignKey(Tables(n), k)
      ensures WithoutActions(Patched(p, n).foreignKeys[k]) == WithoutActions(ForeignKeyAt(Tables(n), k))
    {
      KeysAlwaysAgree(p, n, k);
    }
  }

  /** What the migration gets right for all snapshots. */
  lemma AlwaysAgrees(p: Schema, n: Schema)
    requires WellFormed(p) && WellFormed(n)
    ensures Agrees(Run(DbOf(p), MigrationOps(p, n)), p, n)
  {
    MigrationIsPatch(p, n);
    PatchedAgrees(p, n);
  }

  // Regeneration is a fixpoint

  lemma {:induction false} SelfColumns(table: string, names: seq<string>, m: ColumnMap)
    requires forall c :: c in names ==> c in m
    ensures SharedColumnOps(table, names, m, m) == []
  {
    if names != [] { SelfColumns(table, names[..|names| - 1], m); }
  }

  lemma SortedEmpty(joins: set<string>, s: set<string>)
    requires s == {}
    ensures Sorted(joins, s) == []
  {
    HasMember(Sorted(joins, s));
  }

  lemma SelfTable(t: Table)
    ensures SharedTableOps(t, t) == []
  {
    assert Changed(Indexes(t), Indexes(t)) == {} && Changed(ForeignKeys(t), ForeignKeys(t)) == {};
    SortedEmpty({}, Changed(Indexes(t), Indexes(t)));
    SortedEmpty({}, Changed(ForeignKeys(t), ForeignKeys(t)));
    SortedEmpty({}, Columns(t).Keys - Columns(t).Keys);
    SelfColumns(t.name, Sorted({}, Columns(t).Keys * Columns(t).Keys), Columns(t));
  }

  lemma {:induction false} SelfTables(names: seq<string>, m: TableMap)
    requires forall t :: t in names ==> t in m
    ensures SharedOps(names, m, m) == []
  {
    if names != [] {
      SelfTables(names[..|names| - 1], m);
      SelfTable(m[names[|names| - 1]]);
    }
  }

  /** Generating twice from the same schema gives no statement, for every snapshot whatsoever. */
  lemma DiffSelfIsEmpty(s: Schema)
    ensures SchemaOps(s, s) == [] && MigrationOps(s, s) == []
  {
    var e, m := (set x | x in s.extensions), Tables(s);
    SortedEmpty({}, e - e);
    SortedEmpty(Joins(m), m.Keys - m.Keys);
    SelfTables(Sorted({}, m.Keys * m.Keys), m);
  }

  /** An empty diff is safe: the database then already is what a migration would leave. */
  lemma EmptyDiffChangesNothing(p: Schema, n: Schema)
    requires WellFormed(p) && WellFormed(n) && SchemaOps(p, n) == []
    ensures DbOf(p) == Patched(p, n)
    ensures Faithful(p, n) <==> DbOf(p) == DbOf(n)
  {
    MigrationReachesNext(p, n);
    MigrationIsPatch(p, n);
  }

  /** The planning steps of generateMigrations: diff, then order. */
  method PlanOperations(p: Schema, n: Schema) returns (ops: Operations)
    ensures ops == MigrationOps(p, n)
    ensures p == n ==> ops == []
    ensures WellFormed(p) && WellFormed(n) ==> Run(DbOf(p), ops) == Patched(p, n)
    ensures WellFormed(p) && WellFormed(n) ==> (Run(DbOf(p), ops) == DbOf(n) <==> Faithful(p, n))
  {
    var diff := DiffSchema(p, n);
    ops := OrderMigrationOperations(diff);
    if p == n { DiffSelfIsEmpty(p); }
    if WellFormed(p) && WellFormed(n) {
      MigrationIsPatch(p, n);
      MigrationReachesNext(p, n);
    }
  }
}
