/** The migration as a patch, table by table: the database half way through the migration
    in closed form, and what the statements of one shared table make of it. */
module TablePatch {
  import opened Names
  import opened Results
  import opened SchemaSnapshot
  import opened Database
  import opened SchemaDiff
  import opened PatchPhases

  type TableMap = map<string, Table>

  // The patched database in closed form

  /** The columns of a shared table that are dropped, for good or to be added again. */
  ghost function Lost(p: Table, n: Table): set<string> {
    set c | c in Columns(p) && (c !in Columns(n) || Regenerated(Columns(p)[c], Columns(n)[c]))
  }

  /** Index `i` of `t` is still on a table that the differ treats after `t`. */
  ghost predicate MovesBack(P: TableMap, N: TableMap, t: string, i: string) {
    exists u :: u in P && u in N && Less(t, u) && i in Indexes(P[u])
  }

  ghost predicate Kept<T>(p: map<string, T>, n: map<string, T>, x: string) {
    x in p && x in n && p[x] == n[x]
  }

  ghost predicate IndexSurvives(P: TableMap, N: TableMap, t: string, i: string)
    requires t in P && t in N && i in Indexes(N[t])
  {
    if Kept(Indexes(P[t]), Indexes(N[t]), i) then !Touches(Indexes(N[t])[i].columns, Lost(P[t], N[t]))
    else !MovesBack(P, N, t, i)
  }

  ghost function ColumnsAfter(p: Table, n: Table): map<string, DbColumn> {
    map c | c in Columns(n) ::
      if c in Columns(p) then PatchedColumn(Columns(p)[c], Columns(n)[c]) else Rendered(Columns(n)[c])
  }

  ghost function IndexesAfter(P: TableMap, N: TableMap, t: string): map<string, Index>
    requires t in P && t in N
  {
    map i | i in Indexes(N[t]) && IndexSurvives(P, N, t, i) :: Indexes(N[t])[i]
  }

  ghost function TableAfter(P: TableMap, N: TableMap, t: string): DbTable
    requires t in P && t in N
  {
    DbTable(ColumnsAfter(P[t], N[t]), PrunePrimaryKey(P[t].primaryKey, Lost(P[t], N[t])), IndexesAfter(P, N, t),
      N[t].hypertableColumn)
  }

  /** A foreign key of the previous snapshot that is still there once the tables in `done`
      are treated. */
  ghost predicate KeyRemains(P: TableMap, N: TableMap, done: set<string>, k: FkKey, fk: ForeignKey) {
    && k.0 in N && fk.targetTable in N
    && (k.0 in done && k.0 in P ==>
      Kept(ForeignKeys(P[k.0]), ForeignKeys(N[k.0]), k.1) && fk.column !in Lost(P[k.0], N[k.0]))
    && (fk.targetTable in done && fk.targetTable in P ==>
      fk.targetColumn !in Lost(P[fk.targetTable], N[fk.targetTable]))
  }

  ghost function KeysAfter(P: TableMap, N: TableMap, done: set<string>): map<FkKey, ForeignKey> {
    map k | k in AllForeignKeys(P) && KeyRemains(P, N, done, k, AllForeignKeys(P)[k]) :: AllForeignKeys(P)[k]
  }

  /** The database once the shared tables in `done` are treated; the dropped ones are gone. */
  ghost function Midway(P: TableMap, N: TableMap, ext: set<string>, done: set<string>): Db {
    Db(ext,
       map t | t in P && t in N :: if t in done then TableAfter(P, N, t) else Described(P[t]),
       KeysAfter(P, N, done))
  }

  // Treating one shared table

  // The column statements of a shared table, in three parts

  type ColumnMap = map<string, Column>

  ghost function SharedDone(P: ColumnMap, N: ColumnMap): map<string, DbColumn> {
    map c | c in P :: if c in N then PatchedColumn(P[c], N[c]) else Rendered(P[c])
  }

  ghost function AddsDone(P: ColumnMap, N: ColumnMap): map<string, DbColumn> {
    map c | c in P.Keys + N.Keys ::
      if c in P then (if c in N then PatchedColumn(P[c], N[c]) else Rendered(P[c])) else Rendered(N[c])
  }

  ghost function RegeneratedSet(P: ColumnMap, N: ColumnMap): set<string> {
    set c | c in P && c in N && Regenerated(P[c], N[c])
  }

  ghost predicate NamedByKey(P: ColumnMap) {
    forall c :: c in P ==> P[c].name == c
  }

  lemma RunSharedPart(db: Db, t: string, P: ColumnMap, N: ColumnMap)
    requires t in db.tables && db.tables[t].columns == RenderedAll(P) && NamedByKey(P) && NamedByKey(N)
    ensures var ops := SharedColumnOps(t, Sorted({}, P.Keys * N.Keys), P, N);
      Run(db, ops) == Shrunk(db, t, SharedDone(P, N), RegeneratedSet(P, N)) && AllEnabled(db, ops)
  {
    var names := Sorted({}, P.Keys * N.Keys);
    SharedMaps(P, N, names);
    RunSharedColumns(db, t, names, P, N);
  }

  lemma SharedMaps(P: ColumnMap, N: ColumnMap, names: seq<string>)
    requires forall c :: c in names <==> c in P && c in N
    ensures PatchedColumns(RenderedAll(P), names, P, N) == SharedDone(P, N)
    ensures RegeneratedAmong(names, P, N) == RegeneratedSet(P, N)
  {
  }

  lemma AddMaps(P: ColumnMap, N: ColumnMap, names: seq<string>)
    requires forall c :: c in names <==> c in N && c !in P
    ensures AddedColumns(SharedDone(P, N), names, N) == AddsDone(P, N)
  {
    AddedColumnsAt(SharedDone(P, N), names, N);
  }

  lemma DropMaps(p: Table, n: Table, gone: set<string>)
    requires forall c :: c in gone <==> c in Columns(p) && c !in Columns(n)
    ensures AddsDone(Columns(p), Columns(n)) - gone == ColumnsAfter(p, n)
    ensures RegeneratedSet(Columns(p), Columns(n)) + gone == Lost(p, n)
  {
  }

  lemma ShrunkAdds(db: Db, t: string, a: map<string, DbColumn>, lost: set<string>, b: map<string, DbColumn>)
    requires t in db.tables
    ensures WithColumns(Shrunk(db, t, a, lost), t, b) == Shrunk(db, t, b, lost)
  {
    var d1, d2 := Shrunk(db, t, a, lost), Shrunk(db, t, b, lost);
    WithTableTwice(db, t, d1.tables[t], d2.tables[t]);
  }

  lemma RunAddPart(db: Db, t: string, P: ColumnMap, N: ColumnMap, lost: set<string>)
    requires t in db.tables && NamedByKey(N)
    ensures var ops := ColumnAdds(t, Sorted({}, N.Keys - P.Keys), N);
      && Run(Shrunk(db, t, SharedDone(P, N), lost), ops) == Shrunk(db, t, AddsDone(P, N), lost)
      && AllEnabled(Shrunk(db, t, SharedDone(P, N), lost), ops)
  {
    var names := Sorted({}, N.Keys - P.Keys);
    AddMaps(P, N, names);
    RunColumnAdds(Shrunk(db, t, SharedDone(P, N), lost), t, names, N);
    ShrunkAdds(db, t, SharedDone(P, N), lost, AddsDone(P, N));
  }

  lemma RunDropPart(db: Db, t: string, p: Table, n: Table)
    requires t in db.tables
    ensures var P, N := Columns(p), Columns(n);
      var ops := ColumnDrops(t, Sorted({}, P.Keys - N.Keys));
      && Run(Shrunk(db, t, AddsDone(P, N), RegeneratedSet(P, N)), ops) == Shrunk(db, t, ColumnsAfter(p, n), Lost(p, n))
      && AllEnabled(Shrunk(db, t, AddsDone(P, N), RegeneratedSet(P, N)), ops)
  {
    var P, N := Columns(p), Columns(n);
    var names := Sorted({}, P.Keys - N.Keys);
    var gone := set c | c in names;
    RunColumnDrops(Shrunk(db, t, AddsDone(P, N), RegeneratedSet(P, N)), t, names);
    ShrunkTwice(db, t, AddsDone(P, N), RegeneratedSet(P, N), AddsDone(P, N) - gone, gone);
    DropMaps(p, n, gone);
  }

  lemma RunColumnList(db: Db, t: string, p: Table, n: Table)
    requires t in db.tables && db.tables[t].columns == RenderedAll(Columns(p))
    ensures Run(db, ColumnListOps(t, Columns(p), Columns(n))) == Shrunk(db, t, ColumnsAfter(p, n), Lost(p, n))
    ensures AllEnabled(db, ColumnListOps(t, Columns(p), Columns(n)))
  {
    var P, N := Columns(p), Columns(n);
    ColumnKeys(p.columns);
    ColumnKeys(n.columns);
    RunSharedPart(db, t, P, N);
    RunAddPart(db, t, P, N, RegeneratedSet(P, N));
    RunDropPart(db, t, p, n);
    var a := SharedColumnOps(t, Sorted({}, P.Keys * N.Keys), P, N);
    var b := ColumnAdds(t, Sorted({}, N.Keys - P.Keys), N);
    RunConcat(db, a, b);
    RunConcat(db, a + b, ColumnDrops(t, Sorted({}, P.Keys - N.Keys)));
  }

  // All statements of a shared table

  /** The shared tables are treated in name order. */
  ghost predicate Upto(P: TableMap, N: TableMap, done: set<string>, t: string) {
    forall u :: u in P && u in N ==> (u in done <==> Less(u, t))
  }

  ghost predicate MapsWellFormed(P: TableMap) {
    && (forall t :: t in P ==> P[t].name == t && WellFormedTable(P[t]))
    && (forall t, u, i :: t in P && u in P && i in Indexes(P[t]) && i in Indexes(P[u]) ==> t == u)
    && (forall k: FkKey :: k in AllForeignKeys(P) ==> ResolvesIn(P, AllForeignKeys(P)[k]))
  }

  ghost predicate ResolvesIn(P: TableMap, fk: ForeignKey) {
    fk.targetTable in P && fk.targetColumn in Columns(P[fk.targetTable])
  }

  lemma SchemaMaps(s: Schema)
    requires WellFormed(s)
    ensures MapsWellFormed(Tables(s))
  {
    TableKeys(s.tables);
    var P := Tables(s);
    forall k: FkKey | k in AllForeignKeys(P) ensures ResolvesIn(P, AllForeignKeys(P)[k]) {
      assert k.0 in P && k.1 in ForeignKeys(P[k.0]);
      assert Resolves(s, ForeignKeys(P[k.0])[k.1]);
    }
  }

  /** Indexes on the other tables while `t` is treated: those before it are new already. */
  lemma BlockedMidway(P: TableMap, N: TableMap, ext: set<string>, done: set<string>, t: string, i: string)
    requires MapsWellFormed(P) && MapsWellFormed(N) && Upto(P, N, done, t) && t in P && t in N
    ensures i in Indexes(P[t]) ==> !Blocked(Midway(P, N, ext, done), t, i)
    ensures i in Indexes(N[t]) ==> (Blocked(Midway(P, N, ext, done), t, i) <==> MovesBack(P, N, t, i))
  {
    var db := Midway(P, N, ext, done);
    forall u | u in db.tables && u != t && i in db.tables[u].indexes
      ensures i !in Indexes(P[t])
      ensures i in Indexes(N[t]) ==> MovesBack(P, N, t, i)
    {
      LessTotal(u, t);
      if u in done {
        assert i in Indexes(N[u]);
        if i in Indexes(P[t]) {
          assert MovesBack(P, N, u, i);
        }
      }
    }
    if i in Indexes(N[t]) && MovesBack(P, N, t, i) {
      var u :| u in P && u in N && Less(t, u) && i in Indexes(P[u]);
      LessTotal(t, u);
      assert u in db.tables && u != t && i in db.tables[u].indexes;
    }
  }

  ghost function KeptIndexes(p: Table, n: Table): map<string, Index> {
    map i | i in Indexes(p) && Kept(Indexes(p), Indexes(n), i) :: Indexes(p)[i]
  }

  ghost function KeptKeys(fks: map<FkKey, ForeignKey>, t: string, p: Table, n: Table): map<FkKey, ForeignKey> {
    map k | k in fks && !(k.0 == t && k.1 in Changed(ForeignKeys(p), ForeignKeys(n))) :: fks[k]
  }

  lemma IndexNames(t: Table)
    ensures forall i :: i in Indexes(t) ==> Indexes(t)[i].name == i
    ensures forall k :: k in ForeignKeys(t) ==> ForeignKeys(t)[k].constraint == k
  {
    IndexKeys(t.indexes);
    ForeignKeyKeys(t.foreignKeys);
  }

  /** Dropping what is gone or changed leaves the kept indexes ... */
  lemma RunIndexDropPart(db: Db, t: string, p: Table, n: Table)
    requires t in db.tables && db.tables[t].indexes == Indexes(p)
    requires forall i :: i in Indexes(p) ==> !Blocked(db, t, i)
    ensures var ops := IndexDrops(Sorted({}, Changed(Indexes(p), Indexes(n))));
      Run(db, ops) == WithIndexes(db, t, KeptIndexes(p, n)) && AllEnabled(db, ops)
  {
    var names := Sorted({}, Changed(Indexes(p), Indexes(n)));
    RunIndexDrops(db, t, names);
    assert Indexes(p) - (set i | i in names) == KeptIndexes(p, n);
  }

  /** ... and the kept foreign keys. */
  lemma RunKeyDropPart(db: Db, t: string, p: Table, n: Table)
    requires t in db.tables
    ensures var ops := ForeignKeyDrops(t, Sorted({}, Changed(ForeignKeys(p), ForeignKeys(n))));
      Run(db, ops) == db.(foreignKeys := KeptKeys(db.foreignKeys, t, p, n)) && AllEnabled(db, ops)
  {
    RunForeignKeyDrops(db, t, Sorted({}, Changed(ForeignKeys(p), ForeignKeys(n))));
  }

  /** The new indexes, on a table that has only surviving kept ones. */
  lemma RunIndexAddPart(P: TableMap, N: TableMap, db: Db, t: string)
    requires t in db.tables && t in P && t in N && WellFormedTable(N[t])
    requires db.tables[t].indexes == PruneIndexes(KeptIndexes(P[t], N[t]), Lost(P[t], N[t]))
    requires db.tables[t].columns == ColumnsAfter(P[t], N[t])
    requires forall i :: i in Indexes(N[t]) ==> (Blocked(db, t, i) <==> MovesBack(P, N, t, i))
    ensures var ops := IndexAdds(t, Sorted({}, Changed(Indexes(N[t]), Indexes(P[t]))), Indexes(N[t]));
      && Run(db, ops) == WithIndexes(db, t, IndexesAfter(P, N, t))
      && (AllEnabled(db, ops) <==> NoIndexMovesBack(P, N, t))
  {
    var names := Sorted({}, Changed(Indexes(N[t]), Indexes(P[t])));
    IndexNames(N[t]);
    RunIndexAdds(db, t, names, Indexes(N[t]));
    AddedIndexesAt(db, t, names, Indexes(N[t]));
    AddIndexMaps(P, N, db, t, AddedIndexes(db, t, names, Indexes(N[t])));
  }

  lemma AddIndexMaps(P: TableMap, N: TableMap, db: Db, t: string, m: map<string, Index>)
    requires t in db.tables && t in P && t in N
    requires forall i :: i in Indexes(N[t]) ==> (Blocked(db, t, i) <==> MovesBack(P, N, t, i))
    requires forall i :: i in m <==>
      (i in PruneIndexes(KeptIndexes(P[t], N[t]), Lost(P[t], N[t]))
        || (i in Changed(Indexes(N[t]), Indexes(P[t])) && !Blocked(db, t, i)))
    requires forall i :: i in m ==> m[i] == if i in Changed(Indexes(N[t]), Indexes(P[t])) then Indexes(N[t])[i]
      else Indexes(P[t])[i]
    ensures m == IndexesAfter(P, N, t)
  {
    forall i ensures i in m <==> i in IndexesAfter(P, N, t) {
      assert i in Changed(Indexes(N[t]), Indexes(P[t])) <==>
        i in Indexes(N[t]) && !Kept(Indexes(P[t]), Indexes(N[t]), i);
    }
  }

  /** No index that is new or changed on `t` is still held by a later table. */
  ghost predicate NoIndexMovesBack(P: TableMap, N: TableMap, t: string)
    requires t in P && t in N
  {
    forall i :: i in Changed(Indexes(N[t]), Indexes(P[t])) ==> !MovesBack(P, N, t, i)
  }

  lemma KeysStep(P: TableMap, N: TableMap, done: set<string>, t: string)
    requires t in P && t in N && t !in done
    ensures PruneForeignKeys(KeptKeys(KeysAfter(P, N, done), t, P[t], N[t]), t, Lost(P[t], N[t]))
      == KeysAfter(P, N, done + {t})
  {
    forall k: FkKey | k in AllForeignKeys(P)
      ensures KeyRemains(P, N, done + {t}, k, AllForeignKeys(P)[k]) <==>
        KeyRemains(P, N, done, k, AllForeignKeys(P)[k]) && KeyStays(P, N, t, k, AllForeignKeys(P)[k])
    {
      KeyRemainsStep(P, N, done, t, k, AllForeignKeys(P)[k]);
    }
  }

  ghost predicate KeyStays(P: TableMap, N: TableMap, t: string, k: FkKey, fk: ForeignKey)
    requires t in P && t in N
  {
    !(k.0 == t && k.1 in Changed(ForeignKeys(P[t]), ForeignKeys(N[t]))) && !OnColumn(k, fk, t, Lost(P[t], N[t]))
  }

  lemma KeyRemainsStep(P: TableMap, N: TableMap, done: set<string>, t: string, k: FkKey, fk: ForeignKey)
    requires t in P && t in N && t !in done && k.0 in P && k.1 in ForeignKeys(P[k.0])
    ensures KeyRemains(P, N, done + {t}, k, fk) <==> KeyRemains(P, N, done, k, fk) && KeyStays(P, N, t, k, fk)
  {
    assert k.0 == t ==>
      (k.1 in Changed(ForeignKeys(P[t]), ForeignKeys(N[t])) <==> !Kept(ForeignKeys(P[t]), ForeignKeys(N[t]), k.1));
  }

  lemma MidwayStep(P: TableMap, N: TableMap, ext: set<string>, done: set<string>, t: string)
    requires t in P && t in N && t !in done
    ensures WithTable(Midway(P, N, ext, done), t, TableAfter(P, N, t)).(foreignKeys := KeysAfter(P, N, done + {t}))
      == Midway(P, N, ext, done + {t})
  {
    assert Midway(P, N, ext, done).tables[t := TableAfter(P, N, t)] == Midway(P, N, ext, done + {t}).tables;
  }

  /** The statements of one shared table without its new foreign keys. */
  ghost function ImmediateOps(p: Table, n: Table): Operations {
    DropAndColumnOps(p, n) + (TableIndexOps(p, n) + HypertableOps(p, n))
  }

  lemma RunDropsAndColumns(db: Db, t: string, p: Table, n: Table)
    requires t in db.tables && db.tables[t] == Described(p) && n.name == p.name == t
    requires forall i :: i in Indexes(p) ==> !Blocked(db, t, i)
    ensures Run(db, DropAndColumnOps(p, n)) == ShrunkTable(db, t, p, n) && AllEnabled(db, DropAndColumnOps(p, n))
  {
    var a := IndexDrops(Sorted({}, Changed(Indexes(p), Indexes(n))));
    var b := ForeignKeyDrops(t, Sorted({}, Changed(ForeignKeys(p), ForeignKeys(n))));
    RunIndexDropPart(db, t, p, n);
    var d1 := WithIndexes(db, t, KeptIndexes(p, n));
    RunKeyDropPart(d1, t, p, n);
    RunColumnList(d1.(foreignKeys := KeptKeys(db.foreignKeys, t, p, n)), t, p, n);
    RunConcat(db, a, b);
    RunConcat(db, a + b, ColumnListOps(t, Columns(p), Columns(n)));
  }

  ghost function ShrunkTable(db: Db, t: string, p: Table, n: Table): Db
    requires t in db.tables
  {
    Shrunk(WithIndexes(db, t, KeptIndexes(p, n)).(foreignKeys := KeptKeys(db.foreignKeys, t, p, n)), t,
      ColumnsAfter(p, n), Lost(p, n))
  }

  lemma RunAddsAndHypertable(P: TableMap, N: TableMap, db: Db, t: string)
    requires t in db.tables && t in P && t in N && WellFormedTable(N[t]) && N[t].name == t
    requires db.tables[t] == Described(P[t])
    requires forall i :: i in Indexes(N[t]) ==> (Blocked(db, t, i) <==> MovesBack(P, N, t, i))
    ensures var d3 := ShrunkTable(db, t, P[t], N[t]);
      var ops := TableIndexOps(P[t], N[t]) + HypertableOps(P[t], N[t]);
      && Run(d3, ops) == WithTable(db, t, TableAfter(P, N, t))
           .(foreignKeys := PruneForeignKeys(KeptKeys(db.foreignKeys, t, P[t], N[t]), t, Lost(P[t], N[t])))
      && (AllEnabled(d3, ops) <==> NoIndexMovesBack(P, N, t))
  {
    var p, n := P[t], N[t];
    var d3 := ShrunkTable(db, t, p, n);
    forall i | i in Indexes(n) ensures Blocked(d3, t, i) <==> MovesBack(P, N, t, i) {
      BlockedSame(d3, db, t, i);
    }
    RunIndexAddPart(P, N, d3, t);
    var d4 := WithIndexes(d3, t, IndexesAfter(P, N, t));
    RunHypertable(d4, p, n);
    RunConcat(d3, TableIndexOps(p, n), HypertableOps(p, n));
    CollapseUpdates(db, t, KeptIndexes(p, n), KeptKeys(db.foreignKeys, t, p, n), ColumnsAfter(p, n), Lost(p, n),
      IndexesAfter(P, N, t), n.hypertableColumn);
  }

  lemma BlockedSame(a: Db, b: Db, t: string, i: string)
    requires forall u :: u != t ==> (u in a.tables <==> u in b.tables)
    requires forall u :: u != t && u in a.tables ==> a.tables[u] == b.tables[u]
    ensures Blocked(a, t, i) <==> Blocked(b, t, i)
  {
    if Blocked(a, t, i) {
      var u :| u in a.tables && u != t && i in a.tables[u].indexes;
      assert u in b.tables && i in b.tables[u].indexes;
    }
    if Blocked(b, t, i) {
      var u :| u in b.tables && u != t && i in b.tables[u].indexes;
      assert u in a.tables && i in a.tables[u].indexes;
    }
  }

  lemma RunImmediate(P: TableMap, N: TableMap, db: Db, t: string)
    requires t in db.tables && t in P && t in N && WellFormedTable(N[t]) && db.tables[t] == Described(P[t])
    requires P[t].name == N[t].name == t
    requires forall i :: i in Indexes(P[t]) ==> !Blocked(db, t, i)
    requires forall i :: i in Indexes(N[t]) ==> (Blocked(db, t, i) <==> MovesBack(P, N, t, i))
    ensures Run(db, ImmediateOps(P[t], N[t])) == WithTable(db, t, TableAfter(P, N, t))
           .(foreignKeys := PruneForeignKeys(KeptKeys(db.foreignKeys, t, P[t], N[t]), t, Lost(P[t], N[t])))
    ensures AllEnabled(db, ImmediateOps(P[t], N[t])) <==> NoIndexMovesBack(P, N, t)
  {
    RunDropsAndColumns(db, t, P[t], N[t]);
    RunAddsAndHypertable(P, N, db, t);
    RunConcat(db, DropAndColumnOps(P[t], N[t]), TableIndexOps(P[t], N[t]) + HypertableOps(P[t], N[t]));
  }

  lemma RunSharedTable(P: TableMap, N: TableMap, ext: set<string>, done: set<string>, t: string)
    requires MapsWellFormed(P) && MapsWellFormed(N) && Upto(P, N, done, t) && t in P && t in N
    ensures Run(Midway(P, N, ext, done), ImmediateOps(P[t], N[t])) == Midway(P, N, ext, done + {t})
    ensures AllEnabled(Midway(P, N, ext, done), ImmediateOps(P[t], N[t])) <==> NoIndexMovesBack(P, N, t)
  {
    LessTotal(t, t);
    var db := Midway(P, N, ext, done);
    forall i
      ensures i in Indexes(P[t]) ==> !Blocked(db, t, i)
      ensures i in Indexes(N[t]) ==> (Blocked(db, t, i) <==> MovesBack(P, N, t, i))
    {
      BlockedMidway(P, N, ext, done, t, i);
    }
    RunImmediate(P, N, db, t);
    KeysStep(P, N, done, t);
    MidwayStep(P, N, ext, done, t);
  }

  lemma CollapseUpdates(db: Db, t: string, kept: map<string, Index>, keys: map<FkKey, ForeignKey>,
      columns: map<string, DbColumn>, lost: set<string>, indexes: map<string, Index>, hyper: string)
    requires t in db.tables
    ensures var d3 := Shrunk(WithIndexes(db, t, kept).(foreignKeys := keys), t, columns, lost);
      var d4 := WithIndexes(d3, t, indexes);
      WithTable(d4, t, d4.tables[t].(hypertable := hyper))
      == WithTable(db, t, DbTable(columns, PrunePrimaryKey(db.tables[t].primaryKey, lost), indexes, hyper))
           .(foreignKeys := PruneForeignKeys(keys, t, lost))
  {
  }
}
