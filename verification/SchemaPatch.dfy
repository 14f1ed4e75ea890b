/** The migration as a patch: what running the ordered output of the differ makes of the
    database of the previous snapshot, and when that is the database of the next one. */
module SchemaPatch {
  import opened Names
  import opened Results
  import opened SchemaSnapshot
  import opened Database
  import opened SchemaDiff
  import opened PatchPhases
  import opened TablePatch

  // Deferring the foreign keys

  lemma SplitSnoc(ops: Operations, op: Operation)
    ensures Immediate(ops + [op]) == Immediate(ops) + (if op.AddForeignKey? then [] else [op])
    ensures Deferred(ops + [op]) == Deferred(ops) + (if op.AddForeignKey? then [op] else [])
  {
    assert (ops + [op])[..|ops|] == ops;
  }

  lemma Associate(a: Operations, b: Operations, c: Operations)
    ensures (a + b) + c == a + (b + c)
  {
  }

  lemma {:induction false} SplitConcat(a: Operations, b: Operations)
    ensures Immediate(a + b) == Immediate(a) + Immediate(b)
    ensures Deferred(a + b) == Deferred(a) + Deferred(b)
  {
    if b == [] {
      assert a + b == a;
    } else {
      var init, op := b[..|b| - 1], b[|b| - 1];
      SplitConcat(a, init);
      var now, later := if op.AddForeignKey? then [] else [op], if op.AddForeignKey? then [op] else [];
      assert a + b == (a + init) + [op] && b == init + [op];
      SplitSnoc(a + init, op);
      SplitSnoc(init, op);
      Associate(Immediate(a), Immediate(init), now);
      Associate(Deferred(a), Deferred(init), later);
    }
  }

  ghost predicate NoKeys(ops: Operations) {
    forall op :: op in ops ==> !op.AddForeignKey?
  }

  ghost predicate OnlyKeys(ops: Operations) {
    forall op :: op in ops ==> op.AddForeignKey?
  }

  lemma {:induction false} SplitUniform(ops: Operations)
    ensures NoKeys(ops) ==> Immediate(ops) == ops && Deferred(ops) == []
    ensures OnlyKeys(ops) ==> Immediate(ops) == [] && Deferred(ops) == ops
  {
    if ops != [] {
      var init, op := ops[..|ops| - 1], ops[|ops| - 1];
      assert ops == init + [op];
      SplitUniform(init);
      SplitSnoc(init, op);
    }
  }

  lemma {:induction false} NameListsHaveNoKeys(table: string, names: seq<string>)
    ensures NoKeys(IndexDrops(names)) && NoKeys(ForeignKeyDrops(table, names)) && NoKeys(ColumnDrops(table, names))
    ensures NoKeys(TableDrops(names)) && NoKeys(ExtensionDrops(names)) && NoKeys(ExtensionCreates(names))
  {
    if names != [] { NameListsHaveNoKeys(table, names[..|names| - 1]); }
  }

  lemma {:induction false} ColumnAddsHaveNoKeys(table: string, names: seq<string>, n: ColumnMap)
    requires forall c :: c in names ==> c in n
    ensures NoKeys(ColumnAdds(table, names, n))
  {
    if names != [] { ColumnAddsHaveNoKeys(table, names[..|names| - 1], n); }
  }

  lemma ColumnOpsHaveNoKeys(table: string, p: Column, n: Column)
    ensures NoKeys(ColumnOps(table, p, n))
  {
    assert NoKeys(TypeOps(table, p, n)) && NoKeys(NullOps(table, p, n));
    assert NoKeys(DefaultOps(table, p, n)) && NoKeys(CheckOps(table, p, n));
  }

  lemma {:induction false} SharedColumnsHaveNoKeys(table: string, names: seq<string>, p: ColumnMap, n: ColumnMap)
    requires forall c :: c in names ==> c in p && c in n
    ensures NoKeys(SharedColumnOps(table, names, p, n))
  {
    if names != [] {
      SharedColumnsHaveNoKeys(table, names[..|names| - 1], p, n);
      ColumnOpsHaveNoKeys(table, p[names[|names| - 1]], n[names[|names| - 1]]);
    }
  }

  lemma {:induction false} IndexListsHaveNoKeys(table: string, names: seq<string>, indexes: map<string, Index>,
      list: seq<Index>)
    requires forall i :: i in names ==> i in indexes
    ensures NoKeys(IndexAdds(table, names, indexes)) && NoKeys(IndexCreates(table, list))
    decreases |names| + |list|
  {
    if names != [] { IndexListsHaveNoKeys(table, names[..|names| - 1], indexes, list); }
    if list != [] { IndexListsHaveNoKeys(table, names, indexes, list[..|list| - 1]); }
  }

  lemma {:induction false} KeyListsHaveOnlyKeys(table: string, names: seq<string>, fks: map<string, ForeignKey>,
      list: seq<ForeignKey>)
    requires forall k :: k in names ==> k in fks
    ensures OnlyKeys(ForeignKeyAdds(table, names, fks)) && OnlyKeys(ForeignKeyCreates(table, list))
    decreases |names| + |list|
  {
    if names != [] { KeyListsHaveOnlyKeys(table, names[..|names| - 1], fks, list); }
    if list != [] { KeyListsHaveOnlyKeys(table, names, fks, list[..|list| - 1]); }
  }

  lemma ColumnListKinds(t: string, P: ColumnMap, N: ColumnMap)
    ensures NoKeys(ColumnListOps(t, P, N))
  {
    NameListsHaveNoKeys(t, Sorted({}, P.Keys - N.Keys));
    SharedColumnsHaveNoKeys(t, Sorted({}, P.Keys * N.Keys), P, N);
    ColumnAddsHaveNoKeys(t, Sorted({}, N.Keys - P.Keys), N);
  }

  lemma DropAndColumnKinds(p: Table, n: Table)
    ensures NoKeys(DropAndColumnOps(p, n))
  {
    NameListsHaveNoKeys(n.name, Sorted({}, Changed(Indexes(p), Indexes(n))));
    NameListsHaveNoKeys(n.name, Sorted({}, Changed(ForeignKeys(p), ForeignKeys(n))));
    ColumnListKinds(p.name, Columns(p), Columns(n));
  }

  lemma IndexKinds(p: Table, n: Table)
    ensures NoKeys(TableIndexOps(p, n))
  {
    IndexListsHaveNoKeys(n.name, Sorted({}, Changed(Indexes(n), Indexes(p))), Indexes(n), []);
  }

  lemma KeyKinds(p: Table, n: Table)
    ensures OnlyKeys(TableFkOps(p, n))
  {
    KeyListsHaveOnlyKeys(n.name, Sorted({}, Changed(ForeignKeys(n), ForeignKeys(p))), ForeignKeys(n), []);
  }

  lemma SplitSharedTable(p: Table, n: Table)
    ensures Immediate(SharedTableOps(p, n)) == ImmediateOps(p, n)
    ensures Deferred(SharedTableOps(p, n)) == TableFkOps(p, n)
  {
    DropAndColumnKinds(p, n);
    IndexKinds(p, n);
    KeyKinds(p, n);
    SplitFour(DropAndColumnOps(p, n), TableIndexOps(p, n), TableFkOps(p, n), HypertableOps(p, n));
  }

  lemma SplitTwo(a: Operations, b: Operations)
    requires NoKeys(a) && OnlyKeys(b)
    ensures Immediate(a + b) == a && Deferred(a + b) == b
  {
    SplitUniform(a);
    SplitUniform(b);
    SplitConcat(a, b);
    assert a + [] == a && [] + b == b;
  }

  lemma SplitThree(a: Operations, b: Operations, c: Operations)
    requires NoKeys(a) && OnlyKeys(b) && NoKeys(c)
    ensures Immediate(a + b + c) == a + c
    ensures Deferred(a + b + c) == b
  {
    var ab := a + b;
    SplitTwo(a, b);
    SplitUniform(c);
    SplitConcat(ab, c);
    assert b + [] == b;
  }

  lemma SplitFour(a: Operations, b: Operations, c: Operations, d: Operations)
    requires NoKeys(a) && NoKeys(b) && OnlyKeys(c) && NoKeys(d)
    ensures Immediate(a + b + c + d) == a + (b + d)
    ensures Deferred(a + b + c + d) == c
  {
    SplitThree(a + b, c, d);
    assert a + b + d == a + (b + d);
  }

  ghost function SharedImmediate(names: seq<string>, P: TableMap, N: TableMap): Operations
    requires forall t :: t in names ==> t in P && t in N
  {
    if names == [] then []
    else SharedImmediate(names[..|names| - 1], P, N) + ImmediateOps(P[names[|names| - 1]], N[names[|names| - 1]])
  }

  ghost function SharedKeys(names: seq<string>, P: TableMap, N: TableMap): Operations
    requires forall t :: t in names ==> t in P && t in N
  {
    if names == [] then []
    else SharedKeys(names[..|names| - 1], P, N) + TableFkOps(P[names[|names| - 1]], N[names[|names| - 1]])
  }

  lemma {:induction false} SplitShared(names: seq<string>, P: TableMap, N: TableMap)
    requires forall t :: t in names ==> t in P && t in N
    ensures Immediate(SharedOps(names, P, N)) == SharedImmediate(names, P, N)
    ensures Deferred(SharedOps(names, P, N)) == SharedKeys(names, P, N)
  {
    if names != [] {
      var t := names[|names| - 1];
      SplitShared(names[..|names| - 1], P, N);
      SplitConcat(SharedOps(names[..|names| - 1], P, N), SharedTableOps(P[t], N[t]));
      SplitSharedTable(P[t], N[t]);
    }
  }

  /** The statements of a new table without its foreign keys. */
  function NewImmediateOps(t: Table): Operations {
    [CreateTable(t.name, t.columns, t.primaryKey)] + IndexCreates(t.name, t.indexes)
      + HypertableCreate(t.name, t.hypertableColumn)
  }

  lemma SplitNewTable(t: Table)
    ensures Immediate(NewTableOps(t)) == NewImmediateOps(t)
    ensures Deferred(NewTableOps(t)) == ForeignKeyCreates(t.name, t.foreignKeys)
  {
    var a: Operations := [CreateTable(t.name, t.columns, t.primaryKey)];
    IndexListsHaveNoKeys(t.name, [], map[], t.indexes);
    KeyListsHaveOnlyKeys(t.name, [], map[], t.foreignKeys);
    SplitFour(a, IndexCreates(t.name, t.indexes), ForeignKeyCreates(t.name, t.foreignKeys),
      HypertableCreate(t.name, t.hypertableColumn));
    assert a + (IndexCreates(t.name, t.indexes) + HypertableCreate(t.name, t.hypertableColumn)) == NewImmediateOps(t);
  }

  function NewImmediate(names: seq<string>, N: TableMap): Operations
    requires forall t :: t in names ==> t in N
  {
    if names == [] then [] else NewImmediate(names[..|names| - 1], N) + NewImmediateOps(N[names[|names| - 1]])
  }

  function NewKeys(names: seq<string>, N: TableMap): Operations
    requires forall t :: t in names ==> t in N
  {
    if names == [] then []
    else
      var t := N[names[|names| - 1]];
      NewKeys(names[..|names| - 1], N) + ForeignKeyCreates(t.name, t.foreignKeys)
  }

  lemma {:induction false} SplitNew(names: seq<string>, N: TableMap)
    requires forall t :: t in names ==> t in N
    ensures Immediate(NewOps(names, N)) == NewImmediate(names, N)
    ensures Deferred(NewOps(names, N)) == NewKeys(names, N)
  {
    if names != [] {
      var t := N[names[|names| - 1]];
      SplitNew(names[..|names| - 1], N);
      SplitConcat(NewOps(names[..|names| - 1], N), NewTableOps(t));
      SplitNewTable(t);
    }
  }

  // The shared tables

  /** `names` starts the sorted list of the shared tables. */
  ghost predicate StartsShared(names: seq<string>, P: TableMap, N: TableMap) {
    && Ascending({}, names)
    && (forall t :: t in names ==> t in P && t in N)
    && (forall t, u :: t in names && u in P && u in N && u !in names ==> Less(t, u))
  }

  lemma StartsSharedInit(names: seq<string>, P: TableMap, N: TableMap)
    requires names != [] && StartsShared(names, P, N)
    ensures var init, t := names[..|names| - 1], names[|names| - 1];
      && StartsShared(init, P, N) && t !in init && (set x | x in init) + {t} == (set x | x in names)
      && Upto(P, N, (set x | x in init), t)
  {
    var init, t := names[..|names| - 1], names[|names| - 1];
    AscendingDistinct({}, names);
    DistinctInit(names);
    forall x | x in init ensures Less(x, t) {
      var i :| 0 <= i < |init| && init[i] == x;
      assert Before({}, names[i], names[|names| - 1]);
    }
    forall u | u in P && u in N ensures u in init <==> Less(u, t) {
      LessTotal(u, t);
    }
  }

  lemma {:induction false} RunShared(P: TableMap, N: TableMap, ext: set<string>, names: seq<string>)
    requires MapsWellFormed(P) && MapsWellFormed(N) && StartsShared(names, P, N)
    ensures Run(Midway(P, N, ext, {}), SharedImmediate(names, P, N)) == Midway(P, N, ext, set t | t in names)
    ensures AllEnabled(Midway(P, N, ext, {}), SharedImmediate(names, P, N)) <==>
      forall t :: t in names ==> NoIndexMovesBack(P, N, t)
  {
    if names == [] {
      assert (set t | t in names) == {};
    } else {
      var init, t := names[..|names| - 1], names[|names| - 1];
      StartsSharedInit(names, P, N);
      RunShared(P, N, ext, init);
      RunSharedTable(P, N, ext, (set x | x in init), t);
      RunConcat(Midway(P, N, ext, {}), SharedImmediate(init, P, N), ImmediateOps(P[t], N[t]));
      assert forall x :: x in names <==> x in init || x == t;
    }
  }

  // The new tables

  ghost function SharedTables(P: TableMap, N: TableMap): set<string> {
    P.Keys * N.Keys
  }

  /** The database once the shared tables and the new tables in `made` are done. */
  ghost function Built(P: TableMap, N: TableMap, ext: set<string>, made: set<string>): Db {
    Db(ext,
       map t | t in N && (t in P || t in made) :: if t in P then TableAfter(P, N, t) else Described(N[t]),
       KeysAfter(P, N, SharedTables(P, N)))
  }

  lemma MidwayIsBuilt(P: TableMap, N: TableMap, ext: set<string>, done: set<string>)
    requires forall t :: t in done <==> t in P && t in N
    ensures Midway(P, N, ext, done) == Built(P, N, ext, {})
  {
    assert done == SharedTables(P, N);
  }

  lemma NewTableUnblocked(P: TableMap, N: TableMap, ext: set<string>, made: set<string>, t: string, i: string)
    requires MapsWellFormed(N) && t in N && t !in P && t !in made && i in Indexes(N[t])
    ensures forall u :: u in Built(P, N, ext, made).tables ==> i !in Built(P, N, ext, made).tables[u].indexes
  {
    var db := Built(P, N, ext, made);
    forall u | u in db.tables ensures i !in db.tables[u].indexes {
      assert i in Indexes(N[u]) ==> u == t;
    }
  }

  ghost function CreatedWith(n: Table, indexes: map<string, Index>, hyper: string): DbTable {
    DbTable(RenderedAll(Columns(n)), n.primaryKey, indexes, hyper)
  }

  lemma CreateIndexes(db: Db, n: Table)
    requires WellFormedTable(n) && n.name !in db.tables
    requires forall i, u :: i in Indexes(n) && u in db.tables ==> i !in db.tables[u].indexes
    ensures Run(WithTable(db, n.name, CreatedWith(n, map[], "")), IndexCreates(n.name, n.indexes))
      == WithTable(db, n.name, CreatedWith(n, Indexes(n), ""))
    ensures AllEnabled(WithTable(db, n.name, CreatedWith(n, map[], "")), IndexCreates(n.name, n.indexes))
  {
    var d1 := WithTable(db, n.name, CreatedWith(n, map[], ""));
    IndexUnique(n.indexes);
    forall idx | idx in n.indexes ensures !Blocked(d1, n.name, idx.name) {
      assert idx.name in Indexes(n);
    }
    forall idx, c | idx in n.indexes && c in idx.columns ensures c in d1.tables[n.name].columns {
      assert c in Indexes(n)[idx.name].columns;
    }
    RunIndexCreates(d1, n.name, n.indexes);
    WithTableTwice(db, n.name, CreatedWith(n, map[], ""), CreatedWith(n, Indexes(n), ""));
  }

  lemma CreateOne(db: Db, n: Table)
    requires WellFormedTable(n) && n.name !in db.tables
    requires forall i, u :: i in Indexes(n) && u in db.tables ==> i !in db.tables[u].indexes
    ensures Run(db, NewImmediateOps(n)) == WithTable(db, n.name, Described(n))
    ensures AllEnabled(db, NewImmediateOps(n))
  {
    var create := CreateTable(n.name, n.columns, n.primaryKey);
    RunOne(db, create);
    CreateIndexes(db, n);
    var d2 := WithTable(db, n.name, CreatedWith(n, Indexes(n), ""));
    RunHypertableCreate(d2, n.name, n.hypertableColumn);
    WithTableTwice(db, n.name, CreatedWith(n, Indexes(n), ""), Described(n));
    RunConcat(db, [create], IndexCreates(n.name, n.indexes));
    RunConcat(db, [create] + IndexCreates(n.name, n.indexes), HypertableCreate(n.name, n.hypertableColumn));
  }

  lemma RunNewTable(P: TableMap, N: TableMap, ext: set<string>, made: set<string>, t: string)
    requires MapsWellFormed(N) && t in N && t !in P && t !in made
    ensures Run(Built(P, N, ext, made), NewImmediateOps(N[t])) == Built(P, N, ext, made + {t})
    ensures AllEnabled(Built(P, N, ext, made), NewImmediateOps(N[t]))
  {
    forall i | i in Indexes(N[t])
      ensures forall u :: u in Built(P, N, ext, made).tables ==> i !in Built(P, N, ext, made).tables[u].indexes
    {
      NewTableUnblocked(P, N, ext, made, t, i);
    }
    CreateOne(Built(P, N, ext, made), N[t]);
    BuiltStep(P, N, ext, made, t);
  }

  lemma BuiltStep(P: TableMap, N: TableMap, ext: set<string>, made: set<string>, t: string)
    requires t in N && t !in P && t !in made
    ensures WithTable(Built(P, N, ext, made), t, Described(N[t])) == Built(P, N, ext, made + {t})
  {
    assert Built(P, N, ext, made).tables[t := Described(N[t])] == Built(P, N, ext, made + {t}).tables;
  }

  lemma {:induction false} RunNew(P: TableMap, N: TableMap, ext: set<string>, names: seq<string>, all: set<string>)
    requires MapsWellFormed(N) && Distinct(names) && forall t :: t in names ==> t in N && t !in P
    requires forall t :: t in all <==> t in names
    ensures Run(Built(P, N, ext, {}), NewImmediate(names, N)) == Built(P, N, ext, all)
    ensures AllEnabled(Built(P, N, ext, {}), NewImmediate(names, N))
  {
    hide *;
    if names == [] {
      assert all == {};
      NothingNew(Built(P, N, ext, {}), N);
    } else {
      var t := names[|names| - 1];
      DistinctInit(names);
      RunNew(P, N, ext, names[..|names| - 1], all - {t});
      assert all - {t} + {t} == all;
      AddNewTable(P, N, ext, names, all - {t});
    }
  }

  lemma NothingNew(db: Db, N: TableMap)
    ensures Run(db, NewImmediate([], N)) == db && AllEnabled(db, NewImmediate([], N))
  {
  }

  lemma AddNewTable(P: TableMap, N: TableMap, ext: set<string>, names: seq<string>, before: set<string>)
    requires MapsWellFormed(N) && names != [] && forall t :: t in names ==> t in N
    requires var init, t := names[..|names| - 1], names[|names| - 1];
      && t !in P && t !in before
      && Run(Built(P, N, ext, {}), NewImmediate(init, N)) == Built(P, N, ext, before)
      && AllEnabled(Built(P, N, ext, {}), NewImmediate(init, N))
    ensures Run(Built(P, N, ext, {}), NewImmediate(names, N)) == Built(P, N, ext, before + {names[|names| - 1]})
    ensures AllEnabled(Built(P, N, ext, {}), NewImmediate(names, N))
  {
    var t := names[|names| - 1];
    RunNewTable(P, N, ext, before, t);
    RunConcat(Built(P, N, ext, {}), NewImmediate(names[..|names| - 1], N), NewImmediateOps(N[t]));
  }
}
