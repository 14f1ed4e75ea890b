/** What each kind of statement list of the differ does to a database. */
module PatchPhases {
  import opened Names
  import opened Results
  import opened SchemaSnapshot
  import opened Database
  import opened SchemaDiff

  lemma DistinctInit<T>(names: seq<T>)
    requires names != [] && Distinct(names)
    ensures Distinct(names[..|names| - 1]) && names[|names| - 1] !in names[..|names| - 1]
    ensures forall x :: x in names <==> x in names[..|names| - 1] || x == names[|names| - 1]
  {
    assert names == names[..|names| - 1] + [names[|names| - 1]];
  }

  lemma WithoutSnoc<T>(m: map<string, T>, names: seq<string>)
    requires names != []
    ensures var init, x := names[..|names| - 1], names[|names| - 1];
      && m - (set y | y in init) - {x} == m - (set y | y in names)
      && (set y | y in init) + {x} == set y | y in names
  {
    var init, x := names[..|names| - 1], names[|names| - 1];
    assert names == init + [x];
    assert (set y | y in init) + {x} == set y | y in names;
  }

  lemma WithoutNone<T>(m: map<string, T>, names: seq<string>)
    requires names == []
    ensures m - (set y | y in names) == m && (set y | y in names) == {}
  {
  }

  lemma {:induction false} RunExtensionDrops(db: Db, names: seq<string>)
    requires Distinct(names) && forall e :: e in names ==> e in db.extensions
    ensures Run(db, ExtensionDrops(names)) == db.(extensions := db.extensions - (set e | e in names))
    ensures AllEnabled(db, ExtensionDrops(names))
  {
    if names != [] {
      DistinctInit(names);
      RunExtensionDrops(db, names[..|names| - 1]);
      RunSnoc(db, ExtensionDrops(names[..|names| - 1]), DropExtension(names[|names| - 1]));
    }
  }

  lemma {:induction false} RunExtensionCreates(db: Db, names: seq<string>)
    requires Distinct(names) && forall e :: e in names ==> e !in db.extensions
    ensures Run(db, ExtensionCreates(names)) == db.(extensions := db.extensions + (set e | e in names))
    ensures AllEnabled(db, ExtensionCreates(names))
  {
    if names != [] {
      hide Run, AllEnabled;
      DistinctInit(names);
      RunExtensionCreates(db, names[..|names| - 1]);
      RunSnoc(db, ExtensionCreates(names[..|names| - 1]), CreateExtension(names[|names| - 1]));
    }
  }

  function WithoutTables(db: Db, gone: seq<string>): Db {
    db.(tables := map t | t in db.tables && t !in gone :: db.tables[t],
        foreignKeys :=
          map k | k in db.foreignKeys && k.0 !in gone && db.foreignKeys[k].targetTable !in gone :: db.foreignKeys[k])
  }

  lemma {:induction false} RunTableDrops(db: Db, names: seq<string>)
    requires Distinct(names) && forall t :: t in names ==> t in db.tables
    ensures Run(db, TableDrops(names)) == WithoutTables(db, names)
    ensures AllEnabled(db, TableDrops(names))
  {
    if names != [] {
      var init, t := names[..|names| - 1], names[|names| - 1];
      DistinctInit(names);
      RunTableDrops(db, init);
      RunSnoc(db, TableDrops(init), DropTable(t));
      StepDropTable(db, init, t, names);
    }
  }

  lemma StepDropTable(db: Db, init: seq<string>, t: string, names: seq<string>)
    requires t in db.tables && t !in init && forall x :: x in names <==> x in init || x == t
    ensures Step(WithoutTables(db, init), DropTable(t)) == WithoutTables(db, names)
    ensures Enabled(WithoutTables(db, init), DropTable(t))
  {
  }

  lemma {:induction false} RunIndexDrops(db: Db, t: string, names: seq<string>)
    requires Distinct(names) && t in db.tables && forall i :: i in names ==> i in db.tables[t].indexes
    requires forall i :: i in names ==> !Blocked(db, t, i)
    ensures Run(db, IndexDrops(names)) == WithIndexes(db, t, db.tables[t].indexes - (set i | i in names))
    ensures AllEnabled(db, IndexDrops(names))
  {
    var indexes := db.tables[t].indexes;
    if names == [] {
      WithoutNone(indexes, names);
      WithTableSame(db, t);
    } else {
      var init, i := names[..|names| - 1], names[|names| - 1];
      DistinctInit(names);
      RunIndexDrops(db, t, init);
      RunSnoc(db, IndexDrops(init), DropIndex(i));
      StepDropIndex(db, t, indexes - (set x | x in init), i);
      WithoutSnoc(indexes, names);
    }
  }

  function WithoutKeys(db: Db, t: string, gone: seq<string>): Db {
    db.(foreignKeys := map k | k in db.foreignKeys && !(k.0 == t && k.1 in gone) :: db.foreignKeys[k])
  }

  lemma StepDropKey(db: Db, t: string, init: seq<string>, c: string, names: seq<string>)
    requires t in db.tables && forall x :: x in names <==> x in init || x == c
    ensures Step(WithoutKeys(db, t, init), DropForeignKey(t, c)) == WithoutKeys(db, t, names)
    ensures Enabled(WithoutKeys(db, t, init), DropForeignKey(t, c))
  {
  }

  lemma {:induction false} RunForeignKeyDrops(db: Db, t: string, names: seq<string>)
    requires t in db.tables
    ensures Run(db, ForeignKeyDrops(t, names)) == WithoutKeys(db, t, names)
    ensures AllEnabled(db, ForeignKeyDrops(t, names))
  {
    if names != [] {
      var init, c := names[..|names| - 1], names[|names| - 1];
      assert names == init + [c];
      RunForeignKeyDrops(db, t, init);
      RunSnoc(db, ForeignKeyDrops(t, init), DropForeignKey(t, c));
      StepDropKey(db, t, init, c, names);
    }
  }

  // Columns

  /** What the differ makes of a column that keeps its name: a guarded column is left alone
      or made anew; a plain column takes everything over except UNIQUE. */
  ghost function PatchedColumn(p: Column, n: Column): DbColumn {
    if Regenerated(p, n) then Rendered(n)
    else if Guarded(p, n) then Rendered(p)
    else Rendered(n).(unique := p.unique)
  }

  /** Table `t` without columns `lost`, and everything on them gone. */
  function Shrunk(db: Db, t: string, columns: map<string, DbColumn>, lost: set<string>): Db
    requires t in db.tables
  {
    var tbl := db.tables[t];
    WithTable(db, t,
      DbTable(columns, PrunePrimaryKey(tbl.primaryKey, lost), PruneIndexes(tbl.indexes, lost), tbl.hypertable))
      .(foreignKeys := PruneForeignKeys(db.foreignKeys, t, lost))
  }

  lemma ShrunkNothing(db: Db, t: string, columns: map<string, DbColumn>)
    requires t in db.tables
    ensures Shrunk(db, t, columns, {}) == WithTable(db, t, db.tables[t].(columns := columns))
  {
    PruneNothing(db.tables[t].indexes, db.tables[t].primaryKey, db.foreignKeys, t);
  }

  lemma ShrunkTwice(db: Db, t: string, ca: map<string, DbColumn>, a: set<string>, cb: map<string, DbColumn>,
      b: set<string>)
    requires t in db.tables
    ensures Shrunk(Shrunk(db, t, ca, a), t, cb, b) == Shrunk(db, t, cb, a + b)
  {
    PruneTwice(db.tables[t].indexes, db.tables[t].primaryKey, db.foreignKeys, t, a, b);
  }

  lemma RunTypeOps(db: Db, t: string, p: Column, n: Column, col: DbColumn)
    requires p.name == n.name && HasColumn(db, t, p.name) && col == db.tables[t].columns[p.name] && col.typ == p.typ
    ensures Run(db, TypeOps(t, p, n)) == WithColumn(db, t, p.name, col.(typ := n.typ))
    ensures AllEnabled(db, TypeOps(t, p, n))
  {
    if p.typ != n.typ {
      RunOne(db, AlterType(t, p.name, n.typ));
    } else {
      WithColumnSame(db, t, p.name);
    }
  }

  lemma RunNullOps(db: Db, t: string, p: Column, n: Column, col: DbColumn)
    requires p.name == n.name && HasColumn(db, t, p.name) && col == db.tables[t].columns[p.name]
    requires col.nullable == p.nullable
    ensures Run(db, NullOps(t, p, n)) == WithColumn(db, t, p.name, col.(nullable := n.nullable))
    ensures AllEnabled(db, NullOps(t, p, n))
  {
    if p.nullable != n.nullable {
      RunOne(db, AlterNullable(t, p.name, n.nullable));
    } else {
      WithColumnSame(db, t, p.name);
    }
  }

  lemma RunDefaultOps(db: Db, t: string, p: Column, n: Column, col: DbColumn)
    requires p.name == n.name && HasColumn(db, t, p.name) && col == db.tables[t].columns[p.name]
    requires col.default_ == ColumnDefault(p)
    ensures Run(db, DefaultOps(t, p, n)) == WithColumn(db, t, p.name, col.(default_ := ColumnDefault(n)))
    ensures AllEnabled(db, DefaultOps(t, p, n))
  {
    var d := ColumnDefault(n);
    if ColumnDefault(p) != d {
      if d.Some? { RunOne(db, SetDefault(t, p.name, d.value)); } else { RunOne(db, DropDefault(t, p.name)); }
    } else {
      WithColumnSame(db, t, p.name);
    }
  }

  function CheckDrop(t: string, p: Column): Operations {
    if p.enumValues != [] then [DropCheck(t, p.name)] else []
  }

  function CheckAdd(t: string, n: Column): Operations {
    if n.enumValues != [] then [AddCheck(t, n.name, n.enumValues)] else []
  }

  lemma RunCheckDrop(db: Db, t: string, p: Column, col: DbColumn)
    requires HasColumn(db, t, p.name) && col == db.tables[t].columns[p.name] && col.enumValues == p.enumValues
    ensures Run(db, CheckDrop(t, p)) == WithColumn(db, t, p.name, col.(enumValues := []))
    ensures AllEnabled(db, CheckDrop(t, p))
  {
    WithColumnSame(db, t, p.name);
    RunOne(db, DropCheck(t, p.name));
  }

  lemma RunCheckAdd(db: Db, t: string, n: Column, col: DbColumn)
    requires HasColumn(db, t, n.name) && col == db.tables[t].columns[n.name] && col.enumValues == []
    ensures Run(db, CheckAdd(t, n)) == WithColumn(db, t, n.name, col.(enumValues := n.enumValues))
    ensures AllEnabled(db, CheckAdd(t, n))
  {
    WithColumnSame(db, t, n.name);
    RunOne(db, AddCheck(t, n.name, n.enumValues));
  }

  lemma RunCheckOps(db: Db, t: string, p: Column, n: Column, col: DbColumn)
    requires p.name == n.name && HasColumn(db, t, p.name) && col == db.tables[t].columns[p.name]
    requires col.enumValues == p.enumValues
    ensures Run(db, CheckOps(t, p, n)) == WithColumn(db, t, p.name, col.(enumValues := n.enumValues))
    ensures AllEnabled(db, CheckOps(t, p, n))
  {
    if p.enumValues != n.enumValues {
      var empty := col.(enumValues := []);
      RunCheckDrop(db, t, p, col);
      RunCheckAdd(WithColumn(db, t, p.name, empty), t, n, empty);
      WithColumnTwice(db, t, p.name, empty, col.(enumValues := n.enumValues));
      RunConcat(db, CheckDrop(t, p), CheckAdd(t, n));
      assert CheckOps(t, p, n) == CheckDrop(t, p) + CheckAdd(t, n);
    } else {
      WithColumnSame(db, t, p.name);
    }
  }

  lemma RunPlainColumn(db: Db, t: string, p: Column, n: Column)
    requires p.name == n.name && HasColumn(db, t, p.name) && db.tables[t].columns[p.name] == Rendered(p)
    requires !Guarded(p, n)
    ensures Run(db, ColumnOps(t, p, n)) == WithColumn(db, t, p.name, Rendered(n).(unique := p.unique))
    ensures AllEnabled(db, ColumnOps(t, p, n))
  {
    var c0 := Rendered(p);
    var c1 := c0.(typ := n.typ);
    var c2 := c1.(nullable := n.nullable);
    var c3 := c2.(default_ := ColumnDefault(n));
    RunTypeOps(db, t, p, n, c0);
    var d1 := WithColumn(db, t, p.name, c1);
    RunNullOps(d1, t, p, n, c1);
    WithColumnTwice(db, t, p.name, c1, c2);
    var d2 := WithColumn(db, t, p.name, c2);
    RunDefaultOps(d2, t, p, n, c2);
    WithColumnTwice(db, t, p.name, c2, c3);
    var d3 := WithColumn(db, t, p.name, c3);
    RunCheckOps(d3, t, p, n, c3);
    WithColumnTwice(db, t, p.name, c3, c3.(enumValues := n.enumValues));
    RunConcat(db, TypeOps(t, p, n), NullOps(t, p, n));
    RunConcat(db, TypeOps(t, p, n) + NullOps(t, p, n), DefaultOps(t, p, n));
    RunConcat(db, TypeOps(t, p, n) + NullOps(t, p, n) + DefaultOps(t, p, n), CheckOps(t, p, n));
    assert c3.(enumValues := n.enumValues) == Rendered(n).(unique := p.unique);
  }

  lemma RunColumnOps(db: Db, t: string, p: Column, n: Column)
    requires p.name == n.name && HasColumn(db, t, p.name) && db.tables[t].columns[p.name] == Rendered(p)
    ensures Run(db, ColumnOps(t, p, n))
      == Shrunk(db, t, db.tables[t].columns[p.name := PatchedColumn(p, n)], if Regenerated(p, n) then {p.name} else {})
    ensures AllEnabled(db, ColumnOps(t, p, n))
  {
    ShrunkNothing(db, t, db.tables[t].columns[p.name := PatchedColumn(p, n)]);
    if Regenerated(p, n) {
      var dropped := Step(db, DropColumn(t, p.name));
      RunOne(db, DropColumn(t, p.name));
      RunSnoc(db, [DropColumn(t, p.name)], AddColumn(t, n));
      assert [DropColumn(t, p.name)] + [AddColumn(t, n)] == [DropColumn(t, p.name), AddColumn(t, n)];
      assert (db.tables[t].columns - {p.name})[p.name := Rendered(n)] == db.tables[t].columns[p.name := Rendered(n)];
    } else if Guarded(p, n) {
      assert db.tables[t].columns[p.name := Rendered(p)] == db.tables[t].columns;
    } else {
      RunPlainColumn(db, t, p, n);
    }
  }

  function RegeneratedAmong(names: seq<string>, p: map<string, Column>, n: map<string, Column>): set<string> {
    set c | c in names && c in p && c in n && Regenerated(p[c], n[c])
  }

  ghost function PatchedColumns(columns: map<string, DbColumn>, names: seq<string>, p: map<string, Column>,
      n: map<string, Column>): map<string, DbColumn>
    requires forall c :: c in names ==> c in p && c in n
  {
    map c | c in columns :: if c in names then PatchedColumn(p[c], n[c]) else columns[c]
  }

  lemma StepSharedColumn(db: Db, t: string, columns: map<string, DbColumn>, lost: set<string>, p: Column, n: Column)
    requires t in db.tables && p.name == n.name && p.name in columns && columns[p.name] == Rendered(p)
    ensures Run(Shrunk(db, t, columns, lost), ColumnOps(t, p, n))
      == Shrunk(db, t, columns[p.name := PatchedColumn(p, n)], if Regenerated(p, n) then lost + {p.name} else lost)
    ensures AllEnabled(Shrunk(db, t, columns, lost), ColumnOps(t, p, n))
  {
    RunColumnOps(Shrunk(db, t, columns, lost), t, p, n);
    ShrunkTwice(db, t, columns, lost, columns[p.name := PatchedColumn(p, n)],
      if Regenerated(p, n) then {p.name} else {});
    assert lost + {} == lost;
  }

  lemma {:induction false} RunSharedColumns(db: Db, t: string, names: seq<string>, p: map<string, Column>,
      n: map<string, Column>)
    requires Distinct(names) && t in db.tables
    requires forall c :: c in names ==> c in p && c in n && p[c].name == c && n[c].name == c
    requires forall c :: c in names ==> c in db.tables[t].columns && db.tables[t].columns[c] == Rendered(p[c])
    ensures Run(db, SharedColumnOps(t, names, p, n))
      == Shrunk(db, t, PatchedColumns(db.tables[t].columns, names, p, n), RegeneratedAmong(names, p, n))
    ensures AllEnabled(db, SharedColumnOps(t, names, p, n))
  {
    var columns := db.tables[t].columns;
    if names == [] {
      assert PatchedColumns(columns, names, p, n) == columns;
      assert RegeneratedAmong(names, p, n) == {};
      ShrunkNothing(db, t, columns);
      WithTableSame(db, t);
    } else {
      var init, c := names[..|names| - 1], names[|names| - 1];
      DistinctInit(names);
      RunSharedColumns(db, t, init, p, n);
      RunConcat(db, SharedColumnOps(t, init, p, n), ColumnOps(t, p[c], n[c]));
      var before, lost := PatchedColumns(columns, init, p, n), RegeneratedAmong(init, p, n);
      StepSharedColumn(db, t, before, lost, p[c], n[c]);
      PatchedSnoc(columns, names, p, n);
    }
  }

  lemma PatchedSnoc(columns: map<string, DbColumn>, names: seq<string>, p: map<string, Column>, n: map<string, Column>)
    requires Distinct(names) && names != [] && forall c :: c in names ==> c in p && c in n && c in columns
    ensures var init, c := names[..|names| - 1], names[|names| - 1];
      && PatchedColumns(columns, names, p, n) == PatchedColumns(columns, init, p, n)[c := PatchedColumn(p[c], n[c])]
      && RegeneratedAmong(names, p, n)
         == if Regenerated(p[c], n[c]) then RegeneratedAmong(init, p, n) + {c} else RegeneratedAmong(init, p, n)
  {
    DistinctInit(names);
  }

  ghost function AddedColumns(columns: map<string, DbColumn>, names: seq<string>,
      cols: map<string, Column>): map<string, DbColumn>
    requires forall c :: c in names ==> c in cols
  {
    if names == [] then columns
    else AddedColumns(columns, names[..|names| - 1], cols)[names[|names| - 1] := Rendered(cols[names[|names| - 1]])]
  }

  lemma {:induction false} AddedColumnsAt(columns: map<string, DbColumn>, names: seq<string>, cols: map<string, Column>)
    requires forall c :: c in names ==> c in cols
    ensures forall c :: c in AddedColumns(columns, names, cols) <==> c in columns || c in names
    ensures forall c :: c in AddedColumns(columns, names, cols) ==>
      AddedColumns(columns, names, cols)[c] == if c in names then Rendered(cols[c]) else columns[c]
  {
    if names != [] {
      AddedColumnsAt(columns, names[..|names| - 1], cols);
      assert names == names[..|names| - 1] + [names[|names| - 1]];
    }
  }

  lemma {:induction false} RunColumnAdds(db: Db, t: string, names: seq<string>, cols: map<string, Column>)
    requires Distinct(names) && t in db.tables
    requires forall c :: c in names ==> c in cols && cols[c].name == c && c !in db.tables[t].columns
    ensures Run(db, ColumnAdds(t, names, cols)) == WithColumns(db, t, AddedColumns(db.tables[t].columns, names, cols))
    ensures AllEnabled(db, ColumnAdds(t, names, cols))
  {
    var columns := db.tables[t].columns;
    if names == [] {
      WithTableSame(db, t);
    } else {
      var init, c := names[..|names| - 1], names[|names| - 1];
      DistinctInit(names);
      RunColumnAdds(db, t, init, cols);
      RunSnoc(db, ColumnAdds(t, init, cols), AddColumn(t, cols[c]));
      StepAddColumn(db, t, AddedColumns(columns, init, cols), cols[c]);
      AddedColumnsAt(columns, init, cols);
    }
  }

  lemma StepDropColumn(db: Db, t: string, columns: map<string, DbColumn>, lost: set<string>, c: string)
    requires t in db.tables && c in columns
    ensures Step(Shrunk(db, t, columns, lost), DropColumn(t, c)) == Shrunk(db, t, columns - {c}, lost + {c})
    ensures Enabled(Shrunk(db, t, columns, lost), DropColumn(t, c))
  {
    ShrunkTwice(db, t, columns, lost, columns - {c}, {c});
  }

  lemma {:induction false} RunColumnDrops(db: Db, t: string, names: seq<string>)
    requires Distinct(names) && t in db.tables && forall c :: c in names ==> c in db.tables[t].columns
    ensures Run(db, ColumnDrops(t, names))
      == Shrunk(db, t, db.tables[t].columns - (set c | c in names), set c | c in names)
    ensures AllEnabled(db, ColumnDrops(t, names))
  {
    var columns, gone := db.tables[t].columns, set c | c in names;
    if names == [] {
      WithoutNone(columns, names);
      ShrunkNothing(db, t, columns);
      WithTableSame(db, t);
    } else {
      var init, c := names[..|names| - 1], names[|names| - 1];
      var before := set x | x in init;
      DistinctInit(names);
      RunColumnDrops(db, t, init);
      RunSnoc(db, ColumnDrops(t, init), DropColumn(t, c));
      StepDropColumn(db, t, columns - before, before, c);
      WithoutSnoc(columns, names);
    }
  }

  // Indexes

  ghost function AddedIndexes(db: Db, t: string, names: seq<string>, indexes: map<string, Index>): map<string, Index>
    requires t in db.tables && forall i :: i in names ==> i in indexes
  {
    if names == [] then db.tables[t].indexes
    else
      var before, i := AddedIndexes(db, t, names[..|names| - 1], indexes), names[|names| - 1];
      if Blocked(db, t, i) then before else before[i := indexes[i]]
  }

  lemma {:induction false} AddedIndexesAt(db: Db, t: string, names: seq<string>, indexes: map<string, Index>)
    requires t in db.tables && forall i :: i in names ==> i in indexes && i !in db.tables[t].indexes
    ensures forall i :: i in AddedIndexes(db, t, names, indexes) <==>
      i in db.tables[t].indexes || (i in names && !Blocked(db, t, i))
    ensures forall i :: i in AddedIndexes(db, t, names, indexes) ==>
      AddedIndexes(db, t, names, indexes)[i] == if i in names then indexes[i] else db.tables[t].indexes[i]
  {
    if names != [] {
      assert names == names[..|names| - 1] + [names[|names| - 1]];
      AddedIndexesAt(db, t, names[..|names| - 1], indexes);
    }
  }

  lemma {:induction false} RunIndexAdds(db: Db, t: string, names: seq<string>, indexes: map<string, Index>)
    requires Distinct(names) && t in db.tables
    requires forall i :: i in names ==> i in indexes && indexes[i].name == i && i !in db.tables[t].indexes
    requires forall i, c :: i in names && c in indexes[i].columns ==> c in db.tables[t].columns
    ensures Run(db, IndexAdds(t, names, indexes)) == WithIndexes(db, t, AddedIndexes(db, t, names, indexes))
    ensures AllEnabled(db, IndexAdds(t, names, indexes)) <==> forall i :: i in names ==> !Blocked(db, t, i)
  {
    if names == [] {
      WithTableSame(db, t);
    } else {
      var init, i := names[..|names| - 1], names[|names| - 1];
      DistinctInit(names);
      RunIndexAdds(db, t, init, indexes);
      RunSnoc(db, IndexAdds(t, init, indexes), AddIndex(t, indexes[i]));
      var before := AddedIndexes(db, t, init, indexes);
      AddedIndexesAt(db, t, init, indexes);
      StepAddIndex(db, t, before, indexes[i]);
    }
  }

  lemma {:induction false} RunIndexCreates(db: Db, t: string, indexes: seq<Index>)
    requires t in db.tables && db.tables[t].indexes == map[]
    requires forall i, j :: 0 <= i < j < |indexes| ==> indexes[i].name != indexes[j].name
    requires forall idx :: idx in indexes ==> !Blocked(db, t, idx.name)
    requires forall idx, c :: idx in indexes && c in idx.columns ==> c in db.tables[t].columns
    ensures Run(db, IndexCreates(t, indexes)) == WithIndexes(db, t, IndexesByName(indexes))
    ensures AllEnabled(db, IndexCreates(t, indexes))
  {
    if indexes == [] {
      WithTableSame(db, t);
    } else {
      var init, idx := indexes[..|indexes| - 1], indexes[|indexes| - 1];
      assert indexes == init + [idx];
      RunIndexCreates(db, t, init);
      IndexKeys(init);
      RunSnoc(db, IndexCreates(t, init), AddIndex(t, idx));
      StepAddIndex(db, t, IndexesByName(init), idx);
    }
  }

  function HypertableDrop(t: string, p: string): Operations {
    if p != "" then [DropHypertable(t)] else []
  }

  function HypertableCreate(t: string, n: string): Operations {
    if n != "" then [CreateHypertable(t, n)] else []
  }

  lemma RunHypertableCreate(db: Db, t: string, n: string)
    requires t in db.tables && db.tables[t].hypertable == "" && (n != "" ==> n in db.tables[t].columns)
    ensures Run(db, HypertableCreate(t, n)) == WithTable(db, t, db.tables[t].(hypertable := n))
    ensures AllEnabled(db, HypertableCreate(t, n))
  {
    RunOne(db, CreateHypertable(t, n));
    WithTableSame(db, t);
  }

  lemma RunHypertable(db: Db, p: Table, n: Table)
    requires n.name in db.tables && db.tables[n.name].hypertable == p.hypertableColumn
    requires n.hypertableColumn != "" ==> n.hypertableColumn in db.tables[n.name].columns
    ensures Run(db, HypertableOps(p, n)) == WithTable(db, n.name, db.tables[n.name].(hypertable := n.hypertableColumn))
    ensures AllEnabled(db, HypertableOps(p, n))
  {
    var t := n.name;
    var tbl := db.tables[t];
    WithTableSame(db, t);
    if p.hypertableColumn != n.hypertableColumn {
      var cleared := WithTable(db, t, tbl.(hypertable := ""));
      RunOne(db, DropHypertable(t));
      assert Run(db, HypertableDrop(t, p.hypertableColumn)) == cleared;
      RunHypertableCreate(cleared, t, n.hypertableColumn);
      WithTableTwice(db, t, tbl.(hypertable := ""), tbl.(hypertable := n.hypertableColumn));
      RunConcat(db, HypertableDrop(t, p.hypertableColumn), HypertableCreate(t, n.hypertableColumn));
      assert HypertableOps(p, n) == HypertableDrop(t, p.hypertableColumn) + HypertableCreate(t, n.hypertableColumn);
    }
  }

  // Foreign keys

  ghost predicate FkTargetsExist(db: Db, t: string, fk: ForeignKey) {
    HasColumn(db, t, fk.column) && HasColumn(db, fk.targetTable, fk.targetColumn)
  }

  ghost function AddedKeys(fks: map<FkKey, ForeignKey>, t: string, names: seq<string>,
      added: map<string, ForeignKey>): map<FkKey, ForeignKey>
  {
    if names == [] then fks
    else
      var init, k := names[..|names| - 1], names[|names| - 1];
      if k in added then AddedKeys(fks, t, init, added)[(t, k) := added[k]] else AddedKeys(fks, t, init, added)
  }

  lemma {:induction false} AddedKeysAt(fks: map<FkKey, ForeignKey>, t: string, names: seq<string>,
      added: map<string, ForeignKey>)
    requires forall k :: k in names ==> k in added
    ensures forall key: FkKey :: key in AddedKeys(fks, t, names, added) <==>
      key in fks || (key.0 == t && key.1 in names)
    ensures forall key: FkKey :: key in AddedKeys(fks, t, names, added) ==>
      AddedKeys(fks, t, names, added)[key] == if key.0 == t && key.1 in names then added[key.1] else fks[key]
  {
    if names != [] {
      AddedKeysAt(fks, t, names[..|names| - 1], added);
      assert names == names[..|names| - 1] + [names[|names| - 1]];
    }
  }

  lemma {:induction false} RunForeignKeyAdds(db: Db, t: string, names: seq<string>, added: map<string, ForeignKey>)
    requires Distinct(names) && forall k :: k in names ==> k in added && added[k].constraint == k
    requires forall k :: k in names ==> FkTargetsExist(db, t, added[k]) && (t, k) !in db.foreignKeys
    ensures Run(db, ForeignKeyAdds(t, names, added)) == db.(foreignKeys := AddedKeys(db.foreignKeys, t, names, added))
    ensures AllEnabled(db, ForeignKeyAdds(t, names, added))
  {
    if names != [] {
      var init, k := names[..|names| - 1], names[|names| - 1];
      DistinctInit(names);
      RunForeignKeyAdds(db, t, init, added);
      AddedKeysAt(db.foreignKeys, t, init, added);
      hide Run, AllEnabled, HasColumn;
      var mid := db.(foreignKeys := AddedKeys(db.foreignKeys, t, init, added));
      RunSnoc(db, ForeignKeyAdds(t, init, added), AddForeignKey(t, added[k]));
      StepAddKey(db, mid.foreignKeys, t, added[k]);
    }
  }

  lemma StepAddKey(db: Db, fks: map<FkKey, ForeignKey>, t: string, fk: ForeignKey)
    requires FkTargetsExist(db, t, fk) && (t, fk.constraint) !in fks
    ensures Step(db.(foreignKeys := fks), AddForeignKey(t, fk)) == db.(foreignKeys := fks[(t, fk.constraint) := fk])
    ensures Enabled(db.(foreignKeys := fks), AddForeignKey(t, fk))
  {
  }

  function ConstraintNames(fks: seq<ForeignKey>): (r: seq<string>) {
    seq(|fks|, i requires 0 <= i < |fks| => fks[i].constraint)
  }

  function ActionFree(fks: map<string, ForeignKey>): map<string, ForeignKey> {
    map k | k in fks :: WithoutActions(fks[k])
  }

  /** The foreign keys of a new table are those of its snapshot without their actions. */
  lemma {:induction false} CreatesAreAdds(t: string, fks: seq<ForeignKey>, all: map<string, ForeignKey>)
    requires forall fk :: fk in fks ==> fk.constraint in all && all[fk.constraint] == fk
    ensures ForeignKeyCreates(t, fks) == ForeignKeyAdds(t, ConstraintNames(fks), ActionFree(all))
  {
    if fks != [] {
      var init := fks[..|fks| - 1];
      assert fks == init + [fks[|fks| - 1]];
      CreatesAreAdds(t, init, all);
      assert ConstraintNames(fks)[..|fks| - 1] == ConstraintNames(init);
    }
  }
}
