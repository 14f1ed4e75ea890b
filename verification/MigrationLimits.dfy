/** Snapshots between which the generated migration does not lead (generator/schema_diff.go): one
    pair for each way in which MigrationFaithful's conditions can fail. */
module MigrationLimits {
  import opened Names
  import opened Results
  import opened SchemaSnapshot
  import opened Database
  import opened SchemaDiff
  import opened TablePatch
  import opened SchemaPatch
  import opened Migration
  import opened MigrationFaithful

  /** The migration from p to n does not give the database that n describes. */
  ghost predicate Misses(p: Schema, n: Schema) {
    WellFormed(p) && WellFormed(n) && Run(DbOf(p), MigrationOps(p, n)) != DbOf(n)
  }

  function Text(name: string): Column { Column(name, "text", false, false, "", false, false, "", [], false, []) }

  function Plain(name: string, columns: seq<Column>): Table { Table(name, columns, [], [], [], "", false) }

  function On(name: string, column: string): Index { Index(name, [column], false, "", "", false) }

  lemma OneColumn(c: Column)
    ensures ColumnsByName([c]) == map[c.name := c]
  {
    assert [c][..0] == [];
  }

  lemma OneIndex(i: Index)
    ensures IndexesByName([i]) == map[i.name := i] && IndexesByName([]) == map[]
  {
    assert [i][..0] == [];
  }

  lemma OneKey(k: ForeignKey)
    ensures ForeignKeysByName([k]) == map[k.constraint := k] && ForeignKeysByName([]) == map[]
  {
    assert [k][..0] == [];
  }

  lemma OneTable(t: Table)
    ensures Tables(Schema([t], [])) == map[t.name := t] && Tables(Schema([], [])) == map[]
  {
    assert [t][..0] == [];
    assert TablesByName([t]) == TablesByName([])[t.name := t];
  }

  lemma TwoTables(t: Table, u: Table)
    requires t.name != u.name
    ensures Tables(Schema([t, u], [])) == map[t.name := t, u.name := u]
  {
    OneTable(t);
    assert [t, u][..1] == [t];
  }

  /** A table of one column and at most one index on it. */
  lemma SmallTable(t: Table, a: Column, i: Index)
    requires t == Plain(t.name, [a]) || t == Plain(t.name, [a]).(indexes := [i])
    requires i.columns == [a.name]
    ensures WellFormedTable(t) && Columns(t) == map[a.name := a] && ForeignKeys(t) == map[]
    ensures Indexes(t) == if t.indexes == [] then map[] else map[i.name := i]
  {
    OneColumn(a);
    OneIndex(i);
    assert forall c :: c in i.columns ==> c == a.name;
  }

  lemma OneWellFormed(t: Table)
    requires WellFormedTable(t) && ForeignKeys(t) == map[]
    ensures WellFormed(Schema([t], []))
  {
    OneTable(t);
    hide WellFormedTable, TablesByName, Columns;
  }

  lemma TwoWellFormed(t: Table, u: Table)
    requires t.name != u.name && WellFormedTable(t) && WellFormedTable(u) && ForeignKeys(t) == map[]
    requires ForeignKeys(u) == map[]
    requires forall i :: i in Indexes(t) ==> i !in Indexes(u)
    ensures WellFormed(Schema([t, u], []))
  {
    TwoTables(t, u);
    hide WellFormedTable, TablesByName, Columns;
  }

  /** Two snapshots of one table each, with one column each. */
  lemma UnfaithfulTable(t: Table, u: Table, a: Column, b: Column)
    requires t.name == u.name && WellFormedTable(t) && WellFormedTable(u) && ForeignKeys(t) == ForeignKeys(u) == map[]
    requires Columns(t) == map[a.name := a] && Columns(u) == map[b.name := b]
    requires (a.name == b.name && !ColumnFaithful(a, b)) || !PrimaryKeyFaithful(t, u)
    ensures Misses(Schema([t], []), Schema([u], []))
  {
    var p, n := Schema([t], []), Schema([u], []);
    OneWellFormed(t);
    OneWellFormed(u);
    OneTable(t);
    OneTable(u);
    hide WellFormed, WellFormedTable, Tables, Columns, ColumnFaithful, PrimaryKeyFaithful, IndexesFaithful;
    assert t.name in Tables(p) && t.name in Tables(n);
    assert a.name in Columns(t) && (a.name == b.name ==> a.name in Columns(u));
    assert !TableFaithful(Tables(p), Tables(n), t.name);
    hide TableFaithful;
    MigrationReachesNext(p, n);
  }

  /** UNIQUE added to a plain column is missed. */
  lemma UniqueIsMissed() returns (p: Schema, n: Schema)
    ensures Misses(p, n)
  {
    var a, i := Text("a"), On("i", "a");
    var b := a.(unique := true);
    p, n := Schema([Plain("t", [a])], []), Schema([Plain("t", [b])], []);
    SmallTable(Plain("t", [a]), a, i);
    SmallTable(Plain("t", [b]), b, i);
    hide WellFormedTable, Columns, ForeignKeys, Misses;
    UnfaithfulTable(Plain("t", [a]), Plain("t", [b]), a, b);
  }

  /** So is the default of a read-only column. */
  lemma ReadOnlyDefaultIsMissed() returns (p: Schema, n: Schema)
    ensures Misses(p, n)
  {
    var a, i := Text("a").(readOnly := true), On("i", "a");
    var b := a.(defaultExpr := "'x'");
    p, n := Schema([Plain("t", [a])], []), Schema([Plain("t", [b])], []);
    SmallTable(Plain("t", [a]), a, i);
    SmallTable(Plain("t", [b]), b, i);
    hide WellFormedTable, Columns, ForeignKeys, Misses;
    UnfaithfulTable(Plain("t", [a]), Plain("t", [b]), a, b);
  }

  /** And its enum values. */
  lemma ReadOnlyEnumIsMissed() returns (p: Schema, n: Schema)
    ensures Misses(p, n)
  {
    var a, i := Text("a").(readOnly := true), On("i", "a");
    var b := a.(enumValues := ["x"]);
    p, n := Schema([Plain("t", [a])], []), Schema([Plain("t", [b])], []);
    SmallTable(Plain("t", [a]), a, i);
    SmallTable(Plain("t", [b]), b, i);
    hide WellFormedTable, Columns, ForeignKeys, Misses;
    UnfaithfulTable(Plain("t", [a]), Plain("t", [b]), a, b);
  }

  /** And a change of the primary key. */
  lemma PrimaryKeyIsMissed() returns (p: Schema, n: Schema)
    ensures Misses(p, n)
  {
    var a, i := Text("a"), On("i", "a");
    var t := Plain("t", [a]);
    var u := t.(primaryKey := ["a"]);
    p, n := Schema([t], []), Schema([u], []);
    SmallTable(t, a, i);
    Keyed(t, a);
    assert !PrimaryKeyFaithful(t, u) by { assert Lost(t, u) == {}; }
    hide WellFormedTable, Columns, ForeignKeys, Misses, PrimaryKeyFaithful;
    UnfaithfulTable(t, u, a, a);
  }

  lemma Keyed(t: Table, a: Column)
    requires WellFormedTable(t) && Columns(t) == map[a.name := a]
    ensures var u := t.(primaryKey := [a.name]);
      WellFormedTable(u) && Columns(u) == Columns(t) && ForeignKeys(u) == ForeignKeys(t)
  {
    hide ColumnsByName, IndexesByName, ForeignKeysByName;
    var u := t.(primaryKey := [a.name]);
    assert Columns(u) == Columns(t) && Indexes(u) == Indexes(t) && ForeignKeys(u) == ForeignKeys(t);
    hide Columns, Indexes, ForeignKeys;
    assert forall c :: c in u.primaryKey ==> c == a.name;
  }

  /** A table of one column with a foreign key from the column to itself. */
  lemma SelfReferring(t: Table, a: Column, fk: ForeignKey)
    requires t == Plain(t.name, [a]).(foreignKeys := [fk]) && fk.column == a.name && fk.targetTable == t.name
    requires fk.targetColumn == a.name
    ensures WellFormed(Schema([t], [])) && Columns(t) == map[a.name := a] && ForeignKeys(t) == map[fk.constraint := fk]
    ensures Tables(Schema([t], [])) == map[t.name := t]
  {
    OneColumn(a);
    OneKey(fk);
    OneTable(t);
    hide TablesByName, ColumnsByName, ForeignKeysByName;
    assert forall k :: k in ForeignKeys(t) ==> ForeignKeys(t)[k] == fk;
  }

  lemma EmptyWellFormed()
    ensures WellFormed(Schema([], []))
  {
  }

  /** The foreign keys of a new table lose their actions. */
  lemma ActionsAreLost() returns (p: Schema, n: Schema)
    ensures Misses(p, n)
  {
    var a := Text("a");
    var fk := ForeignKey("a", "t", "a", "k", "CASCADE", "");
    var t := Plain("t", [a]).(foreignKeys := [fk]);
    p, n := Schema([], []), Schema([t], []);
    SelfReferring(t, a, fk);
    EmptyWellFormed();
    OneTable(t);
    hide WellFormed, Tables, ForeignKeys, Columns;
    assert HasForeignKey(Tables(n), ("t", "k")) && ForeignKeyAt(Tables(n), ("t", "k")) == fk;
    assert ("t", "k") in ForeignKeySet(Tables(n)) && !KeyFaithful(Tables(p), Tables(n), ("t", "k"));
    hide KeyFaithful, ForeignKeySet;
    MigrationReachesNext(p, n);
  }

  /** A foreign key on a column that is made anew goes with the column and does not come back. */
  lemma KeyIsLost() returns (p: Schema, n: Schema)
    ensures Misses(p, n)
  {
    var a := Text("a").(generatedExpr := "1");
    var b := a.(generatedExpr := "2");
    var fk := ForeignKey("a", "t", "a", "k", "", "");
    var t, u := Plain("t", [a]).(foreignKeys := [fk]), Plain("t", [b]).(foreignKeys := [fk]);
    p, n := Schema([t], []), Schema([u], []);
    SelfReferring(t, a, fk);
    SelfReferring(u, b, fk);
    assert Regenerated(a, b);
    hide WellFormed, Tables, ForeignKeys, Columns, Regenerated;
    assert "a" in Lost(t, u) && Kept(ForeignKeys(t), ForeignKeys(u), "k");
    assert HasForeignKey(Tables(n), ("t", "k")) && ForeignKeyAt(Tables(n), ("t", "k")) == fk;
    assert ("t", "k") in ForeignKeySet(Tables(n)) && !KeyFaithful(Tables(p), Tables(n), ("t", "k"));
    hide KeyFaithful, ForeignKeySet;
    MigrationReachesNext(p, n);
  }

  /** A table whose one column refers to the column of another. */
  lemma Referring(t: Table, u: Table, a: Column, b: Column, fk: ForeignKey)
    requires t.name != u.name && t == Plain(t.name, [a]).(foreignKeys := [fk]) && u == Plain(u.name, [b])
    requires fk.column == a.name && fk.targetTable == u.name && fk.targetColumn == b.name
    ensures WellFormed(Schema([t, u], [])) && Tables(Schema([t, u], [])) == map[t.name := t, u.name := u]
    ensures Columns(u) == map[b.name := b] && ForeignKeys(t) == map[fk.constraint := fk]
  {
    OneColumn(a);
    OneColumn(b);
    OneKey(fk);
    TwoTables(t, u);
    hide TablesByName, ColumnsByName, ForeignKeysByName;
    assert Columns(t) == map[a.name := a] && Columns(u) == map[b.name := b];
    assert Indexes(t) == map[] && Indexes(u) == map[] && ForeignKeys(u) == map[];
    assert ForeignKeys(t) == map[fk.constraint := fk];
  }

  /** So does a foreign key to a column of another table that is made anew. */
  lemma KeyToOtherIsLost() returns (p: Schema, n: Schema)
    ensures Misses(p, n)
  {
    var a, b := Text("a"), Text("b").(generatedExpr := "1");
    var b' := b.(generatedExpr := "2");
    var fk := ForeignKey("a", "u", "b", "k", "", "");
    var t, u, u' := Plain("t", [a]).(foreignKeys := [fk]), Plain("u", [b]), Plain("u", [b']);
    p, n := Schema([t, u], []), Schema([t, u'], []);
    Referring(t, u, a, b, fk);
    Referring(t, u', a, b', fk);
    assert Regenerated(b, b');
    hide WellFormed, Tables, ForeignKeys, Columns, Regenerated;
    assert "b" in Lost(u, u') && Kept(ForeignKeys(t), ForeignKeys(t), "k");
    assert HasForeignKey(Tables(n), ("t", "k")) && ForeignKeyAt(Tables(n), ("t", "k")) == fk;
    assert ("t", "k") in ForeignKeySet(Tables(n)) && !KeyFaithful(Tables(p), Tables(n), ("t", "k"));
    hide KeyFaithful, ForeignKeySet;
    MigrationReachesNext(p, n);
  }

  /** An index on a column that is made anew goes with the column and does not come back. */
  lemma IndexIsLost() returns (p: Schema, n: Schema)
    ensures Misses(p, n)
  {
    var a, i := Text("a").(generatedExpr := "1"), On("i", "a");
    var b := a.(generatedExpr := "2");
    var t, u := Plain("t", [a]).(indexes := [i]), Plain("t", [b]).(indexes := [i]);
    p, n := Schema([t], []), Schema([u], []);
    SmallTable(t, a, i);
    SmallTable(u, b, i);
    OneWellFormed(t);
    OneWellFormed(u);
    OneTable(t);
    OneTable(u);
    hide WellFormed, Indexes, Columns, WellFormedTable, TablesByName;
    assert "a" in Lost(t, u) && "a" in i.columns && Touches(i.columns, Lost(t, u));
    assert Kept(Indexes(t), Indexes(u), "i");
    assert "t" in Tables(p) && "t" in Tables(n) && !IndexesFaithful(Tables(p), Tables(n), "t");
    hide IndexesFaithful;
    assert !TableFaithful(Tables(p), Tables(n), "t");
    hide TableFaithful;
    MigrationReachesNext(p, n);
  }

  /** An index name that moves to an earlier table is created before it is dropped, so that
      statement is not enabled. */
  lemma IndexMovesBack() returns (p: Schema, n: Schema)
    ensures Misses(p, n) && !AllEnabled(DbOf(p), MigrationOps(p, n))
  {
    var a, i := Text("a"), On("i", "a");
    var t, u := Plain("t", [a]), Plain("u", [a]);
    var t', u' := t.(indexes := [i]), u.(indexes := [i]);
    p, n := Schema([t, u'], []), Schema([t', u], []);
    SmallTable(t, a, i);
    SmallTable(u, a, i);
    SmallTable(t', a, i);
    SmallTable(u', a, i);
    TwoWellFormed(t, u');
    TwoWellFormed(t', u);
    TwoTables(t, u');
    TwoTables(t', u);
    assert Less("t", "u");
    hide WellFormed, Indexes, Columns, WellFormedTable, TablesByName, Less;
    assert MovesBack(Tables(p), Tables(n), "t", "i");
    assert "i" in Changed(Indexes(t'), Indexes(t));
    assert "t" in Tables(p) && "t" in Tables(n) && !NoIndexMovesBack(Tables(p), Tables(n), "t");
    hide NoIndexMovesBack;
    assert !IndexesFaithful(Tables(p), Tables(n), "t");
    hide IndexesFaithful;
    assert !TableFaithful(Tables(p), Tables(n), "t");
    hide TableFaithful;
    MigrationReachesNext(p, n);
    MigrationIsPatch(p, n);
  }
}
