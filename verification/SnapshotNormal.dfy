/** Normalising a snapshot before it is stored and after it is loaded
    (generator/schema_snapshot.go). */
module SnapshotNormal {
  import opened Names
  import opened Results
  import opened Sorting
  import opened SchemaSnapshot
  import opened Database

  predicate IndexLess(a: Index, b: Index) { Less(a.name, b.name) }

  predicate ForeignKeyLess(a: ForeignKey, b: ForeignKey) { Less(a.constraint, b.constraint) }

  /** Plain tables before join tables, then by name. */
  predicate TableLess(a: Table, b: Table) {
    if a.isJoinTable == b.isJoinTable then Less(a.name, b.name) else b.isJoinTable
  }

  function NormalColumn(c: Column): Column {
    c.(dependencies := SortBy(Less, c.dependencies))
  }

  function NormalColumns(cs: seq<Column>): (r: seq<Column>)
    ensures |r| == |cs| && forall i :: 0 <= i < |cs| ==> r[i] == NormalColumn(cs[i])
  {
    seq(|cs|, i requires 0 <= i < |cs| => NormalColumn(cs[i]))
  }

  function NormalTable(t: Table): Table {
    t.(columns := NormalColumns(t.columns), indexes := SortBy(IndexLess, t.indexes),
      foreignKeys := SortBy(ForeignKeyLess, t.foreignKeys))
  }

  function NormalTables(ts: seq<Table>): (r: seq<Table>)
    ensures |r| == |ts| && forall i :: 0 <= i < |ts| ==> r[i] == NormalTable(ts[i])
  {
    seq(|ts|, i requires 0 <= i < |ts| => NormalTable(ts[i]))
  }

  function Normal(s: Schema): Schema {
    Schema(NormalTables(SortBy(TableLess, s.tables)), SortBy(Less, s.extensions))
  }

  method NormalizeColumns(columns: seq<Column>) returns (r: seq<Column>)
    ensures r == NormalColumns(columns)
  {
    r := columns;
    for j := 0 to |columns|
      invariant |r| == |columns|
      invariant forall k :: 0 <= k < j ==> r[k] == NormalColumn(columns[k])
      invariant forall k :: j <= k < |columns| ==> r[k] == columns[k]
    {
      r := r[j := r[j].(dependencies := SortBy(Less, r[j].dependencies))];
    }
  }

  method NormalizeSnapshot(s: Schema) returns (r: Schema)
    ensures r == Normal(s)
  {
    hide SortBy, TableLess, IndexLess, ForeignKeyLess, Less;
    var extensions := SortBy(Less, s.extensions);
    var sorted := SortBy(TableLess, s.tables);
    var tables := sorted;
    for i := 0 to |tables|
      invariant |tables| == |sorted|
      invariant forall k :: 0 <= k < i ==> tables[k] == NormalTable(sorted[k])
      invariant forall k :: i <= k < |tables| ==> tables[k] == sorted[k]
    {
      var tbl := tables[i];
      tbl := tbl.(indexes := SortBy(IndexLess, tbl.indexes));
      tbl := tbl.(foreignKeys := SortBy(ForeignKeyLess, tbl.foreignKeys));
      var columns := NormalizeColumns(tbl.columns);
      tables := tables[i := tbl.(columns := columns)];
    }
    assert tables == NormalTables(sorted);
    return Schema(tables, extensions);
  }

  // Orders

  lemma LessIsWeak()
    ensures WeakOrder(Less)
  {
    forall a, b ensures Less(a, b) ==> !Less(b, a) { LessTotal(a, b); }
    forall a, b, c | !Less(a, b) && !Less(b, c) ensures !Less(a, c) {
      LessTotal(a, b);
      LessTotal(b, c);
      LessTotal(a, c);
      if a != b && b != c { LessTransitive(c, b, a); }
    }
  }

  lemma KeyedAreWeak()
    ensures WeakOrder(IndexLess) && WeakOrder(ForeignKeyLess) && WeakOrder(TableLess)
  {
    LessIsWeak();
    hide Less;
    assert forall a, b :: Less(a, b) ==> !Less(b, a);
    assert forall a, b, c :: !Less(a, b) && !Less(b, c) ==> !Less(a, c);
  }

  /** A normal snapshot is in order and stays as it is. */
  lemma NormalIsFixpoint(s: Schema)
    ensures Ordered(TableLess, Normal(s).tables) && Ordered(Less, Normal(s).extensions)
    ensures Normal(Normal(s)) == Normal(s)
  {
    LessIsWeak();
    KeyedAreWeak();
    hide Less;
    SortOrdered(Less, s.extensions);
    SortOrdered(TableLess, s.tables);
    SortedStays(Less, Normal(s).extensions);
    SortedStays(TableLess, Normal(s).tables);
    forall i | 0 <= i < |Normal(s).tables| ensures NormalTable(Normal(s).tables[i]) == Normal(s).tables[i] {
      NormalTableTwice(SortBy(TableLess, s.tables)[i]);
    }
    assert NormalTables(Normal(s).tables) == Normal(s).tables;
  }

  /** No later name comes before an earlier one. */
  ghost predicate NamesInOrder(names: seq<string>) {
    forall i, j :: 0 <= i < j < |names| ==> !Lexicographic(names[j], names[i])
  }

  ghost predicate TableInOrder(t: Table) {
    && (forall i, j :: 0 <= i < j < |t.indexes| ==> !Lexicographic(t.indexes[j].name, t.indexes[i].name))
    && (forall i, j :: 0 <= i < j < |t.foreignKeys| ==>
      !Lexicographic(t.foreignKeys[j].constraint, t.foreignKeys[i].constraint))
    && (forall i :: 0 <= i < |t.columns| ==> NamesInOrder(t.columns[i].dependencies))
  }

  lemma OrderedNames(names: seq<string>)
    requires Ordered(Less, names)
    ensures NamesInOrder(names)
  {
    forall i, j | 0 <= i < j < |names| ensures !Lexicographic(names[j], names[i]) {
      LessIsLexicographic(names[j], names[i]);
    }
  }

  lemma SortedNames(names: seq<string>)
    ensures NamesInOrder(SortBy(Less, names))
  {
    hide *;
    LessIsWeak();
    SortOrdered(Less, names);
    OrderedNames(SortBy(Less, names));
  }

  lemma SortedIndexes(xs: seq<Index>)
    ensures var r := SortBy(IndexLess, xs);
      forall i, j :: 0 <= i < j < |r| ==> !Lexicographic(r[j].name, r[i].name)
  {
    KeyedAreWeak();
    SortOrdered(IndexLess, xs);
    hide SortBy, Less, Lexicographic;
    var r := SortBy(IndexLess, xs);
    forall i, j | 0 <= i < j < |r| ensures !Lexicographic(r[j].name, r[i].name) {
      LessIsLexicographic(r[j].name, r[i].name);
      assert !IndexLess(r[j], r[i]);
    }
  }

  lemma SortedKeys(xs: seq<ForeignKey>)
    ensures var r := SortBy(ForeignKeyLess, xs);
      forall i, j :: 0 <= i < j < |r| ==> !Lexicographic(r[j].constraint, r[i].constraint)
  {
    KeyedAreWeak();
    SortOrdered(ForeignKeyLess, xs);
    hide SortBy, Less, Lexicographic;
    var r := SortBy(ForeignKeyLess, xs);
    forall i, j | 0 <= i < j < |r| ensures !Lexicographic(r[j].constraint, r[i].constraint) {
      LessIsLexicographic(r[j].constraint, r[i].constraint);
      assert !ForeignKeyLess(r[j], r[i]);
    }
  }

  lemma NormalTableInOrder(t: Table)
    ensures TableInOrder(NormalTable(t))
  {
    var n := NormalTable(t);
    assert n.indexes == SortBy(IndexLess, t.indexes) && n.foreignKeys == SortBy(ForeignKeyLess, t.foreignKeys);
    SortedIndexes(t.indexes);
    SortedKeys(t.foreignKeys);
    assert forall i, j :: 0 <= i < j < |n.indexes| ==> !Lexicographic(n.indexes[j].name, n.indexes[i].name);
    assert forall i, j :: 0 <= i < j < |n.foreignKeys| ==>
      !Lexicographic(n.foreignKeys[j].constraint, n.foreignKeys[i].constraint);
    hide SortBy, Less, Lexicographic, NamesInOrder;
    forall i | 0 <= i < |t.columns| ensures NamesInOrder(NormalTable(t).columns[i].dependencies) {
      SortedNames(t.columns[i].dependencies);
    }
  }

  /** In a normal snapshot join tables come last, and tables, extensions, indexes, foreign keys and
      dependencies are in the order of their names. */
  lemma NormalIsInOrder(s: Schema)
    ensures var ts := Normal(s).tables;
      && (forall i, j :: 0 <= i < j < |ts| ==>
        && (ts[i].isJoinTable ==> ts[j].isJoinTable)
        && (ts[i].isJoinTable == ts[j].isJoinTable ==> !Lexicographic(ts[j].name, ts[i].name)))
      && (forall i :: 0 <= i < |ts| ==> TableInOrder(ts[i]))
    ensures NamesInOrder(Normal(s).extensions)
  {
    var sorted := SortBy(TableLess, s.tables);
    LessIsWeak();
    KeyedAreWeak();
    forall a, b ensures Less(a, b) <==> Lexicographic(a, b) { LessIsLexicographic(a, b); }
    hide Less, Lexicographic, TableInOrder, NamesInOrder;
    SortedNames(s.extensions);
    SortOrdered(TableLess, s.tables);
    forall i | 0 <= i < |sorted| ensures TableInOrder(NormalTable(sorted[i])) { NormalTableInOrder(sorted[i]); }
    assert forall i, j :: 0 <= i < j < |sorted| ==> !TableLess(sorted[j], sorted[i]);
    hide SortBy;
  }

  lemma NormalTableTwice(t: Table)
    ensures NormalTable(NormalTable(t)) == NormalTable(t)
  {
    LessIsWeak();
    KeyedAreWeak();
    hide Less;
    SortOrdered(IndexLess, t.indexes);
    SortOrdered(ForeignKeyLess, t.foreignKeys);
    SortedStays(IndexLess, NormalTable(t).indexes);
    SortedStays(ForeignKeyLess, NormalTable(t).foreignKeys);
    forall i | 0 <= i < |t.columns| ensures NormalColumn(NormalColumn(t.columns[i])) == NormalColumn(t.columns[i]) {
      SortOrdered(Less, t.columns[i].dependencies);
      SortedStays(Less, NormalColumn(t.columns[i]).dependencies);
    }
    assert NormalColumns(NormalColumns(t.columns)) == NormalColumns(t.columns);
  }

  // The database that a normal snapshot describes

  lemma {:induction false} CountOne<T>(xs: seq<T>, x: T)
    requires Distinct(xs)
    ensures multiset(xs)[x] <= 1
  {
    if xs != [] {
      var init, last := xs[..|xs| - 1], xs[|xs| - 1];
      CountOne(init, x);
      assert xs == init + [last];
      if last == x {
        assert x !in init by {
          forall i | 0 <= i < |init| ensures init[i] != x { assert xs[i] != xs[|xs| - 1]; }
        }
      }
    }
  }

  /** A permutation of distinct elements has distinct elements. */
  lemma DistinctPermuted<T>(xs: seq<T>, ys: seq<T>)
    requires Distinct(xs) && multiset(xs) == multiset(ys)
    ensures Distinct(ys)
  {
    forall i, j | 0 <= i < j < |ys| ensures ys[i] != ys[j] {
      CountOne(xs, ys[i]);
      assert ys == ys[..j] + [ys[j]] + ys[j + 1..];
      assert ys[i] in ys[..j] by { assert ys[..j][i] == ys[i]; }
    }
  }

  lemma {:induction false} TableUnique(xs: seq<Table>)
    requires forall i, j :: 0 <= i < j < |xs| ==> xs[i].name != xs[j].name
    ensures forall x :: x in xs ==> x.name in TablesByName(xs) && TablesByName(xs)[x.name] == x
  {
    if xs != [] {
      TableUnique(xs[..|xs| - 1]);
      assert xs == xs[..|xs| - 1] + [xs[|xs| - 1]];
    }
  }

  lemma TablesPermuted(xs: seq<Table>, ys: seq<Table>)
    requires (forall i, j :: 0 <= i < j < |xs| ==> xs[i].name != xs[j].name) && multiset(xs) == multiset(ys)
    ensures forall i, j :: 0 <= i < j < |ys| ==> ys[i].name != ys[j].name
    ensures TablesByName(ys) == TablesByName(xs)
  {
    DistinctPermuted(xs, ys);
    SameMembers(xs, ys);
    TableUnique(xs);
    forall i, j | 0 <= i < j < |ys| ensures ys[i].name != ys[j].name {
      assert ys[i] in ys && ys[j] in ys && ys[i] != ys[j];
    }
    TableUnique(ys);
    TableKeys(xs);
    TableKeys(ys);
  }

  lemma IndexesPermuted(xs: seq<Index>, ys: seq<Index>)
    requires (forall i, j :: 0 <= i < j < |xs| ==> xs[i].name != xs[j].name) && multiset(xs) == multiset(ys)
    ensures forall i, j :: 0 <= i < j < |ys| ==> ys[i].name != ys[j].name
    ensures IndexesByName(ys) == IndexesByName(xs)
  {
    DistinctPermuted(xs, ys);
    SameMembers(xs, ys);
    IndexUnique(xs);
    forall i, j | 0 <= i < j < |ys| ensures ys[i].name != ys[j].name {
      assert ys[i] in ys && ys[j] in ys && ys[i] != ys[j];
    }
    IndexUnique(ys);
    IndexKeys(xs);
    IndexKeys(ys);
  }

  lemma ForeignKeysPermuted(xs: seq<ForeignKey>, ys: seq<ForeignKey>)
    requires (forall i, j :: 0 <= i < j < |xs| ==> xs[i].constraint != xs[j].constraint) && multiset(xs) == multiset(ys)
    ensures forall i, j :: 0 <= i < j < |ys| ==> ys[i].constraint != ys[j].constraint
    ensures ForeignKeysByName(ys) == ForeignKeysByName(xs)
  {
    DistinctPermuted(xs, ys);
    SameMembers(xs, ys);
    ForeignKeyUnique(xs);
    forall i, j | 0 <= i < j < |ys| ensures ys[i].constraint != ys[j].constraint {
      assert ys[i] in ys && ys[j] in ys && ys[i] != ys[j];
    }
    ForeignKeyUnique(ys);
    ForeignKeyKeys(xs);
    ForeignKeyKeys(ys);
  }

  lemma {:induction false} NormalColumnMap(cs: seq<Column>)
    ensures ColumnsByName(NormalColumns(cs)).Keys == ColumnsByName(cs).Keys
    ensures forall c :: c in ColumnsByName(cs) ==>
      ColumnsByName(NormalColumns(cs))[c] == NormalColumn(ColumnsByName(cs)[c])
  {
    if cs != [] {
      NormalColumnMap(cs[..|cs| - 1]);
      assert NormalColumns(cs)[..|cs| - 1] == NormalColumns(cs[..|cs| - 1]);
    }
  }

  lemma {:induction false} NormalTableMap(ts: seq<Table>)
    ensures TablesByName(NormalTables(ts)).Keys == TablesByName(ts).Keys
    ensures forall t :: t in TablesByName(ts) ==> TablesByName(NormalTables(ts))[t] == NormalTable(TablesByName(ts)[t])
  {
    hide NormalTable;
    if ts != [] {
      NormalTableMap(ts[..|ts| - 1]);
      assert NormalTables(ts)[..|ts| - 1] == NormalTables(ts[..|ts| - 1]);
      SameName(ts[|ts| - 1]);
    }
  }

  lemma SameName(t: Table)
    ensures NormalTable(t).name == t.name
  {
  }

  /** The tables describe the same objects. */
  ghost predicate SameObjects(t: Table, t': Table) {
    && Indexes(t') == Indexes(t) && ForeignKeys(t') == ForeignKeys(t) && Columns(t').Keys == Columns(t).Keys
    && Described(t') == Described(t) && (WellFormedTable(t) ==> WellFormedTable(t'))
  }

  lemma NormalColumnsRendered(t: Table)
    ensures Columns(NormalTable(t)).Keys == Columns(t).Keys
    ensures RenderedAll(Columns(NormalTable(t))) == RenderedAll(Columns(t))
  {
    NormalColumnMap(t.columns);
    hide SortBy, ColumnsByName, NormalColumns;
  }

  lemma ShapeSame(t: Table, t': Table)
    requires Columns(t').Keys == Columns(t).Keys && Indexes(t') == Indexes(t) && ForeignKeys(t') == ForeignKeys(t)
    requires |t'.columns| == |t.columns| && forall i :: 0 <= i < |t.columns| ==> t'.columns[i].name == t.columns[i].name
    requires t'.primaryKey == t.primaryKey && t'.hypertableColumn == t.hypertableColumn
    requires forall i, j :: 0 <= i < j < |t'.indexes| ==> t'.indexes[i].name != t'.indexes[j].name
    requires forall i, j :: 0 <= i < j < |t'.foreignKeys| ==>
      t'.foreignKeys[i].constraint != t'.foreignKeys[j].constraint
    requires WellFormedTable(t)
    ensures WellFormedTable(t')
  {
    hide Columns, Indexes, ForeignKeys;
  }

  lemma NormalTableSame(t: Table)
    requires WellFormedTable(t)
    ensures SameObjects(t, NormalTable(t))
  {
    IndexesPermuted(t.indexes, NormalTable(t).indexes);
    ForeignKeysPermuted(t.foreignKeys, NormalTable(t).foreignKeys);
    NormalColumnsRendered(t);
    hide SortBy, IndexesByName, ForeignKeysByName, ColumnsByName, WellFormedTable, RenderedAll;
    ShapeSame(t, NormalTable(t));
  }

  /** The tables of a normal snapshot by name. */
  lemma NormalTablesAt(s: Schema)
    requires WellFormed(s)
    ensures Tables(Normal(s)).Keys == Tables(s).Keys
    ensures forall t :: t in Tables(s) ==> Tables(Normal(s))[t] == NormalTable(Tables(s)[t])
    ensures forall i, j :: 0 <= i < j < |Normal(s).tables| ==> Normal(s).tables[i].name != Normal(s).tables[j].name
  {
    var sorted := SortBy(TableLess, s.tables);
    TablesPermuted(s.tables, sorted);
    NormalTableMap(sorted);
  }

  lemma ObjectsSame(s: Schema, n: Schema)
    requires Tables(n).Keys == Tables(s).Keys && forall t :: t in Tables(s) ==> SameObjects(Tables(s)[t], Tables(n)[t])
    requires forall i, j :: 0 <= i < j < |n.tables| ==> n.tables[i].name != n.tables[j].name
    requires WellFormed(s)
    ensures WellFormed(n)
  {
    hide WellFormedTable, Columns, Indexes, ForeignKeys, Described, Tables;
    forall t, k | t in Tables(n) && k in ForeignKeys(Tables(n)[t]) ensures Resolves(n, ForeignKeys(Tables(n)[t])[k]) {
      assert Resolves(s, ForeignKeys(Tables(s)[t])[k]);
    }
  }

  lemma DatabaseSame(s: Schema, n: Schema)
    requires Tables(n).Keys == Tables(s).Keys && forall t :: t in Tables(s) ==> SameObjects(Tables(s)[t], Tables(n)[t])
    requires (set e | e in n.extensions) == set e | e in s.extensions
    ensures DbOf(n) == DbOf(s)
  {
    hide WellFormedTable, Columns, Indexes, Described, Tables;
    NormalForeignKeys(s, n);
  }

  /** Normalising changes neither the database that a snapshot describes nor whether it is well
      formed. */
  lemma NormalKeepsDatabase(s: Schema)
    requires WellFormed(s)
    ensures WellFormed(Normal(s)) && DbOf(Normal(s)) == DbOf(s)
  {
    NormalTablesAt(s);
    NormalExtensions(s);
    hide Normal, NormalTable, WellFormedTable, SameObjects, Tables;
    forall t | t in Tables(s) ensures SameObjects(Tables(s)[t], Tables(Normal(s))[t]) {
      NormalTableSame(Tables(s)[t]);
    }
    ObjectsSame(s, Normal(s));
    DatabaseSame(s, Normal(s));
  }

  lemma NormalExtensions(s: Schema)
    ensures (set e | e in Normal(s).extensions) == set e | e in s.extensions
  {
    SameMembers(s.extensions, Normal(s).extensions);
  }

  lemma NormalForeignKeys(s: Schema, n: Schema)
    requires Tables(n).Keys == Tables(s).Keys
    requires forall t :: t in Tables(s) ==> ForeignKeys(Tables(n)[t]) == ForeignKeys(Tables(s)[t])
    ensures AllForeignKeys(Tables(n)) == AllForeignKeys(Tables(s))
  {
    hide Tables, ForeignKeys;
    assert ForeignKeySet(Tables(n)) == ForeignKeySet(Tables(s));
  }
}
