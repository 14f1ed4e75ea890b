/** The schema differ (generator/schema_diff.go). Each method follows the source's loops
    over maps and sorted name lists and returns exactly the list of its specification
    function; what those lists do to a database is proved in SchemaPatch. */
module SchemaDiff {
  import opened Names
  import opened Results
  import opened SchemaSnapshot
  import opened Database

  type Operations = seq<Operation>

  // One statement per name, in list order.

  function ExtensionDrops(names: seq<string>): Operations {
    if names == [] then [] else ExtensionDrops(names[..|names| - 1]) + [DropExtension(names[|names| - 1])]
  }

  function ExtensionCreates(names: seq<string>): Operations {
    if names == [] then [] else ExtensionCreates(names[..|names| - 1]) + [CreateExtension(names[|names| - 1])]
  }

  function TableDrops(names: seq<string>): Operations {
    if names == [] then [] else TableDrops(names[..|names| - 1]) + [DropTable(names[|names| - 1])]
  }

  function IndexDrops(names: seq<string>): Operations {
    if names == [] then [] else IndexDrops(names[..|names| - 1]) + [DropIndex(names[|names| - 1])]
  }

  function ForeignKeyDrops(table: string, names: seq<string>): Operations {
    if names == [] then []
      else ForeignKeyDrops(table, names[..|names| - 1]) + [DropForeignKey(table, names[|names| - 1])]
  }

  function ColumnDrops(table: string, names: seq<string>): Operations {
    if names == [] then [] else ColumnDrops(table, names[..|names| - 1]) + [DropColumn(table, names[|names| - 1])]
  }

  function ColumnAdds(table: string, names: seq<string>, cols: map<string, Column>): Operations
    requires forall c :: c in names ==> c in cols
  {
    if names == [] then []
    else ColumnAdds(table, names[..|names| - 1], cols) + [AddColumn(table, cols[names[|names| - 1]])]
  }

  function IndexAdds(table: string, names: seq<string>, indexes: map<string, Index>): Operations
    requires forall i :: i in names ==> i in indexes
  {
    if names == [] then []
    else IndexAdds(table, names[..|names| - 1], indexes) + [AddIndex(table, indexes[names[|names| - 1]])]
  }

  function ForeignKeyAdds(table: string, names: seq<string>, fks: map<string, ForeignKey>): Operations
    requires forall k :: k in names ==> k in fks
  {
    if names == [] then []
    else ForeignKeyAdds(table, names[..|names| - 1], fks) + [AddForeignKey(table, fks[names[|names| - 1]])]
  }

  function IndexCreates(table: string, indexes: seq<Index>): Operations {
    if indexes == [] then []
    else IndexCreates(table, indexes[..|indexes| - 1]) + [AddIndex(table, indexes[|indexes| - 1])]
  }

  /** The foreign keys of a new table are rendered without ON DELETE and ON UPDATE. */
  function WithoutActions(fk: ForeignKey): ForeignKey {
    fk.(onDelete := "", onUpdate := "")
  }

  function ForeignKeyCreates(table: string, fks: seq<ForeignKey>): Operations {
    if fks == [] then []
    else ForeignKeyCreates(table, fks[..|fks| - 1]) + [AddForeignKey(table, WithoutActions(fks[|fks| - 1]))]
  }

  // Columns

  /** Generated and read-only columns are never altered, only dropped and added again. */
  predicate Guarded(p: Column, n: Column) {
    p.generatedExpr != "" || n.generatedExpr != "" || p.readOnly || n.readOnly
  }

  predicate Regenerated(p: Column, n: Column) {
    Guarded(p, n)
    && (p.generatedExpr != n.generatedExpr || p.typ != n.typ || p.nullable != n.nullable
        || p.unique != n.unique || p.readOnly != n.readOnly)
  }

  function TypeOps(table: string, p: Column, n: Column): Operations {
    if p.typ != n.typ then [AlterType(table, p.name, n.typ)] else []
  }

  function NullOps(table: string, p: Column, n: Column): Operations {
    if p.nullable != n.nullable then [AlterNullable(table, p.name, n.nullable)] else []
  }

  function DefaultOps(table: string, p: Column, n: Column): Operations {
    if ColumnDefault(p) == ColumnDefault(n) then []
    else if ColumnDefault(n).Some? then [SetDefault(table, p.name, ColumnDefault(n).value)]
    else [DropDefault(table, p.name)]
  }

  function CheckOps(table: string, p: Column, n: Column): Operations {
    if p.enumValues == n.enumValues then []
    else
      (if p.enumValues != [] then [DropCheck(table, p.name)] else [])
      + (if n.enumValues != [] then [AddCheck(table, n.name, n.enumValues)] else [])
  }

  function ColumnOps(table: string, p: Column, n: Column): Operations {
    if Regenerated(p, n) then [DropColumn(table, p.name), AddColumn(table, n)]
    else if Guarded(p, n) then []
    else TypeOps(table, p, n) + NullOps(table, p, n) + DefaultOps(table, p, n) + CheckOps(table, p, n)
  }

  /** The DEFAULT statements: those that lead from one default to the other, if neither column is
      generated or read-only. */
  ghost predicate SetsDefault(table: string, p: Column, n: Column, ops: Operations) {
    var plain := p.generatedExpr == "" && n.generatedExpr == "" && !p.readOnly && !n.readOnly;
    var before := if p.defaultNow then "now()" else p.defaultExpr;
    var after := if n.defaultNow then "now()" else n.defaultExpr;
    forall op :: op in ops && (op.SetDefault? || op.DropDefault?) <==>
      plain && before != after && op == if after != "" then SetDefault(table, p.name, after)
        else DropDefault(table, p.name)
  }

  lemma DefaultStatements(table: string, p: Column, n: Column)
    ensures SetsDefault(table, p, n, ColumnOps(table, p, n))
  {
    if Guarded(p, n) {
    } else {
      var a, b, c, d := TypeOps(table, p, n), NullOps(table, p, n), DefaultOps(table, p, n), CheckOps(table, p, n);
      assert forall op :: op in a || op in b || op in d ==> !op.SetDefault? && !op.DropDefault?;
      forall op ensures op in c <==>
        ColumnDefault(p) != ColumnDefault(n)
        && op == if ColumnDefault(n).Some? then SetDefault(table, p.name, ColumnDefault(n).value) else
          DropDefault(table, p.name) {}
      hide TypeOps, NullOps, DefaultOps, CheckOps;
    }
  }

  method DiffColumn(table: string, p: Column, n: Column) returns (ops: Operations)
    ensures ops == ColumnOps(table, p, n)
    ensures SetsDefault(table, p, n, ops)
  {
    DefaultStatements(table, p, n);
    hide SetsDefault;
    ops := [];
    if p.generatedExpr != "" || n.generatedExpr != "" || p.readOnly || n.readOnly {
      if p.generatedExpr != n.generatedExpr || p.typ != n.typ || p.nullable != n.nullable || p.unique != n.unique
        || p.readOnly != n.readOnly {
        return [DropColumn(table, p.name), AddColumn(table, n)];
      }
      return;
    }
    if p.typ != n.typ {
      ops := ops + [AlterType(table, p.name, n.typ)];
    }
    assert ops == TypeOps(table, p, n);
    if p.nullable != n.nullable {
      ops := ops + [AlterNullable(table, p.name, n.nullable)];
    }
    assert ops == TypeOps(table, p, n) + NullOps(table, p, n);
    var prevDefault, nextDefault := ColumnDefault(p), ColumnDefault(n);
    if prevDefault != nextDefault {
      if nextDefault.Some? {
        ops := ops + [SetDefault(table, p.name, nextDefault.value)];
      } else {
        ops := ops + [DropDefault(table, p.name)];
      }
    }
    assert ops == TypeOps(table, p, n) + NullOps(table, p, n) + DefaultOps(table, p, n);
    if p.enumValues != n.enumValues {
      if |p.enumValues| > 0 {
        ops := ops + [DropCheck(table, p.name)];
      }
      if |n.enumValues| > 0 {
        ops := ops + [AddCheck(table, n.name, n.enumValues)];
      }
    }
  }

  function SharedColumnOps(table: string, names: seq<string>, p: map<string, Column>,
      n: map<string, Column>): Operations
    requires forall c :: c in names ==> c in p && c in n
  {
    if names == [] then []
    else
      var c := names[|names| - 1];
      SharedColumnOps(table, names[..|names| - 1], p, n) + ColumnOps(table, p[c], n[c])
  }

  ghost function ColumnListOps(table: string, p: map<string, Column>, n: map<string, Column>): Operations {
    SharedColumnOps(table, Sorted({}, p.Keys * n.Keys), p, n)
    + ColumnAdds(table, Sorted({}, n.Keys - p.Keys), n)
    + ColumnDrops(table, Sorted({}, p.Keys - n.Keys))
  }

  lemma SameSorted(joins: set<string>, a: set<string>, b: set<string>)
    requires forall x :: x in a <==> x in b
    ensures Sorted(joins, a) == Sorted(joins, b)
  {
    assert a == b;
  }

  /** `for name := range a { if _, ok := b[name]; !ok ... }`, sorted. */
  method CollectMissing(a: set<string>, b: set<string>, joins: set<string>) returns (names: seq<string>)
    ensures names == Sorted(joins, a - b)
  {
    var missing := x => x !in b;
    names := CollectSorted(a, joins, missing);
    SameSorted(joins, a - b, set x | x in a && missing(x));
  }

  /** `for name := range a { if _, ok := b[name]; ok ... }`, sorted. */
  method CollectShared(a: set<string>, b: set<string>) returns (names: seq<string>)
    ensures names == Sorted({}, a * b)
  {
    var present := x => x in b;
    names := CollectSorted(a, {}, present);
    SameSorted({}, a * b, set x | x in a && present(x));
  }

  /** The names whose entry is missing from or different in `b`, sorted. */
  method CollectChanged<T(==)>(a: map<string, T>, b: map<string, T>) returns (names: seq<string>)
    ensures names == Sorted({}, Changed(a, b))
  {
    var changed := x => x in a && (x !in b || a[x] != b[x]);
    names := CollectSorted(a.Keys, {}, changed);
    SameSorted({}, Changed(a, b), set x | x in a.Keys && changed(x));
  }

  // The loops that fill a map and the loops that emit one statement per name.

  method CollectColumns(xs: seq<Column>) returns (m: map<string, Column>)
    ensures m == ColumnsByName(xs)
  {
    m := map[];
    for i := 0 to |xs|
      invariant m == ColumnsByName(xs[..i])
    {
      assert xs[..i + 1][..i] == xs[..i];
      m := m[xs[i].name := xs[i]];
    }
    assert xs[..|xs|] == xs;
  }

  method CollectIndexes(xs: seq<Index>) returns (m: map<string, Index>)
    ensures m == IndexesByName(xs)
  {
    m := map[];
    for i := 0 to |xs|
      invariant m == IndexesByName(xs[..i])
    {
      assert xs[..i + 1][..i] == xs[..i];
      m := m[xs[i].name := xs[i]];
    }
    assert xs[..|xs|] == xs;
  }

  method CollectForeignKeys(xs: seq<ForeignKey>) returns (m: map<string, ForeignKey>)
    ensures m == ForeignKeysByName(xs)
  {
    m := map[];
    for i := 0 to |xs|
      invariant m == ForeignKeysByName(xs[..i])
    {
      assert xs[..i + 1][..i] == xs[..i];
      m := m[xs[i].constraint := xs[i]];
    }
    assert xs[..|xs|] == xs;
  }

  method CollectTables(xs: seq<Table>) returns (m: map<string, Table>)
    ensures m == TablesByName(xs)
  {
    m := map[];
    for i := 0 to |xs|
      invariant m == TablesByName(xs[..i])
    {
      assert xs[..i + 1][..i] == xs[..i];
      m := m[xs[i].name := xs[i]];
    }
    assert xs[..|xs|] == xs;
  }

  method EmitColumnAdds(table: string, names: seq<string>, cols: map<string, Column>) returns (ops: Operations)
    requires forall c :: c in names ==> c in cols
    ensures ops == ColumnAdds(table, names, cols)
  {
    ops := [];
    for i := 0 to |names|
      invariant ops == ColumnAdds(table, names[..i], cols)
    {
      assert names[..i + 1][..i] == names[..i];
      ops := ops + [AddColumn(table, cols[names[i]])];
    }
    assert names[..|names|] == names;
  }

  method EmitColumnDrops(table: string, names: seq<string>) returns (ops: Operations)
    ensures ops == ColumnDrops(table, names)
  {
    ops := [];
    for i := 0 to |names|
      invariant ops == ColumnDrops(table, names[..i])
    {
      assert names[..i + 1][..i] == names[..i];
      ops := ops + [DropColumn(table, names[i])];
    }
    assert names[..|names|] == names;
  }

  method EmitIndexDrops(names: seq<string>) returns (ops: Operations)
    ensures ops == IndexDrops(names)
  {
    ops := [];
    for i := 0 to |names|
      invariant ops == IndexDrops(names[..i])
    {
      assert names[..i + 1][..i] == names[..i];
      ops := ops + [DropIndex(names[i])];
    }
    assert names[..|names|] == names;
  }

  method EmitIndexAdds(table: string, names: seq<string>, indexes: map<string, Index>) returns (ops: Operations)
    requires forall x :: x in names ==> x in indexes
    ensures ops == IndexAdds(table, names, indexes)
  {
    ops := [];
    for i := 0 to |names|
      invariant ops == IndexAdds(table, names[..i], indexes)
    {
      assert names[..i + 1][..i] == names[..i];
      ops := ops + [AddIndex(table, indexes[names[i]])];
    }
    assert names[..|names|] == names;
  }

  method EmitForeignKeyDrops(table: string, names: seq<string>) returns (ops: Operations)
    ensures ops == ForeignKeyDrops(table, names)
  {
    ops := [];
    for i := 0 to |names|
      invariant ops == ForeignKeyDrops(table, names[..i])
    {
      assert names[..i + 1][..i] == names[..i];
      ops := ops + [DropForeignKey(table, names[i])];
    }
    assert names[..|names|] == names;
  }

  method EmitForeignKeyAdds(table: string, names: seq<string>, fks: map<string, ForeignKey>) returns (ops: Operations)
    requires forall k :: k in names ==> k in fks
    ensures ops == ForeignKeyAdds(table, names, fks)
  {
    ops := [];
    for i := 0 to |names|
      invariant ops == ForeignKeyAdds(table, names[..i], fks)
    {
      assert names[..i + 1][..i] == names[..i];
      ops := ops + [AddForeignKey(table, fks[names[i]])];
    }
    assert names[..|names|] == names;
  }

  method EmitTableDrops(names: seq<string>) returns (ops: Operations)
    ensures ops == TableDrops(names)
  {
    ops := [];
    for i := 0 to |names|
      invariant ops == TableDrops(names[..i])
    {
      assert names[..i + 1][..i] == names[..i];
      ops := ops + [DropTable(names[i])];
    }
    assert names[..|names|] == names;
  }

  method EmitExtensionDrops(names: seq<string>) returns (ops: Operations)
    ensures ops == ExtensionDrops(names)
  {
    ops := [];
    for i := 0 to |names|
      invariant ops == ExtensionDrops(names[..i])
    {
      assert names[..i + 1][..i] == names[..i];
      ops := ops + [DropExtension(names[i])];
    }
    assert names[..|names|] == names;
  }

  method EmitExtensionCreates(names: seq<string>) returns (ops: Operations)
    ensures ops == ExtensionCreates(names)
  {
    ops := [];
    for i := 0 to |names|
      invariant ops == ExtensionCreates(names[..i])
    {
      assert names[..i + 1][..i] == names[..i];
      ops := ops + [CreateExtension(names[i])];
    }
    assert names[..|names|] == names;
  }

  method EmitSharedColumns(table: string, names: seq<string>, p: map<string, Column>, n: map<string, Column>)
    returns (ops: Operations)
    requires forall c :: c in names ==> c in p && c in n
    ensures ops == SharedColumnOps(table, names, p, n)
  {
    ops := [];
    for i := 0 to |names|
      invariant ops == SharedColumnOps(table, names[..i], p, n)
    {
      assert names[..i + 1][..i] == names[..i];
      var columnOps := DiffColumn(table, p[names[i]], n[names[i]]);
      ops := ops + columnOps;
    }
    assert names[..|names|] == names;
  }

  method DiffColumns(p: Table, n: Table) returns (ops: Operations)
    requires p.name == n.name
    ensures ops == ColumnListOps(p.name, Columns(p), Columns(n))
  {
    var prevMap := CollectColumns(p.columns);
    var nextMap := CollectColumns(n.columns);
    var dropCols := CollectMissing(prevMap.Keys, nextMap.Keys, {});
    var shared := CollectShared(prevMap.Keys, nextMap.Keys);
    ops := EmitSharedColumns(p.name, shared, prevMap, nextMap);
    var addCols := CollectMissing(nextMap.Keys, prevMap.Keys, {});
    var adds := EmitColumnAdds(n.name, addCols, nextMap);
    var drops := EmitColumnDrops(p.name, dropCols);
    ops := ops + adds + drops;
  }

  // Indexes and foreign keys: a changed one is dropped and added again.

  ghost function Changed<T>(a: map<string, T>, b: map<string, T>): set<string> {
    set x | x in a && (x !in b || a[x] != b[x])
  }

  method DiffIndexes(table: string, p: seq<Index>, n: seq<Index>) returns (drops: Operations, adds: Operations)
    ensures drops == IndexDrops(Sorted({}, Changed(IndexesByName(p), IndexesByName(n))))
    ensures adds == IndexAdds(table, Sorted({}, Changed(IndexesByName(n), IndexesByName(p))), IndexesByName(n))
  {
    var prevMap := CollectIndexes(p);
    var nextMap := CollectIndexes(n);
    var dropNames := CollectChanged(prevMap, nextMap);
    drops := EmitIndexDrops(dropNames);
    var addNames := CollectChanged(nextMap, prevMap);
    adds := EmitIndexAdds(table, addNames, nextMap);
  }

  method DiffForeignKeys(p: seq<ForeignKey>, n: seq<ForeignKey>, table: string)
    returns (drops: Operations, adds: Operations)
    ensures drops == ForeignKeyDrops(table, Sorted({}, Changed(ForeignKeysByName(p), ForeignKeysByName(n))))
    ensures adds
      == ForeignKeyAdds(table, Sorted({}, Changed(ForeignKeysByName(n), ForeignKeysByName(p))), ForeignKeysByName(n))
  {
    var prevMap := CollectForeignKeys(p);
    var nextMap := CollectForeignKeys(n);
    var dropNames := CollectChanged(prevMap, nextMap);
    drops := EmitForeignKeyDrops(table, dropNames);
    var addNames := CollectChanged(nextMap, prevMap);
    adds := EmitForeignKeyAdds(table, addNames, nextMap);
  }

  // Tables

  function HypertableOps(p: Table, n: Table): Operations {
    if p.hypertableColumn == n.hypertableColumn then []
    else
      (if p.hypertableColumn != "" then [DropHypertable(n.name)] else [])
      + (if n.hypertableColumn != "" then [CreateHypertable(n.name, n.hypertableColumn)] else [])
  }

  method DiffHypertable(p: Table, n: Table) returns (ops: Operations)
    ensures ops == HypertableOps(p, n)
  {
    ops := [];
    if p.hypertableColumn == n.hypertableColumn {
      return;
    }
    if p.hypertableColumn != "" {
      ops := ops + [DropHypertable(n.name)];
    }
    if n.hypertableColumn != "" {
      ops := ops + [CreateHypertable(n.name, n.hypertableColumn)];
    }
  }

  function NewTableOps(t: Table): Operations {
    [CreateTable(t.name, t.columns, t.primaryKey)]
    + IndexCreates(t.name, t.indexes)
    + ForeignKeyCreates(t.name, t.foreignKeys)
    + (if t.hypertableColumn != "" then [CreateHypertable(t.name, t.hypertableColumn)] else [])
  }

  method CreateTableOps(t: Table) returns (ops: Operations)
    ensures ops == NewTableOps(t)
  {
    ops := [CreateTable(t.name, t.columns, t.primaryKey)];
    for i := 0 to |t.indexes|
      invariant ops == [CreateTable(t.name, t.columns, t.primaryKey)] + IndexCreates(t.name, t.indexes[..i])
    {
      assert t.indexes[..i + 1][..i] == t.indexes[..i];
      ops := ops + [AddIndex(t.name, t.indexes[i])];
    }
    assert t.indexes[..|t.indexes|] == t.indexes;
    ghost var withIndexes := ops;
    for i := 0 to |t.foreignKeys|
      invariant ops == withIndexes + ForeignKeyCreates(t.name, t.foreignKeys[..i])
    {
      assert t.foreignKeys[..i + 1][..i] == t.foreignKeys[..i];
      ops := ops + [AddForeignKey(t.name, WithoutActions(t.foreignKeys[i]))];
    }
    assert t.foreignKeys[..|t.foreignKeys|] == t.foreignKeys;
    if t.hypertableColumn != "" {
      ops := ops + [CreateHypertable(t.name, t.hypertableColumn)];
    }
  }

  /** The statements for a table that keeps its name: drops and columns, ... */
  ghost function DropAndColumnOps(p: Table, n: Table): Operations {
    IndexDrops(Sorted({}, Changed(Indexes(p), Indexes(n))))
    + ForeignKeyDrops(n.name, Sorted({}, Changed(ForeignKeys(p), ForeignKeys(n))))
    + ColumnListOps(p.name, Columns(p), Columns(n))
  }

  /** ... the new indexes, ... */
  ghost function TableIndexOps(p: Table, n: Table): Operations {
    IndexAdds(n.name, Sorted({}, Changed(Indexes(n), Indexes(p))), Indexes(n))
  }

  /** ... the new foreign keys ... */
  ghost function TableFkOps(p: Table, n: Table): Operations {
    ForeignKeyAdds(n.name, Sorted({}, Changed(ForeignKeys(n), ForeignKeys(p))), ForeignKeys(n))
  }

  /** ... and the whole list, with the hypertable conversion last. */
  ghost function SharedTableOps(p: Table, n: Table): Operations {
    DropAndColumnOps(p, n) + TableIndexOps(p, n) + TableFkOps(p, n) + HypertableOps(p, n)
  }

  method DiffTable(p: Table, n: Table) returns (ops: Operations)
    ensures p.name != n.name ==> ops == [DropTable(p.name)] + NewTableOps(n)
    ensures p.name == n.name ==> ops == SharedTableOps(p, n)
  {
    if p.name != n.name {
      var creates := CreateTableOps(n);
      return [DropTable(p.name)] + creates;
    }
    var dropIndexes, addIndexes := DiffIndexes(n.name, p.indexes, n.indexes);
    ops := dropIndexes;
    var dropFKs, addFKs := DiffForeignKeys(p.foreignKeys, n.foreignKeys, n.name);
    ops := ops + dropFKs;
    var columnOps := DiffColumns(p, n);
    ops := ops + columnOps;
    ops := ops + addIndexes;
    ops := ops + addFKs;
    var hypertableOps := DiffHypertable(p, n);
    ops := ops + hypertableOps;
  }

  ghost function SharedOps(names: seq<string>, p: map<string, Table>, n: map<string, Table>): Operations
    requires forall t :: t in names ==> t in p && t in n
  {
    if names == [] then []
    else
      var t := names[|names| - 1];
      SharedOps(names[..|names| - 1], p, n) + SharedTableOps(p[t], n[t])
  }

  function NewOps(names: seq<string>, n: map<string, Table>): Operations
    requires forall t :: t in names ==> t in n
  {
    if names == [] then [] else NewOps(names[..|names| - 1], n) + NewTableOps(n[names[|names| - 1]])
  }

  ghost function Joins(m: map<string, Table>): set<string> {
    set t | t in m && m[t].isJoinTable
  }

  /** Dropped tables, then changed tables by name, then new tables; join tables go last
      among the dropped and among the new ones. */
  ghost function TableListOps(p: map<string, Table>, n: map<string, Table>): Operations {
    TableDrops(Sorted(Joins(p), p.Keys - n.Keys))
    + SharedOps(Sorted({}, p.Keys * n.Keys), p, n)
    + NewOps(Sorted(Joins(n), n.Keys - p.Keys), n)
  }

  lemma SharedOpsSnoc(names: seq<string>, i: nat, p: map<string, Table>, n: map<string, Table>)
    requires i < |names| && forall t :: t in names ==> t in p && t in n
    ensures SharedOps(names[..i + 1], p, n) == SharedOps(names[..i], p, n) + SharedTableOps(p[names[i]], n[names[i]])
  {
    assert names[..i + 1][..i] == names[..i];
    assert names[..i + 1][i] == names[i];
  }

  method EmitSharedTables(names: seq<string>, p: map<string, Table>, n: map<string, Table>) returns (ops: Operations)
    requires forall t :: t in names ==> t in p && t in n && p[t].name == t && n[t].name == t
    ensures ops == SharedOps(names, p, n)
  {
    ops := [];
    for i := 0 to |names|
      invariant ops == SharedOps(names[..i], p, n)
    {
      SharedOpsSnoc(names, i, p, n);
      var tableOps := DiffTable(p[names[i]], n[names[i]]);
      ops := ops + tableOps;
    }
    assert names[..|names|] == names;
  }

  method EmitNewTables(names: seq<string>, n: map<string, Table>) returns (ops: Operations)
    requires forall t :: t in names ==> t in n
    ensures ops == NewOps(names, n)
  {
    ops := [];
    for i := 0 to |names|
      invariant ops == NewOps(names[..i], n)
    {
      assert names[..i + 1][..i] == names[..i];
      var tableOps := CreateTableOps(n[names[i]]);
      ops := ops + tableOps;
    }
    assert names[..|names|] == names;
  }

  method DiffTables(p: seq<Table>, n: seq<Table>) returns (ops: Operations)
    ensures ops == TableListOps(TablesByName(p), TablesByName(n))
  {
    var prevMap := CollectTables(p);
    var nextMap := CollectTables(n);
    TableKeys(p);
    TableKeys(n);
    var prevJoins := set t | t in prevMap && prevMap[t].isJoinTable;
    var dropNames := CollectMissing(prevMap.Keys, nextMap.Keys, prevJoins);
    ops := EmitTableDrops(dropNames);
    var modifyNames := CollectShared(prevMap.Keys, nextMap.Keys);
    var shared := EmitSharedTables(modifyNames, prevMap, nextMap);
    var nextJoins := set t | t in nextMap && nextMap[t].isJoinTable;
    var addNames := CollectMissing(nextMap.Keys, prevMap.Keys, nextJoins);
    var creates := EmitNewTables(addNames, nextMap);
    ops := ops + shared + creates;
  }

  ghost function ExtensionOps(p: set<string>, n: set<string>): Operations {
    ExtensionDrops(Sorted({}, p - n)) + ExtensionCreates(Sorted({}, n - p))
  }

  method DiffExtensions(p: seq<string>, n: seq<string>) returns (ops: Operations)
    ensures ops == ExtensionOps(set e | e in p, set e | e in n)
  {
    var prevSet, nextSet := {}, {};
    for i := 0 to |p|
      invariant prevSet == set e | e in p[..i]
    {
      prevSet := prevSet + {p[i]};
    }
    for i := 0 to |n|
      invariant nextSet == set e | e in n[..i]
    {
      nextSet := nextSet + {n[i]};
    }
    assert p[..|p|] == p && n[..|n|] == n;
    var drops := CollectMissing(prevSet, nextSet, {});
    ops := EmitExtensionDrops(drops);
    var adds := CollectMissing(nextSet, prevSet, {});
    var creates := EmitExtensionCreates(adds);
    ops := ops + creates;
  }

  ghost function SchemaOps(p: Schema, n: Schema): Operations {
    ExtensionOps(set e | e in p.extensions, set e | e in n.extensions) + TableListOps(Tables(p), Tables(n))
  }

  method DiffSchema(p: Schema, n: Schema) returns (ops: Operations)
    ensures ops == SchemaOps(p, n)
  {
    var extensionOps := DiffExtensions(p.extensions, n.extensions);
    var tableOps := DiffTables(p.tables, n.tables);
    ops := extensionOps + tableOps;
  }

  // Ordering for the migration (generator/migrations.go)

  function Immediate(ops: Operations): Operations {
    if ops == [] then []
    else Immediate(ops[..|ops| - 1]) + (if ops[|ops| - 1].AddForeignKey? then [] else [ops[|ops| - 1]])
  }

  function Deferred(ops: Operations): Operations {
    if ops == [] then []
    else Deferred(ops[..|ops| - 1]) + (if ops[|ops| - 1].AddForeignKey? then [ops[|ops| - 1]] else [])
  }

  method OrderMigrationOperations(ops: Operations) returns (r: Operations)
    ensures r == Immediate(ops) + Deferred(ops)
  {
    if |ops| <= 1 {
      assert |ops| == 1 ==> ops[..0] == [];
      return ops;
    }
    var ordered: Operations, deferred: Operations := [], [];
    for i := 0 to |ops|
      invariant ordered == Immediate(ops[..i]) && deferred == Deferred(ops[..i])
    {
      assert ops[..i + 1][..i] == ops[..i];
      if ops[i].AddForeignKey? {
        deferred := deferred + [ops[i]];
        continue;
      }
      ordered := ordered + [ops[i]];
    }
    assert ops[..|ops|] == ops;
    if |deferred| == 0 {
      return ordered;
    }
    return ordered + deferred;
  }
}
