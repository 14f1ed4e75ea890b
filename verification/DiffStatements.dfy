/** Which statements the differ emits (generator/schema_diff.go), in the words of the two snapshots. */
module DiffStatements {
  import opened Names
  import opened Results
  import opened SchemaSnapshot
  import opened Database
  import opened SchemaDiff
  import opened PatchPhases
  import opened TablePatch
  import opened Migration
  import opened MigrationResult

  // One column

  /** The DEFAULT clause of a column definition that is not generated. */
  ghost predicate HasDefault(col: Column, expr: string) {
    expr == (if col.defaultNow then "now()" else col.defaultExpr) && expr != ""
  }

  ghost predicate SameDefault(o: Column, col: Column) {
    forall expr :: HasDefault(o, expr) <==> HasDefault(col, expr)
  }

  /** A statement for a column that both tables have and that is not made anew. */
  ghost predicate ColumnStatement(t: string, o: Column, col: Column, op: Operation) {
    && o.generatedExpr == "" && col.generatedExpr == "" && !o.readOnly && !col.readOnly
    && match op
      case AlterType(table, c, typ) => table == t && c == col.name && typ == col.typ != o.typ
      case AlterNullable(table, c, nullable) => table == t && c == col.name && nullable == col.nullable != o.nullable
      case SetDefault(table, c, expr) => table == t && c == col.name && HasDefault(col, expr) && !HasDefault(o, expr)
      case DropDefault(table, c) =>
        table == t && c == col.name && (exists expr :: HasDefault(o, expr)) && !exists expr :: HasDefault(col, expr)
      case DropCheck(table, c) => table == t && c == col.name && o.enumValues != [] && o.enumValues != col.enumValues
      case AddCheck(table, c, values) =>
        table == t && c == col.name && values == col.enumValues != [] && col.enumValues != o.enumValues
      case _ => false
  }

  lemma DefaultOf(col: Column)
    requires col.generatedExpr == ""
    ensures ColumnDefault(col).None? <==> forall expr :: !HasDefault(col, expr)
    ensures forall expr :: HasDefault(col, expr) <==> ColumnDefault(col) == Some(expr)
  {
    assert HasDefault(col, "now()") || !col.defaultNow;
    assert HasDefault(col, col.defaultExpr) || col.defaultNow || col.defaultExpr == "";
  }

  lemma TypeOpsAre(t: string, o: Column, col: Column, op: Operation)
    requires o.name == col.name
    ensures op in TypeOps(t, o, col) <==>
      op.AlterType? && op.table == t && op.column == col.name && op.typ == col.typ != o.typ
    ensures op in NullOps(t, o, col) <==>
      op.AlterNullable? && op.table == t && op.column == col.name && op.nullable == col.nullable != o.nullable
  {
  }

  lemma DefaultOpsAre(t: string, o: Column, col: Column, op: Operation)
    requires o.name == col.name && o.generatedExpr == "" && col.generatedExpr == ""
    ensures op in DefaultOps(t, o, col) <==>
      || (op.SetDefault? && op.table == t && op.column == col.name && HasDefault(col, op.expr)
        && !HasDefault(o, op.expr))
      || (op.DropDefault? && op.table == t && op.column == col.name
        && (exists expr :: HasDefault(o, expr)) && !exists expr :: HasDefault(col, expr))
  {
    DefaultOf(o);
    DefaultOf(col);
    hide HasDefault, ColumnDefault;
    if ColumnDefault(o).Some? { assert HasDefault(o, ColumnDefault(o).value); }
    if ColumnDefault(col).Some? { assert HasDefault(col, ColumnDefault(col).value); }
  }

  lemma CheckOpsAre(t: string, o: Column, col: Column, op: Operation)
    requires o.name == col.name
    ensures op in CheckOps(t, o, col) <==>
      || (op.DropCheck? && op.table == t && op.column == col.name && o.enumValues != []
        && o.enumValues != col.enumValues)
      || (op.AddCheck? && op.table == t && op.column == col.name && op.values == col.enumValues != []
        && col.enumValues != o.enumValues)
  {
  }

  lemma ColumnOpsAre(t: string, o: Column, col: Column, op: Operation)
    requires o.name == col.name && !Regenerated(o, col)
    ensures op in ColumnOps(t, o, col) <==> ColumnStatement(t, o, col, op)
  {
    TypeOpsAre(t, o, col, op);
    CheckOpsAre(t, o, col, op);
    if o.generatedExpr == "" && col.generatedExpr == "" { DefaultOpsAre(t, o, col, op); }
    hide TypeOps, NullOps, DefaultOps, CheckOps, HasDefault;
  }

  // Lists with one statement for each name

  lemma {:induction false} SharedColumnOpsAre(t: string, names: seq<string>, P: ColumnMap, N: ColumnMap, op: Operation)
    requires forall c :: c in names ==> c in P && c in N
    ensures op in SharedColumnOps(t, names, P, N) <==> exists c :: c in names && op in ColumnOps(t, P[c], N[c])
  {
    hide ColumnOps;
    if names != [] {
      var init, c := names[..|names| - 1], names[|names| - 1];
      assert names == init + [c];
      SharedColumnOpsAre(t, init, P, N, op);
    }
  }

  lemma {:induction false} ColumnAddsAre(t: string, names: seq<string>, N: ColumnMap, op: Operation)
    requires forall c :: c in names ==> c in N
    ensures op in ColumnAdds(t, names, N) <==> exists c :: c in names && op == AddColumn(t, N[c])
  {
    if names != [] {
      assert names == names[..|names| - 1] + [names[|names| - 1]];
      ColumnAddsAre(t, names[..|names| - 1], N, op);
    }
  }

  lemma {:induction false} ColumnDropsAre(t: string, names: seq<string>, op: Operation)
    ensures op in ColumnDrops(t, names) <==> exists c :: c in names && op == DropColumn(t, c)
  {
    if names != [] {
      assert names == names[..|names| - 1] + [names[|names| - 1]];
      ColumnDropsAre(t, names[..|names| - 1], op);
    }
  }

  lemma {:induction false} IndexDropsAre(names: seq<string>, op: Operation)
    ensures op in IndexDrops(names) <==> op.DropIndex? && op.index in names
  {
    if names != [] {
      assert names == names[..|names| - 1] + [names[|names| - 1]];
      IndexDropsAre(names[..|names| - 1], op);
    }
  }

  lemma {:induction false} IndexAddsAre(t: string, names: seq<string>, indexes: map<string, Index>, op: Operation)
    requires forall i :: i in names ==> i in indexes
    ensures op in IndexAdds(t, names, indexes) <==> exists i :: i in names && op == AddIndex(t, indexes[i])
  {
    if names != [] {
      assert names == names[..|names| - 1] + [names[|names| - 1]];
      IndexAddsAre(t, names[..|names| - 1], indexes, op);
    }
  }

  lemma {:induction false} KeyDropsAre(t: string, names: seq<string>, op: Operation)
    ensures op in ForeignKeyDrops(t, names) <==> op.DropForeignKey? && op.table == t && op.constraint in names
  {
    if names != [] {
      assert names == names[..|names| - 1] + [names[|names| - 1]];
      KeyDropsAre(t, names[..|names| - 1], op);
    }
  }

  lemma {:induction false} KeyAddsAre(t: string, names: seq<string>, fks: map<string, ForeignKey>, op: Operation)
    requires forall k :: k in names ==> k in fks
    ensures op in ForeignKeyAdds(t, names, fks) <==> exists k :: k in names && op == AddForeignKey(t, fks[k])
  {
    if names != [] {
      assert names == names[..|names| - 1] + [names[|names| - 1]];
      KeyAddsAre(t, names[..|names| - 1], fks, op);
    }
  }

  lemma {:induction false} IndexCreatesAre(t: string, indexes: seq<Index>, op: Operation)
    ensures op in IndexCreates(t, indexes) <==> op.AddIndex? && op.table == t && op.idx in indexes
  {
    if indexes != [] {
      assert indexes == indexes[..|indexes| - 1] + [indexes[|indexes| - 1]];
      IndexCreatesAre(t, indexes[..|indexes| - 1], op);
    }
  }

  lemma {:induction false} KeyCreatesAre(t: string, fks: seq<ForeignKey>, op: Operation)
    ensures op in ForeignKeyCreates(t, fks) <==>
      op.AddForeignKey? && op.table == t && exists fk :: fk in fks && op.fk == fk.(onDelete := "", onUpdate := "")
  {
    if fks != [] {
      assert fks == fks[..|fks| - 1] + [fks[|fks| - 1]];
      KeyCreatesAre(t, fks[..|fks| - 1], op);
    }
  }

  // One table

  /** A statement for a table in both snapshots. */
  ghost predicate SharedStatement(p: Table, n: Table, op: Operation) {
    var t, P, N := n.name, Columns(p), Columns(n);
    match op
    case AddColumn(table, def) =>
      table == t && def.name in N && def == N[def.name] && (def.name !in P || Drops(p, n, def.name))
    case DropColumn(table, c) => table == t && Drops(p, n, c)
    case AddIndex(table, idx) =>
      && table == t && idx.name in Indexes(n) && idx == Indexes(n)[idx.name]
      && (idx.name !in Indexes(p) || Indexes(p)[idx.name] != idx)
    case DropIndex(i) => i in Indexes(p) && (i !in Indexes(n) || Indexes(n)[i] != Indexes(p)[i])
    case AddForeignKey(table, fk) =>
      && table == t && fk.constraint in ForeignKeys(n) && fk == ForeignKeys(n)[fk.constraint]
      && (fk.constraint !in ForeignKeys(p) || ForeignKeys(p)[fk.constraint] != fk)
    case DropForeignKey(table, k) =>
      table == t && k in ForeignKeys(p) && (k !in ForeignKeys(n) || ForeignKeys(n)[k] != ForeignKeys(p)[k])
    case CreateHypertable(table, c) => table == t && c == n.hypertableColumn != "" && c != p.hypertableColumn
    case DropHypertable(table) => table == t && p.hypertableColumn != "" && p.hypertableColumn != n.hypertableColumn
    case _ => exists c :: c in P && c in N && ColumnStatement(t, P[c], N[c], op)
  }

  lemma {:induction false} ColumnListAre(p: Table, n: Table, op: Operation)
    requires p.name == n.name && NamedByKey(Columns(p)) && NamedByKey(Columns(n))
    ensures op in ColumnListOps(p.name, Columns(p), Columns(n)) <==>
      match op
      case AddColumn(table, def) =>
        table == n.name && def.name in Columns(n) && def == Columns(n)[def.name]
        && (def.name !in Columns(p) || Drops(p, n, def.name))
      case DropColumn(table, c) => table == n.name && Drops(p, n, c)
      case _ =>
        exists c :: c in Columns(p) && c in Columns(n) && ColumnStatement(n.name, Columns(p)[c], Columns(n)[c], op)
  {
    var P, N, t := Columns(p), Columns(n), p.name;
    ColumnListParts(t, P, N, op);
    forall c | c in P && c in N
      ensures op in ColumnOps(t, P[c], N[c]) <==>
        if Regenerated(P[c], N[c]) then op == DropColumn(t, c) || op == AddColumn(t, N[c])
        else ColumnStatement(t, P[c], N[c], op)
    {
      if !Regenerated(P[c], N[c]) { ColumnOpsAre(t, P[c], N[c], op); }
    }
    forall c | c in P && c in N ensures Drops(p, n, c) <==> Regenerated(P[c], N[c]) {}
    hide ColumnOps, Columns, ColumnListOps, Regenerated, HasDefault;
  }

  lemma ColumnListParts(t: string, P: ColumnMap, N: ColumnMap, op: Operation)
    ensures op in ColumnListOps(t, P, N) <==>
      || (exists c :: c in P && c in N && op in ColumnOps(t, P[c], N[c]))
      || (exists c :: c in N && c !in P && op == AddColumn(t, N[c]))
      || (exists c :: c in P && c !in N && op == DropColumn(t, c))
  {
    var shared, new_, gone := Sorted({}, P.Keys * N.Keys), Sorted({}, N.Keys - P.Keys), Sorted({}, P.Keys - N.Keys);
    SharedColumnOpsAre(t, shared, P, N, op);
    ColumnAddsAre(t, new_, N, op);
    ColumnDropsAre(t, gone, op);
    hide SharedColumnOps, ColumnAdds, ColumnDrops, ColumnOps;
  }

  lemma SharedParts(p: Table, n: Table, op: Operation)
    ensures op in SharedTableOps(p, n) <==>
      || op in IndexDrops(Sorted({}, Changed(Indexes(p), Indexes(n))))
      || op in ForeignKeyDrops(n.name, Sorted({}, Changed(ForeignKeys(p), ForeignKeys(n))))
      || op in ColumnListOps(p.name, Columns(p), Columns(n))
      || op in IndexAdds(n.name, Sorted({}, Changed(Indexes(n), Indexes(p))), Indexes(n))
      || op in ForeignKeyAdds(n.name, Sorted({}, Changed(ForeignKeys(n), ForeignKeys(p))), ForeignKeys(n))
      || op in HypertableOps(p, n)
  {
    hide IndexDrops, ForeignKeyDrops, ColumnListOps, IndexAdds, ForeignKeyAdds, HypertableOps;
  }

  ghost predicate Keyed(t: Table) {
    && NamedByKey(Columns(t)) && (forall i :: i in Indexes(t) ==> Indexes(t)[i].name == i)
    && forall k :: k in ForeignKeys(t) ==> ForeignKeys(t)[k].constraint == k
  }

  lemma AlwaysKeyed(t: Table)
    ensures Keyed(t)
  {
    ColumnKeys(t.columns);
    IndexKeys(t.indexes);
    ForeignKeyKeys(t.foreignKeys);
  }

  lemma IndexPartsAre(p: Table, n: Table, op: Operation)
    ensures op in IndexDrops(Sorted({}, Changed(Indexes(p), Indexes(n)))) <==>
      && op.DropIndex? && op.index in Indexes(p)
      && (op.index !in Indexes(n) || Indexes(n)[op.index] != Indexes(p)[op.index])
    ensures op in IndexAdds(n.name, Sorted({}, Changed(Indexes(n), Indexes(p))), Indexes(n)) <==>
      && op.AddIndex? && op.table == n.name && op.idx.name in Indexes(n) && op.idx == Indexes(n)[op.idx.name]
      && (op.idx.name !in Indexes(p) || Indexes(p)[op.idx.name] != op.idx)
  {
    AlwaysKeyed(n);
    IndexDropsAre(Sorted({}, Changed(Indexes(p), Indexes(n))), op);
    IndexAddsAre(n.name, Sorted({}, Changed(Indexes(n), Indexes(p))), Indexes(n), op);
    hide IndexDrops, IndexAdds, Indexes;
  }

  lemma KeyPartsAre(p: Table, n: Table, op: Operation)
    ensures op in ForeignKeyDrops(n.name, Sorted({}, Changed(ForeignKeys(p), ForeignKeys(n)))) <==>
      && op.DropForeignKey? && op.table == n.name && op.constraint in ForeignKeys(p)
      && (op.constraint !in ForeignKeys(n) || ForeignKeys(n)[op.constraint] != ForeignKeys(p)[op.constraint])
    ensures op in ForeignKeyAdds(n.name, Sorted({}, Changed(ForeignKeys(n), ForeignKeys(p))), ForeignKeys(n)) <==>
      && op.AddForeignKey? && op.table == n.name && op.fk.constraint in ForeignKeys(n)
      && op.fk == ForeignKeys(n)[op.fk.constraint]
      && (op.fk.constraint !in ForeignKeys(p) || ForeignKeys(p)[op.fk.constraint] != op.fk)
  {
    AlwaysKeyed(n);
    KeyDropsAre(n.name, Sorted({}, Changed(ForeignKeys(p), ForeignKeys(n))), op);
    KeyAddsAre(n.name, Sorted({}, Changed(ForeignKeys(n), ForeignKeys(p))), ForeignKeys(n), op);
    hide ForeignKeyDrops, ForeignKeyAdds, ForeignKeys;
  }

  lemma HypertablePartAre(p: Table, n: Table, op: Operation)
    ensures op in HypertableOps(p, n) <==>
      || (op.CreateHypertable? && op.table == n.name && op.column == n.hypertableColumn != ""
        && op.column != p.hypertableColumn)
      || (op.DropHypertable? && op.table == n.name && p.hypertableColumn != ""
        && p.hypertableColumn != n.hypertableColumn)
  {
  }

  lemma SharedTableAre(p: Table, n: Table, op: Operation)
    requires p.name == n.name
    ensures op in SharedTableOps(p, n) <==> SharedStatement(p, n, op)
  {
    AlwaysKeyed(p);
    AlwaysKeyed(n);
    hide SharedTableOps, IndexDrops, ForeignKeyDrops, ColumnListOps, IndexAdds, ForeignKeyAdds, HypertableOps;
    hide Columns, Indexes, ForeignKeys, Drops, ColumnStatement, NamedByKey, Changed;
    SharedParts(p, n, op);
    IndexPartsAre(p, n, op);
    KeyPartsAre(p, n, op);
    ColumnListAre(p, n, op);
    HypertablePartAre(p, n, op);
    NotOfColumns(p, n, op);
  }

  lemma NotOfColumns(p: Table, n: Table, op: Operation)
    requires p.name == n.name && NamedByKey(Columns(p)) && NamedByKey(Columns(n))
    ensures op.DropIndex? || op.AddIndex? ==> op !in ColumnListOps(p.name, Columns(p), Columns(n))
    ensures op.DropForeignKey? || op.AddForeignKey? ==> op !in ColumnListOps(p.name, Columns(p), Columns(n))
    ensures op.CreateHypertable? || op.DropHypertable? ==> op !in ColumnListOps(p.name, Columns(p), Columns(n))
  {
    ColumnListAre(p, n, op);
    hide ColumnListOps, Columns, Drops;
  }

  /** A statement for a new table. */
  ghost predicate NewStatement(n: Table, op: Operation) {
    match op
    case CreateTable(table, columns, key) => table == n.name && columns == n.columns && key == n.primaryKey
    case AddIndex(table, idx) => table == n.name && idx in n.indexes
    case AddForeignKey(table, fk) =>
      table == n.name && exists f :: f in n.foreignKeys && fk == f.(onDelete := "", onUpdate := "")
    case CreateHypertable(table, c) => table == n.name && c == n.hypertableColumn != ""
    case _ => false
  }

  lemma NewTableAre(n: Table, op: Operation)
    ensures op in NewTableOps(n) <==> NewStatement(n, op)
  {
    IndexCreatesAre(n.name, n.indexes, op);
    KeyCreatesAre(n.name, n.foreignKeys, op);
    hide IndexCreates, ForeignKeyCreates;
  }

  // The whole diff

  lemma {:induction false} SharedOpsAre(names: seq<string>, P: TableMap, N: TableMap, op: Operation)
    requires forall t :: t in names ==> t in P && t in N
    ensures op in SharedOps(names, P, N) <==> exists t :: t in names && op in SharedTableOps(P[t], N[t])
  {
    hide SharedTableOps;
    if names != [] {
      assert names == names[..|names| - 1] + [names[|names| - 1]];
      SharedOpsAre(names[..|names| - 1], P, N, op);
    }
  }

  lemma {:induction false} NewOpsAre(names: seq<string>, N: TableMap, op: Operation)
    requires forall t :: t in names ==> t in N
    ensures op in NewOps(names, N) <==> exists t :: t in names && op in NewTableOps(N[t])
  {
    hide NewTableOps;
    if names != [] {
      assert names == names[..|names| - 1] + [names[|names| - 1]];
      NewOpsAre(names[..|names| - 1], N, op);
    }
  }

  lemma {:induction false} TableDropsAre(names: seq<string>, op: Operation)
    ensures op in TableDrops(names) <==> op.DropTable? && op.table in names
  {
    if names != [] {
      assert names == names[..|names| - 1] + [names[|names| - 1]];
      TableDropsAre(names[..|names| - 1], op);
    }
  }

  lemma {:induction false} ExtensionDropsAre(names: seq<string>, op: Operation)
    ensures op in ExtensionDrops(names) <==> op.DropExtension? && op.ext in names
  {
    if names != [] {
      assert names == names[..|names| - 1] + [names[|names| - 1]];
      ExtensionDropsAre(names[..|names| - 1], op);
    }
  }

  lemma {:induction false} ExtensionCreatesAre(names: seq<string>, op: Operation)
    ensures op in ExtensionCreates(names) <==> op.CreateExtension? && op.ext in names
  {
    if names != [] {
      assert names == names[..|names| - 1] + [names[|names| - 1]];
      ExtensionCreatesAre(names[..|names| - 1], op);
    }
  }

  /** A statement that leads from one snapshot to the next. */
  ghost predicate Statement(p: Schema, n: Schema, op: Operation) {
    var P, N := Tables(p), Tables(n);
    || (op.DropExtension? && op.ext in p.extensions && op.ext !in n.extensions)
    || (op.CreateExtension? && op.ext in n.extensions && op.ext !in p.extensions)
    || (op.DropTable? && op.table in P && op.table !in N)
    || (exists t :: t in P && t in N && SharedStatement(P[t], N[t], op))
    || (exists t :: t in N && t !in P && NewStatement(N[t], op))
  }

  lemma TableListAre(p: Schema, n: Schema, op: Operation)
    ensures var P, N := Tables(p), Tables(n);
      op in TableListOps(P, N) <==>
        || (op.DropTable? && op.table in P && op.table !in N)
        || (exists t :: t in P && t in N && SharedStatement(P[t], N[t], op))
        || (exists t :: t in N && t !in P && NewStatement(N[t], op))
  {
    var P, N := Tables(p), Tables(n);
    TableKeys(p.tables);
    TableKeys(n.tables);
    var gone, shared, new_ :=
      Sorted(Joins(P), P.Keys - N.Keys), Sorted({}, P.Keys * N.Keys), Sorted(Joins(N), N.Keys - P.Keys);
    TableDropsAre(gone, op);
    SharedOpsAre(shared, P, N, op);
    NewOpsAre(new_, N, op);
    hide TableDrops, SharedOps, NewOps, SharedTableOps, NewTableOps, SharedStatement, NewStatement, Tables;
    forall t | t in P && t in N ensures op in SharedTableOps(P[t], N[t]) <==> SharedStatement(P[t], N[t], op) {
      SharedTableAre(P[t], N[t], op);
    }
    forall t | t in N ensures op in NewTableOps(N[t]) <==> NewStatement(N[t], op) {
      NewTableAre(N[t], op);
    }
  }

  /** The differ emits exactly these statements, for any two snapshots. */
  lemma {:induction false} DiffIsExact(p: Schema, n: Schema, op: Operation)
    ensures op in SchemaOps(p, n) <==> Statement(p, n, op)
  {
    var pe, ne := set e | e in p.extensions, set e | e in n.extensions;
    TableListAre(p, n, op);
    ExtensionDropsAre(Sorted({}, pe - ne), op);
    ExtensionCreatesAre(Sorted({}, ne - pe), op);
    hide TableListOps, ExtensionDrops, ExtensionCreates, SharedStatement, NewStatement, Tables;
  }

  lemma {:induction false} OrderedIsPermutation(ops: Operations)
    ensures multiset(Immediate(ops) + Deferred(ops)) == multiset(ops)
    ensures forall op :: op in Immediate(ops) ==> !op.AddForeignKey?
    ensures forall op :: op in Deferred(ops) ==> op.AddForeignKey?
  {
    if ops != [] {
      assert ops == ops[..|ops| - 1] + [ops[|ops| - 1]];
      OrderedIsPermutation(ops[..|ops| - 1]);
    }
  }

  // The order of tables

  /** The tables that a list of statements drops, and those that it creates, in its order. */
  function DroppedBy(ops: Operations): seq<string> {
    if ops == [] then []
    else
      var last := ops[|ops| - 1];
      DroppedBy(ops[..|ops| - 1]) + (if last.DropTable? then [last.table] else [])
  }

  function CreatedBy(ops: Operations): seq<string> {
    if ops == [] then []
    else
      var last := ops[|ops| - 1];
      CreatedBy(ops[..|ops| - 1]) + (if last.CreateTable? then [last.table] else [])
  }

  lemma {:induction false} TablesConcat(a: Operations, b: Operations)
    ensures DroppedBy(a + b) == DroppedBy(a) + DroppedBy(b) && CreatedBy(a + b) == CreatedBy(a) + CreatedBy(b)
  {
    if b == [] {
      assert a + b == a;
    } else {
      assert (a + b)[..|a + b| - 1] == a + b[..|b| - 1];
      TablesConcat(a, b[..|b| - 1]);
    }
  }

  lemma {:induction false} NoTables(ops: Operations)
    ensures (forall op :: op in ops ==> !op.DropTable?) ==> DroppedBy(ops) == []
    ensures (forall op :: op in ops ==> !op.CreateTable?) ==> CreatedBy(ops) == []
  {
    if ops != [] {
      assert ops == ops[..|ops| - 1] + [ops[|ops| - 1]];
      NoTables(ops[..|ops| - 1]);
    }
  }

  lemma {:induction false} TablesOfDrops(names: seq<string>)
    ensures DroppedBy(TableDrops(names)) == names && CreatedBy(TableDrops(names)) == []
  {
    if names != [] {
      TablesOfDrops(names[..|names| - 1]);
      assert names == names[..|names| - 1] + [names[|names| - 1]];
    }
  }

  lemma TablesOfNew(n: Table)
    ensures DroppedBy(NewTableOps(n)) == [] && CreatedBy(NewTableOps(n)) == [n.name]
  {
    var create := CreateTable(n.name, n.columns, n.primaryKey);
    var rest := IndexCreates(n.name, n.indexes) + ForeignKeyCreates(n.name, n.foreignKeys)
      + (if n.hypertableColumn != "" then [CreateHypertable(n.name, n.hypertableColumn)] else []);
    assert NewTableOps(n) == [create] + rest;
    TablesConcat([create], rest);
    assert [create][..0] == [];
    forall op | op in rest ensures !op.DropTable? && !op.CreateTable? {
      IndexCreatesAre(n.name, n.indexes, op);
      KeyCreatesAre(n.name, n.foreignKeys, op);
    }
    NoTables(rest);
    hide NewTableOps, IndexCreates, ForeignKeyCreates;
  }

  lemma {:induction false} TablesOfNewOps(names: seq<string>, N: TableMap)
    requires forall t :: t in names ==> t in N && N[t].name == t
    ensures DroppedBy(NewOps(names, N)) == [] && CreatedBy(NewOps(names, N)) == names
  {
    if names != [] {
      hide DroppedBy, CreatedBy, NewTableOps;
      var init, t := names[..|names| - 1], names[|names| - 1];
      TablesOfNewOps(init, N);
      TablesOfNew(N[t]);
      TablesConcat(NewOps(init, N), NewTableOps(N[t]));
      InitAndLast(names);
    }
  }

  lemma InitAndLast(names: seq<string>)
    requires names != []
    ensures names[..|names| - 1] + [names[|names| - 1]] == names
  {
  }

  lemma TablesOfOthers(p: Schema, n: Schema)
    ensures var P, N := Tables(p), Tables(n);
      var pe, ne := set e | e in p.extensions, set e | e in n.extensions;
      var shared := SharedOps(Sorted({}, P.Keys * N.Keys), P, N);
      && DroppedBy(ExtensionOps(pe, ne)) == [] && CreatedBy(ExtensionOps(pe, ne)) == []
      && DroppedBy(shared) == [] && CreatedBy(shared) == []
  {
    var P, N := Tables(p), Tables(n);
    var pe, ne := set e | e in p.extensions, set e | e in n.extensions;
    var names := Sorted({}, P.Keys * N.Keys);
    TableKeys(p.tables);
    TableKeys(n.tables);
    assert (forall t :: t in P ==> P[t].name == t) && forall t :: t in N ==> N[t].name == t;
    hide Tables, SharedTableOps, SharedOps, ExtensionDrops, ExtensionCreates, SharedStatement;
    forall op | op in ExtensionOps(pe, ne) ensures !op.DropTable? && !op.CreateTable? {
      ExtensionDropsAre(Sorted({}, pe - ne), op);
      ExtensionCreatesAre(Sorted({}, ne - pe), op);
    }
    NoTables(ExtensionOps(pe, ne));
    forall op | op in SharedOps(names, P, N) ensures !op.DropTable? && !op.CreateTable? {
      SharedOpsAre(names, P, N, op);
      var t :| t in names && op in SharedTableOps(P[t], N[t]);
      assert t in P && t in N;
      SharedTableAre(P[t], N[t], op);
      NoTableStatement(P[t], N[t], op);
    }
    NoTables(SharedOps(names, P, N));
  }

  lemma NoTableStatement(p: Table, n: Table, op: Operation)
    requires SharedStatement(p, n, op)
    ensures !op.DropTable? && !op.CreateTable?
  {
    hide Columns, Indexes, ForeignKeys, Drops;
  }

  /** Plain tables before join tables, and each kind by name. */
  ghost predicate JoinTablesLast(names: seq<string>, T: TableMap)
    requires forall t :: t in names ==> t in T
  {
    forall i, j :: 0 <= i < j < |names| ==>
      assert names[i] in names && names[j] in names;
      && (T[names[i]].isJoinTable ==> T[names[j]].isJoinTable)
      && (T[names[i]].isJoinTable == T[names[j]].isJoinTable ==> Lexicographic(names[i], names[j]))
  }

  lemma SortedJoinTablesLast(names: seq<string>, T: TableMap)
    requires (forall t :: t in names ==> t in T) && Ascending(Joins(T), names)
    ensures JoinTablesLast(names, T)
  {
    forall i, j | 0 <= i < j < |names|
      ensures names[i] in names && names[j] in names
      ensures T[names[i]].isJoinTable ==> T[names[j]].isJoinTable
      ensures T[names[i]].isJoinTable == T[names[j]].isJoinTable ==> Lexicographic(names[i], names[j])
    {
      LessIsLexicographic(names[i], names[j]);
      assert Before(Joins(T), names[i], names[j]);
      assert names[i] in names && names[j] in names;
    }
  }

  /** The tables that are gone are dropped and the new ones are created, each once, plain tables before
      join tables and each kind by name. */
  lemma {:induction false} TablesInOrder(p: Schema, n: Schema)
    ensures var P, N, ops := Tables(p), Tables(n), SchemaOps(p, n);
      && (forall t :: t in DroppedBy(ops) <==> t in P && t !in N)
      && (forall t :: t in CreatedBy(ops) <==> t in N && t !in P)
      && Distinct(DroppedBy(ops)) && JoinTablesLast(DroppedBy(ops), P)
      && Distinct(CreatedBy(ops)) && JoinTablesLast(CreatedBy(ops), N)
  {
    hide *;
    var P, N := Tables(p), Tables(n);
    TablesOfDiff(p, n);
    SortedJoinTablesLast(Sorted(Joins(P), P.Keys - N.Keys), P);
    SortedJoinTablesLast(Sorted(Joins(N), N.Keys - P.Keys), N);
  }

  lemma {:induction false} TablesOfDiff(p: Schema, n: Schema)
    ensures var P, N := Tables(p), Tables(n);
      var gone, new_ := Sorted(Joins(P), P.Keys - N.Keys), Sorted(Joins(N), N.Keys - P.Keys);
      && DroppedBy(SchemaOps(p, n)) == gone && CreatedBy(SchemaOps(p, n)) == new_
      && (forall t :: t in gone <==> t in P && t !in N) && (forall t :: t in new_ <==> t in N && t !in P)
      && Ascending(Joins(P), gone) && Ascending(Joins(N), new_)
  {
    var P, N := Tables(p), Tables(n);
    var gone, new_ := Sorted(Joins(P), P.Keys - N.Keys), Sorted(Joins(N), N.Keys - P.Keys);
    TableKeys(n.tables);
    assert forall t :: t in N ==> N[t].name == t;
    assert Ascending(Joins(P), gone) && Ascending(Joins(N), new_);
    hide SchemaOps, TableDrops, NewOps, SharedOps, ExtensionOps, Tables, Ascending, Joins, DroppedBy, CreatedBy;
    SplitTables(p, n);
    TablesOfDrops(gone);
    TablesOfNewOps(new_, N);
    TablesOfOthers(p, n);
    OnlyOne(gone);
    OnlyOne(new_);
  }

  lemma OnlyOne(names: seq<string>)
    ensures [] + names + [] + [] == names && [] + [] + [] + names == names
  {
  }

  lemma {:induction false} SplitTables(p: Schema, n: Schema)
    ensures var P, N := Tables(p), Tables(n);
      var pe, ne := set e | e in p.extensions, set e | e in n.extensions;
      var a, b := ExtensionOps(pe, ne), TableDrops(Sorted(Joins(P), P.Keys - N.Keys));
      var c, d := SharedOps(Sorted({}, P.Keys * N.Keys), P, N), NewOps(Sorted(Joins(N), N.Keys - P.Keys), N);
      && DroppedBy(SchemaOps(p, n)) == DroppedBy(a) + DroppedBy(b) + DroppedBy(c) + DroppedBy(d)
      && CreatedBy(SchemaOps(p, n)) == CreatedBy(a) + CreatedBy(b) + CreatedBy(c) + CreatedBy(d)
  {
    var P, N := Tables(p), Tables(n);
    var pe, ne := set e | e in p.extensions, set e | e in n.extensions;
    var a, b := ExtensionOps(pe, ne), TableDrops(Sorted(Joins(P), P.Keys - N.Keys));
    var c, d := SharedOps(Sorted({}, P.Keys * N.Keys), P, N), NewOps(Sorted(Joins(N), N.Keys - P.Keys), N);
    hide ExtensionOps, TableDrops, SharedOps, NewOps, Tables, Joins;
    FourParts(SchemaOps(p, n), a, b, c, d, b + c, b + c + d);
  }

  lemma {:induction false} FourParts(ops: Operations, a: Operations, b: Operations, c: Operations, d: Operations,
      bc: Operations, bcd: Operations)
    requires bc == b + c && bcd == bc + d && ops == a + bcd
    ensures DroppedBy(ops) == DroppedBy(a) + DroppedBy(b) + DroppedBy(c) + DroppedBy(d)
    ensures CreatedBy(ops) == CreatedBy(a) + CreatedBy(b) + CreatedBy(c) + CreatedBy(d)
  {
    hide *;
    TablesConcat(a, bcd);
    TablesConcat(bc, d);
    TablesConcat(b, c);
    Associate(DroppedBy(a), DroppedBy(b), DroppedBy(c), DroppedBy(d));
    Associate(CreatedBy(a), CreatedBy(b), CreatedBy(c), CreatedBy(d));
  }

  lemma Associate(a: seq<string>, b: seq<string>, c: seq<string>, d: seq<string>)
    ensures a + (b + c + d) == a + b + c + d
  {
  }
}
